/**
 * Server-side sessions: a lazily saved record in Redis, named by a signed cookie, whose identifier
 * rotates. `Session` is the state of the dictionary during one request; `Load` and `Respond` are what
 * the session factory does before and after the view.
 */
module Sessions {
  import opened Common

  type Sid = nat

  datatype Message = Message(msg: string, safe: bool)

  datatype Value = Null | Text(text: string) | Number(number: int) | Messages(messages: seq<Message>)

  type Data = map<string, Value>

  /** The dictionary with its bookkeeping: identifier, changed flag and invalidated identifiers. */
  datatype Session = Session(data: Data, sid: Option<Sid>, changed: bool, invalidated: set<Sid>)

  /** A session cookie: an identifier under our signature, or anything else a client may send. */
  datatype Cookie = Signed(sid: Sid) | BadSignature

  datatype CookieAction = KeepCookie | DeleteCookie | SetCookie(sid: Sid)

  const NEW_SESSION := Session(map[], None, false, {})

  /** `_process_request`. */
  function Load(redis: map<Sid, Data>, cookie: Option<Cookie>): Session {
    if cookie.None? || cookie.value.BadSignature? || cookie.value.sid !in redis then NEW_SESSION
    else Session(redis[cookie.value.sid], Some(cookie.value.sid), false, {})
  }

  /** The `sid` property: an identifier is drawn on first use. */
  function WithSid(s: Session, random: Sid): Session {
    if s.sid.None? then s.(sid := Some(random)) else s
  }

  /** `_process_response`; `random` is the identifier a session without one would draw. */
  function Respond(redis: map<Sid, Data>, s: Session, random: Sid): (map<Sid, Data>, CookieAction) {
    var kept := redis - s.invalidated;
    if s.changed then
      var sid := WithSid(s, random).sid.value;
      (kept[sid := s.data], SetCookie(sid))
    else (kept, if s.invalidated != {} then DeleteCookie else KeepCookie)
  }

  function Receive(cookie: Option<Cookie>, action: CookieAction): Option<Cookie> {
    match action
    case KeepCookie => cookie
    case DeleteCookie => None
    case SetCookie(sid) => Some(Signed(sid))
  }

  // ---------- What a view may do ----------

  /** The tracked primitives; every other session method is made of these. */
  datatype Op =
    | SetItem(key: string, value: Value)
    | DelItem(key: string)
    | Update(items: Data)
    | Clear
    | Changed
    | Invalidate
    | ReadSid(random: Sid)

  /** `__delitem__` of a missing key raises, but only after the session was marked changed. */
  function Apply(s: Session, op: Op): Session {
    match op
    case SetItem(key, value) => s.(data := s.data[key := value], changed := true)
    case DelItem(key) => s.(data := s.data - {key}, changed := true)
    case Update(items) => s.(data := s.data + items, changed := true)
    case Clear => s.(data := map[], changed := true)
    case Changed => s.(changed := true)
    case Invalidate =>
      Session(map[], None, false, if s.sid.Some? then s.invalidated + {s.sid.value} else s.invalidated)
    case ReadSid(random) => WithSid(s, random)
  }

  function ApplyAll(s: Session, ops: seq<Op>): Session
    decreases |ops|
  {
    if ops == [] then s else ApplyAll(Apply(s, ops[0]), ops[1..])
  }

  // ---------- The simple map a session should behave like ----------

  function MapApply(data: Data, op: Op): Data {
    match op
    case SetItem(key, value) => data[key := value]
    case DelItem(key) => data - {key}
    case Update(items) => data + items
    case Clear | Invalidate => map[]
    case Changed | ReadSid(_) => data
  }

  function MapApplyAll(data: Data, ops: seq<Op>): Data
    decreases |ops|
  {
    if ops == [] then data else MapApplyAll(MapApply(data, ops[0]), ops[1..])
  }

  /** The identifiers drawn by the operations are new, to the server and to one another. */
  predicate FreshSids(ops: seq<Op>, used: set<Sid>)
    decreases |ops|
  {
    if ops == [] then true
    else (ops[0].ReadSid? ==> ops[0].random !in used) && FreshSids(ops[1..], used + Drawn(ops[0]))
  }

  function Drawn(op: Op): set<Sid> {
    if op.ReadSid? then {op.random} else {}
  }

  function AllDrawn(ops: seq<Op>): set<Sid>
    decreases |ops|
  {
    if ops == [] then {} else Drawn(ops[0]) + AllDrawn(ops[1..])
  }

  // ---------- One request ----------

  /** How a session relates to the data it was loaded with, at any point of a view. */
  ghost predicate During(s: Session, start: Session, used: set<Sid>) {
    && s.invalidated <= used && (s.sid.Some? ==> s.sid.value in used)
    && (s.sid.Some? ==> s.sid.value !in s.invalidated)
    && (!s.changed && s.invalidated == {} ==> s.data == start.data)
    && (!s.changed && s.invalidated != {} ==> s.data == map[])
    && (s.invalidated == {} && start.sid.Some? ==> s.sid == start.sid)
    && (s.invalidated != {} && start.sid.Some? ==> start.sid.value in s.invalidated)
  }

  lemma ApplyKeepsDuring(s: Session, start: Session, op: Op, used: set<Sid>)
    requires During(s, start, used) && (op.ReadSid? ==> op.random !in used)
    requires start.sid.None? ==> start.data == map[]
    ensures During(Apply(s, op), start, used + Drawn(op))
    ensures Apply(s, op).data == MapApply(s.data, op)
    ensures Apply(s, op).invalidated <= s.invalidated + (if s.sid.Some? then {s.sid.value} else {})
  {
  }

  lemma {:induction false} ViewKeepsDuring(s: Session, start: Session, ops: seq<Op>, used: set<Sid>)
    requires During(s, start, used) && FreshSids(ops, used)
    requires start.sid.None? ==> start.data == map[]
    ensures During(ApplyAll(s, ops), start, used + AllDrawn(ops))
    ensures ApplyAll(s, ops).data == MapApplyAll(s.data, ops)
    decreases |ops|
  {
    if ops != [] {
      ApplyKeepsDuring(s, start, ops[0], used);
      ViewKeepsDuring(Apply(s, ops[0]), start, ops[1..], used + Drawn(ops[0]));
      assert used + Drawn(ops[0]) + AllDrawn(ops[1..]) == used + AllDrawn(ops);
    } else {
      assert used + AllDrawn(ops) == used;
    }
  }

  /** The identifiers a session holds or has invalidated come from where it started or were drawn on the way. */
  lemma {:induction false} OwnSids(s: Session, ops: seq<Op>, own: set<Sid>)
    requires s.invalidated <= own && (s.sid.Some? ==> s.sid.value in own)
    ensures var t := ApplyAll(s, ops);
      t.invalidated <= own + AllDrawn(ops) && (t.sid.Some? ==> t.sid.value in own + AllDrawn(ops))
    decreases |ops|
  {
    if ops == [] {
    } else {
      OwnSids(Apply(s, ops[0]), ops[1..], own + Drawn(ops[0]));
      assert own + Drawn(ops[0]) + AllDrawn(ops[1..]) == own + AllDrawn(ops);
    }
  }

  /**
   * A response never deletes the record it stores, and the next request carrying the resulting cookie
   * loads exactly what the view left, whether the session was saved, left alone or invalidated.
   */
  lemma NextRequestLoadsWhatTheViewLeft(redis: map<Sid, Data>, cookie: Option<Cookie>, ops: seq<Op>, random: Sid, used: set<Sid>)
    requires redis.Keys <= used && FreshSids(ops, used) && random !in used + AllDrawn(ops)
    ensures var start := Load(redis, cookie);
      var end := ApplyAll(start, ops);
      var (redis', action) := Respond(redis, end, random);
      && Load(redis', Receive(cookie, action)).data == end.data == MapApplyAll(start.data, ops)
      && (action.SetCookie? ==> action.sid !in end.invalidated && action.sid in redis' && redis'[action.sid] == end.data)
      && (forall x :: x in end.invalidated ==> x !in redis')
  {
    var start := Load(redis, cookie);
    ViewKeepsDuring(start, start, ops, used);
  }

  // ---------- Many clients, many requests ----------

  type Client = nat

  /** Redis, the cookie each client holds, and every identifier ever drawn. */
  datatype World = World(redis: map<Sid, Data>, cookies: map<Client, Cookie>, used: set<Sid>)

  datatype Visit = Visit(client: Client, ops: seq<Op>, random: Sid)

  const EMPTY_WORLD := World(map[], map[], {})

  function CookieOf(w: World, client: Client): Option<Cookie> {
    if client in w.cookies then Some(w.cookies[client]) else None
  }

  predicate Fresh(w: World, v: Visit) {
    FreshSids(v.ops, w.used) && v.random !in w.used + AllDrawn(v.ops)
  }

  function Serve(w: World, v: Visit): World {
    var end := ApplyAll(Load(w.redis, CookieOf(w, v.client)), v.ops);
    var (redis, action) := Respond(w.redis, end, v.random);
    var cookie := Receive(CookieOf(w, v.client), action);
    World(redis,
          if cookie.Some? then w.cookies[v.client := cookie.value] else w.cookies - {v.client},
          w.used + AllDrawn(v.ops) + {v.random})
  }

  predicate ValidVisits(w: World, visits: seq<Visit>)
    decreases |visits|
  {
    visits != [] ==> Fresh(w, visits[0]) && ValidVisits(Serve(w, visits[0]), visits[1..])
  }

  function ServeAll(w: World, visits: seq<Visit>): World
    decreases |visits|
  {
    if visits == [] then w else ServeAll(Serve(w, visits[0]), visits[1..])
  }

  /** The reference: one plain map per client. */
  function Reference(view: map<Client, Data>, visits: seq<Visit>): map<Client, Data>
    decreases |visits|
  {
    if visits == [] then view
    else Reference(view[visits[0].client := MapApplyAll(Lookup(view, visits[0].client), visits[0].ops)], visits[1..])
  }

  function Lookup(view: map<Client, Data>, client: Client): Data {
    if client in view then view[client] else map[]
  }

  ghost predicate WorldInv(w: World) {
    && w.redis.Keys <= w.used
    && (forall c :: c in w.cookies && w.cookies[c].Signed? ==> w.cookies[c].sid in w.used)
    && (forall c, d :: c in w.cookies && d in w.cookies && w.cookies[c].Signed? && w.cookies[c] == w.cookies[d] ==> c == d)
  }

  /** The session of client `c` behaves like `view[c]`. */
  ghost predicate Refines(w: World, view: map<Client, Data>) {
    forall c :: Load(w.redis, CookieOf(w, c)).data == Lookup(view, c)
  }

  /** The identifiers a visit leaves in Redis and in the client's cookie are its own. */
  lemma VisitTouchesOwnSids(w: World, v: Visit)
    requires WorldInv(w) && Fresh(w, v)
    ensures var w' := Serve(w, v);
      var start := Load(w.redis, CookieOf(w, v.client));
      && w.used <= w'.used && w'.redis.Keys <= w'.used
      && (v.client in w'.cookies && w'.cookies[v.client].Signed? ==>
            w'.cookies[v.client].sid in w'.used
            && (w'.cookies[v.client].sid in w.used ==> v.client in w.cookies && w.cookies[v.client] == w'.cookies[v.client]))
      && (forall x :: x in w.used && start.sid != Some(x) ==> (x in w'.redis <==> x in w.redis) && (x in w.redis ==> w'.redis[x] == w.redis[x]))
  {
    var start := Load(w.redis, CookieOf(w, v.client));
    OwnSids(start, v.ops, if start.sid.Some? then {start.sid.value} else {});
    DrawnAreFresh(v.ops, w.used);
  }

  lemma ServeKeepsWorldInv(w: World, v: Visit)
    requires WorldInv(w) && Fresh(w, v)
    ensures WorldInv(Serve(w, v))
  {
    VisitTouchesOwnSids(w, v);
    var w' := Serve(w, v);
    assert forall c :: c != v.client ==> (c in w'.cookies <==> c in w.cookies) && (c in w.cookies ==> w'.cookies[c] == w.cookies[c]);
  }

  /** A visit changes nothing for another client. */
  lemma OthersSeeNoChange(w: World, v: Visit, other: Client)
    requires WorldInv(w) && Fresh(w, v) && other != v.client
    ensures Load(Serve(w, v).redis, CookieOf(Serve(w, v), other)).data == Load(w.redis, CookieOf(w, other)).data
  {
    VisitTouchesOwnSids(w, v);
    assert CookieOf(Serve(w, v), other) == CookieOf(w, other);
  }

  /** The client itself next sees what its visit left. */
  lemma VisitorSeesItsChange(w: World, v: Visit)
    requires WorldInv(w) && Fresh(w, v)
    ensures Load(Serve(w, v).redis, CookieOf(Serve(w, v), v.client)).data
      == MapApplyAll(Load(w.redis, CookieOf(w, v.client)).data, v.ops)
  {
    NextRequestLoadsWhatTheViewLeft(w.redis, CookieOf(w, v.client), v.ops, v.random, w.used);
  }

  lemma ServeRefines(w: World, view: map<Client, Data>, v: Visit)
    requires WorldInv(w) && Refines(w, view) && Fresh(w, v)
    ensures Refines(Serve(w, v), view[v.client := MapApplyAll(Lookup(view, v.client), v.ops)])
  {
    hide Serve, WorldInv, Fresh, Load, CookieOf;
    VisitorSeesItsChange(w, v);
    forall other | other != v.client
      ensures Load(Serve(w, v).redis, CookieOf(Serve(w, v), other)).data == Load(w.redis, CookieOf(w, other)).data
    {
      OthersSeeNoChange(w, v, other);
    }
  }

  lemma {:induction false} DrawnAreFresh(ops: seq<Op>, used: set<Sid>)
    requires FreshSids(ops, used)
    ensures AllDrawn(ops) !! used
    decreases |ops|
  {
    if ops == [] {
    } else {
      DrawnAreFresh(ops[1..], used + Drawn(ops[0]));
    }
  }

  lemma {:induction false} VisitsRefine(w: World, view: map<Client, Data>, visits: seq<Visit>)
    requires WorldInv(w) && Refines(w, view) && ValidVisits(w, visits)
    ensures Refines(ServeAll(w, visits), Reference(view, visits))
    decreases |visits|
  {
    if visits == [] {
    } else {
      ServeKeepsWorldInv(w, visits[0]);
      ServeRefines(w, view, visits[0]);
      VisitsRefine(Serve(w, visits[0]), view[visits[0].client := MapApplyAll(Lookup(view, visits[0].client), visits[0].ops)], visits[1..]);
    }
  }

  /** After any interleaving of requests, each client's next request sees exactly its own plain map. */
  lemma SessionsBehaveLikeMaps(visits: seq<Visit>, client: Client)
    requires ValidVisits(EMPTY_WORLD, visits)
    ensures var w := ServeAll(EMPTY_WORLD, visits);
      Load(w.redis, CookieOf(w, client)).data == Lookup(Reference(map[], visits), client)
  {
    VisitsRefine(EMPTY_WORLD, map[], visits);
  }
}
