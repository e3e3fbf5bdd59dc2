/**
 * What becomes of the stored record when a login, a logout or a revoked identity happens somewhere in a
 * request: the view goes on using the session afterwards.
 */
module SessionRotation {
  import opened Common
  import opened Sessions
  import opened SessionClients

  /**
   * A request: the records and the cookie it finds, what it does to the session before and after the
   * event, the identifier saving would draw, and the identifiers drawn by earlier requests.
   */
  datatype Request = Request(redis: map<Sid, Data>, cookie: Option<Cookie>, before: seq<Op>, after: seq<Op>, random: Sid, used: set<Sid>)

  predicate Fresh(q: Request) {
    && q.redis.Keys <= q.used
    && FreshSids(q.before, q.used) && FreshSids(q.after, q.used + AllDrawn(q.before))
    && q.random !in q.used + AllDrawn(q.before) + AllDrawn(q.after)
  }

  function Start(q: Request): Session {
    Load(q.redis, q.cookie)
  }

  /** The session when the event happens. */
  function AtEvent(q: Request): Session {
    ApplyAll(Start(q), q.before)
  }

  /** The response, if the event left the session as `s`. */
  function Response(q: Request, s: Session): (map<Sid, Data>, CookieAction) {
    Respond(q.redis, ApplyAll(s, q.after), q.random)
  }

  /** The event invalidated the session; what it wrote afterwards is all there is. */
  predicate Renews(q: Request, s: Session) {
    s == Apply(AtEvent(q), Invalidate).(data := s.data, changed := s.changed) && (s.changed || s.data == map[])
  }

  /**
   * The record the request came with is gone, and its cookie is replaced or deleted. A new cookie names
   * an identifier never in use, under which the data of the event and of the rest of the view is
   * stored; the cookie is deleted only when that leaves nothing to store.
   */
  predicate Rotates(q: Request, s: Session) {
    var (redis, action) := Response(q, s);
    var data := MapApplyAll(s.data, q.after);
    && Start(q).sid.Some? && Start(q).sid.value !in redis && !action.KeepCookie?
    && (action.SetCookie? ==>
          && action.sid !in q.used && Start(q).sid != Some(action.sid)
          && action.sid in redis && redis[action.sid] == data)
    && (action.DeleteCookie? ==> data == map[] && redis.Keys <= q.redis.Keys)
    && (s.changed && Invalidate !in q.after ==> action.SetCookie?)
  }

  // ---------- Operations after the event ----------

  lemma {:induction false} DataFollows(s: Session, ops: seq<Op>)
    ensures ApplyAll(s, ops).data == MapApplyAll(s.data, ops)
    decreases |ops|
  {
    if ops == [] {
    } else {
      DataFollows(Apply(s, ops[0]), ops[1..]);
    }
  }

  /** What was invalidated stays so, and an identifier drawn later is new. */
  lemma {:induction false} InvalidatedStays(s: Session, ops: seq<Op>, earlier: set<Sid>, used: set<Sid>)
    requires (s.sid.Some? ==> s.sid.value !in earlier) && earlier <= used && FreshSids(ops, used)
    ensures var t := ApplyAll(s, ops);
      s.invalidated <= t.invalidated && (t.sid.Some? ==> t.sid.value !in earlier)
    decreases |ops|
  {
    if ops == [] {
    } else {
      InvalidatedStays(Apply(s, ops[0]), ops[1..], earlier, used + Drawn(ops[0]));
    }
  }

  lemma {:induction false} ChangedStays(s: Session, ops: seq<Op>)
    requires s.changed && Invalidate !in ops
    ensures ApplyAll(s, ops).changed
    decreases |ops|
  {
    if ops == [] {
    } else {
      assert ops[0] in ops && forall op :: op in ops[1..] ==> op in ops;
      ChangedStays(Apply(s, ops[0]), ops[1..]);
    }
  }

  lemma RenewingRotates(q: Request, s: Session)
    requires Fresh(q) && Start(q).sid.Some? && Renews(q, s)
    ensures Rotates(q, s)
  {
    var start, drawn := Start(q), q.used + AllDrawn(q.before);
    ViewKeepsDuring(start, start, q.before, q.used);
    assert During(s, start, drawn);
    ViewKeepsDuring(s, start, q.after, drawn);
    InvalidatedStays(s, q.after, q.used, drawn);
    if s.changed && Invalidate !in q.after {
      ChangedStays(s, q.after);
    }
  }

  predicate Touches(op: Op, key: string) {
    match op
    case SetItem(k, _) => k == key
    case DelItem(k) => k == key
    case Update(items) => key in items
    case Clear | Invalidate => true
    case Changed | ReadSid(_) => false
  }

  predicate Touched(ops: seq<Op>, key: string) {
    exists i :: 0 <= i < |ops| && Touches(ops[i], key)
  }

  predicate Agree(a: Data, b: Data, key: string) {
    (key in a <==> key in b) && (key in a ==> a[key] == b[key])
  }

  lemma {:induction false} UntouchedStays(data: Data, ops: seq<Op>, key: string)
    requires !Touched(ops, key)
    ensures Agree(MapApplyAll(data, ops), data, key)
    decreases |ops|
  {
    if ops == [] {
    } else {
      assert !Touches(ops[0], key);
      assert forall i :: 0 <= i < |ops| - 1 ==> ops[1..][i] == ops[i + 1];
      UntouchedStays(MapApply(data, ops[0]), ops[1..], key);
    }
  }

  // ---------- Two requests ----------

  /** The operations without the drawing of identifiers. */
  function Undrawn(ops: seq<Op>): seq<Op> {
    if ops == [] then [] else (if ops[0].ReadSid? then [] else [ops[0]]) + Undrawn(ops[1..])
  }

  predicate SameContents(s: Session, t: Session) {
    s.data == t.data && s.changed == t.changed
  }

  lemma {:induction false} DrawingChangesNothing(s: Session, t: Session, ops: seq<Op>)
    requires SameContents(s, t)
    ensures SameContents(ApplyAll(s, ops), ApplyAll(t, Undrawn(ops)))
    decreases |ops|
  {
    if ops == [] {
    } else if ops[0].ReadSid? {
      assert [] + Undrawn(ops[1..]) == Undrawn(ops[1..]);
      DrawingChangesNothing(Apply(s, ops[0]), t, ops[1..]);
    } else {
      assert Undrawn(ops)[1..] == Undrawn(ops[1..]);
      DrawingChangesNothing(Apply(s, ops[0]), Apply(t, ops[0]), ops[1..]);
    }
  }

  /** Two requests that the event leaves with the same contents and that go on alike store the same. */
  lemma SameContentsStoreTheSame(q1: Request, q2: Request, s1: Session, s2: Session)
    requires SameContents(s1, s2) && Undrawn(q1.after) == Undrawn(q2.after)
    ensures var (redis1, action1) := Response(q1, s1);
      var (redis2, action2) := Response(q2, s2);
      && (action1.SetCookie? <==> action2.SetCookie?)
      && (action1.SetCookie? ==> redis1[action1.sid] == redis2[action2.sid])
  {
    DrawingChangesNothing(s1, s1, q1.after);
    DrawingChangesNothing(s2, s1, q2.after);
  }

  // ---------- Logging in ----------

  /** A login anywhere in a request rotates the session. */
  lemma LoginRotates(q: Request, attached: Option<UserRef>, login: LoginDetails)
    requires Fresh(q) && Start(q).sid.Some?
    ensures Rotates(q, Login(AtEvent(q), attached, login))
  {
    RenewingRotates(q, Login(AtEvent(q), attached, login));
  }

  /**
   * Two requests with different records and different pasts, each with another user attached, that make
   * the same login and go on alike store the same data, and nothing that neither the login nor the rest
   * of the view wrote.
   */
  lemma LoginOverAnotherUserForgets(q1: Request, q2: Request, attached1: Option<UserRef>, attached2: Option<UserRef>, login: LoginDetails)
    requires OtherUserAttached(attached1, login.userid) && OtherUserAttached(attached2, login.userid)
    requires Undrawn(q1.after) == Undrawn(q2.after)
    ensures var (redis1, action1) := Response(q1, Login(AtEvent(q1), attached1, login));
      var (redis2, action2) := Response(q2, Login(AtEvent(q2), attached2, login));
      && (action1.SetCookie? <==> action2.SetCookie?)
      && (action1.SetCookie? ==>
            && redis1[action1.sid] == redis2[action2.sid]
            && forall key :: key in redis1[action1.sid] ==> WrittenByLogin(key, login) || Touched(q1.after, key))
  {
    var s1, s2 := Login(AtEvent(q1), attached1, login), Login(AtEvent(q2), attached2, login);
    SameContentsStoreTheSame(q1, q2, s1, s2);
    DataFollows(s1, q1.after);
    forall key | key in MapApplyAll(s1.data, q1.after) && !Touched(q1.after, key)
      ensures WrittenByLogin(key, login)
    {
      UntouchedStays(s1.data, q1.after, key);
    }
  }

  /**
   * Otherwise every key that neither the login nor the rest of the view writes is stored as the view had
   * it before the login, so as it was in the old record if nothing in the request wrote it.
   */
  lemma LoginCarriesSessionOver(q: Request, attached: Option<UserRef>, login: LoginDetails, key: string)
    requires !OtherUserAttached(attached, login.userid) && !WrittenByLogin(key, login) && !Touched(q.after, key)
    ensures var (redis, action) := Response(q, Login(AtEvent(q), attached, login));
      && action.SetCookie?
      && Agree(redis[action.sid], MapApplyAll(Start(q).data, q.before), key)
      && (!Touched(q.before, key) ==> Agree(redis[action.sid], Start(q).data, key))
  {
    var s := Login(AtEvent(q), attached, login);
    assert FlashQueueKey("") == FLASH_KEY;
    DataFollows(Start(q), q.before);
    DataFollows(s, q.after);
    UntouchedStays(s.data, q.after, key);
    if !Touched(q.before, key) {
      UntouchedStays(Start(q).data, q.before, key);
    }
    assert Invalidate !in q.after by {
      assert Touches(Invalidate, key);
    }
    ChangedStays(s, q.after);
  }

  // ---------- Revoked identities ----------

  /**
   * A disabled user or an outdated password rotates the session, and of its data keeps nothing: what is
   * stored is the notice, and what the rest of the view makes of it. The notice is there unless the view
   * touches its queue.
   */
  lemma RevocationRotates(q: Request, disabled: Option<DisableReason>, passwordTimestamp: int)
    requires Fresh(q) && Start(q).sid.Some?
    ensures var s := AtEvent(q);
      var (t, authenticated) := Identify(s, disabled, passwordTimestamp);
      var (redis, action) := Response(q, t);
      && (authenticated <==>
            disabled == None && (PASSWORD_TIMESTAMP_KEY !in s.data || s.data[PASSWORD_TIMESTAMP_KEY] in {Null, Number(passwordTimestamp)}))
      && (authenticated ==> t == s)
      && (!authenticated ==> Rotates(q, t) && t.data == map[FlashQueueKey("error") := Messages([Notice(disabled)])])
      && (!authenticated && !Touched(q.after, FlashQueueKey("error")) ==>
            action.SetCookie? && PeekFlash(redis[action.sid], "error") == [Notice(disabled)])
  {
    var (t, authenticated) := Identify(AtEvent(q), disabled, passwordTimestamp);
    if !authenticated {
      RenewingRotates(q, t);
      NoticeIsAll(AtEvent(q), Notice(disabled));
      if !Touched(q.after, FlashQueueKey("error")) {
        UntouchedStays(t.data, q.after, FlashQueueKey("error"));
        assert Invalidate !in q.after by {
          assert Touches(Invalidate, FlashQueueKey("error"));
        }
      }
    }
  }

  lemma NoticeIsAll(s: Session, notice: Message)
    ensures Flash(Apply(s, Invalidate), notice, "error", true).data == map[FlashQueueKey("error") := Messages([notice])]
  {
    var empty := Apply(s, Invalidate);
    assert PeekFlash(empty.data, "error") == [] && [] + [notice] == [notice];
  }

  // ---------- Logging out ----------

  /** Logging out rotates the session to an empty one; if the view ends with it, the cookie is deleted. */
  lemma LogoutErases(q: Request)
    requires Fresh(q) && Start(q).sid.Some?
    ensures var s := Logout(AtEvent(q));
      var (redis, action) := Response(q, s);
      && Rotates(q, s) && s.data == map[]
      && (q.after == [] ==> action == DeleteCookie && Load(redis, Receive(q.cookie, action)) == NEW_SESSION)
  {
    RenewingRotates(q, Logout(AtEvent(q)));
  }

  // ---------- Several events in one request ----------

  lemma {:induction false} OneMoreOp(s: Session, ops: seq<Op>, op: Op)
    ensures ApplyAll(s, ops + [op]) == Apply(ApplyAll(s, ops), op)
    decreases |ops|
  {
    if ops == [] {
      assert [] + [op] == [op] && [op][1..] == [];
    } else {
      OneMoreOp(Apply(s, ops[0]), ops[1..], op);
      assert (ops + [op])[1..] == ops[1..] + [op];
    }
  }

  /** What a login does between starting afresh and flashing a notice. */
  function LoginWritesOps(login: LoginDetails): seq<Op> {
    [SetItem(USERID_KEY, Text(login.userid.text))] + [SetItem(CSRF_TOKEN_KEY, Text(login.csrfToken))]
    + [SetItem(REAUTH_TIMESTAMP_KEY, Number(login.authTimestamp))] + [SetItem(PASSWORD_TIMESTAMP_KEY, Number(login.passwordTimestamp))]
  }

  lemma LoginWritesAre(s: Session, login: LoginDetails)
    ensures ApplyAll(s, LoginWritesOps(login)) ==
      Apply(Apply(Apply(Apply(s, SetItem(USERID_KEY, Text(login.userid.text))), SetItem(CSRF_TOKEN_KEY, Text(login.csrfToken))),
        SetItem(REAUTH_TIMESTAMP_KEY, Number(login.authTimestamp))), SetItem(PASSWORD_TIMESTAMP_KEY, Number(login.passwordTimestamp)))
  {
    var user, csrf := SetItem(USERID_KEY, Text(login.userid.text)), SetItem(CSRF_TOKEN_KEY, Text(login.csrfToken));
    var auth := SetItem(REAUTH_TIMESTAMP_KEY, Number(login.authTimestamp));
    OneMoreOp(s, [], user);
    assert [] + [user] == [user];
    OneMoreOp(s, [user], csrf);
    OneMoreOp(s, [user] + [csrf], auth);
    OneMoreOp(s, [user] + [csrf] + [auth], SetItem(PASSWORD_TIMESTAMP_KEY, Number(login.passwordTimestamp)));
  }

  /** A login is itself operations, none of which draws: it may be what goes on after a revocation. */
  lemma LoginIsOperations(s: Session, attached: Option<UserRef>, login: LoginDetails) returns (ops: seq<Op>)
    ensures ApplyAll(s, ops) == Login(s, attached, login)
    ensures forall op :: op in ops ==> !op.ReadSid?
  {
    var start := [Invalidate] + (if OtherUserAttached(attached, login.userid) then [] else [Update(s.data)]);
    var s1 := ApplyAll(s, start);
    assert s1 == if OtherUserAttached(attached, login.userid) then Apply(s, Invalidate) else Apply(Apply(s, Invalidate), Update(s.data)) by {
      OneMoreOp(s, [], Invalidate);
      assert [] + [Invalidate] == [Invalidate];
      OneMoreOp(s, [Invalidate], Update(s.data));
      assert [Invalidate] + [] == [Invalidate];
    }
    ops := start + LoginWritesOps(login);
    ApplyBoth(s, start, LoginWritesOps(login));
    LoginWritesAre(s1, login);
    if login.termsNotice.Some? {
      var notice := SetItem(FLASH_KEY, Messages(PeekFlash(ApplyAll(s, ops).data, "") + [login.termsNotice.value]));
      OneMoreOp(s, ops, notice);
      ops := ops + [notice];
    }
  }

  lemma {:induction false} ApplyBoth(s: Session, a: seq<Op>, b: seq<Op>)
    ensures ApplyAll(s, a + b) == ApplyAll(ApplyAll(s, a), b)
    decreases |a|
  {
    if a == [] {
      assert a + b == b;
    } else {
      ApplyBoth(Apply(s, a[0]), a[1..], b);
      assert (a + b)[1..] == a[1..] + b;
    }
  }
}
