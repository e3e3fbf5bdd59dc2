/**
 * How long a login lasts: from the response that stores it, through any requests of any clients, to the
 * request that finds the user disabled or the password changed.
 */
module SessionLife {
  import opened Common
  import opened Sessions
  import opened SessionClients
  import opened SessionRotation

  /** In terms of what is stored: no timestamp at all, or the user's current one. */
  lemma AuthenticatesIff(s: Session, disabled: Option<DisableReason>, current: int)
    ensures Identify(s, disabled, current).1 <==>
      disabled == None && (PASSWORD_TIMESTAMP_KEY !in s.data || s.data[PASSWORD_TIMESTAMP_KEY] in {Null, Number(current)})
  {
  }

  function DataOf(w: World, client: Client): Data {
    Load(w.redis, CookieOf(w, client)).data
  }

  predicate Holds(data: Data, key: string, value: Value) {
    key in data && data[key] == value
  }

  /** No visit of the client touches the key. */
  predicate LeavesKey(visits: seq<Visit>, client: Client, key: string) {
    forall i :: 0 <= i < |visits| && visits[i].client == client ==> !Touched(visits[i].ops, key)
  }

  /** A value stays in a client's session until the client's own visits touch its key. */
  lemma {:induction false} ValueStays(w: World, visits: seq<Visit>, client: Client, key: string, value: Value)
    requires WorldInv(w) && ValidVisits(w, visits) && Holds(DataOf(w, client), key, value) && LeavesKey(visits, client, key)
    ensures Holds(DataOf(ServeAll(w, visits), client), key, value)
    decreases |visits|
  {
    if visits == [] {
    } else {
      var v := visits[0];
      ServeKeepsWorldInv(w, v);
      if v.client == client {
        VisitorSeesItsChange(w, v);
        UntouchedStays(DataOf(w, client), v.ops, key);
      } else {
        OthersSeeNoChange(w, v, client);
      }
      assert forall i :: 0 <= i < |visits| - 1 ==> visits[1..][i] == visits[i + 1];
      ValueStays(Serve(w, v), visits[1..], client, key, value);
    }
  }

  lemma {:induction false} VisitsKeepWorldInv(w: World, visits: seq<Visit>)
    requires WorldInv(w) && ValidVisits(w, visits)
    ensures WorldInv(ServeAll(w, visits))
    decreases |visits|
  {
    if visits == [] {
    } else {
      ServeKeepsWorldInv(w, visits[0]);
      VisitsKeepWorldInv(Serve(w, visits[0]), visits[1..]);
    }
  }

  /** A visit that does `before`, then operations amounting to a login, then `after`. */
  predicate IsLoginVisit(w: World, v: Visit, before: seq<Op>, made: seq<Op>, after: seq<Op>, attached: Option<UserRef>, login: LoginDetails) {
    var s := ApplyAll(Load(w.redis, CookieOf(w, v.client)), before);
    v.ops == before + made + after && ApplyAll(s, made) == Login(s, attached, login)
  }

  lemma LoginStoresTimestamp(w: World, v: Visit, before: seq<Op>, made: seq<Op>, after: seq<Op>,
                             attached: Option<UserRef>, login: LoginDetails)
    requires WorldInv(w) && Sessions.Fresh(w, v) && IsLoginVisit(w, v, before, made, after, attached, login)
    requires !Touched(after, PASSWORD_TIMESTAMP_KEY)
    ensures Holds(DataOf(Serve(w, v), v.client), PASSWORD_TIMESTAMP_KEY, Number(login.passwordTimestamp))
  {
    var start := Load(w.redis, CookieOf(w, v.client));
    var s := ApplyAll(start, before);
    VisitorSeesItsChange(w, v);
    DataFollows(start, v.ops);
    ApplyBoth(start, before + made, after);
    ApplyBoth(start, before, made);
    DataFollows(Login(s, attached, login), after);
    UntouchedStays(Login(s, attached, login).data, after, PASSWORD_TIMESTAMP_KEY);
  }

  /**
   * A login made at one password timestamp, after whatever happened before, and found again at any later
   * request of the client, after visits of any clients of which its own leave the timestamp alone: it
   * authenticates if and only if the user is not disabled and the password timestamp is still the same.
   */
  lemma LoginLivesUntilPasswordChanges(earlier: seq<Visit>, v: Visit, before: seq<Op>, made: seq<Op>, after: seq<Op>,
                                       attached: Option<UserRef>, login: LoginDetails, later: seq<Visit>, ops: seq<Op>,
                                       disabled: Option<DisableReason>, current: int)
    requires ValidVisits(EMPTY_WORLD, earlier) && Sessions.Fresh(ServeAll(EMPTY_WORLD, earlier), v)
    requires IsLoginVisit(ServeAll(EMPTY_WORLD, earlier), v, before, made, after, attached, login)
    requires ValidVisits(Serve(ServeAll(EMPTY_WORLD, earlier), v), later) && LeavesKey(later, v.client, PASSWORD_TIMESTAMP_KEY)
    requires !Touched(after, PASSWORD_TIMESTAMP_KEY) && !Touched(ops, PASSWORD_TIMESTAMP_KEY)
    ensures var w := ServeAll(Serve(ServeAll(EMPTY_WORLD, earlier), v), later);
      Identify(ApplyAll(Load(w.redis, CookieOf(w, v.client)), ops), disabled, current).1 <==>
      disabled == None && current == login.passwordTimestamp
  {
    var w0 := ServeAll(EMPTY_WORLD, earlier);
    var w1 := Serve(w0, v);
    var w2 := ServeAll(w1, later);
    VisitsKeepWorldInv(EMPTY_WORLD, earlier);
    ServeKeepsWorldInv(w0, v);
    LoginStoresTimestamp(w0, v, before, made, after, attached, login);
    ValueStays(w1, later, v.client, PASSWORD_TIMESTAMP_KEY, Number(login.passwordTimestamp));
    var start := Load(w2.redis, CookieOf(w2, v.client));
    DataFollows(start, ops);
    UntouchedStays(start.data, ops, PASSWORD_TIMESTAMP_KEY);
    AuthenticatesIff(ApplyAll(start, ops), disabled, current);
  }

  // ---------- Whose session, and which notice ----------

  /** What a session holds survives a login exactly when nobody, or the very same reference, was attached to it. */
  lemma SessionIsKeptIff(s: Session, attached: Option<UserRef>, login: LoginDetails, key: string)
    requires key in s.data && !WrittenByLogin(key, login)
    ensures key in Login(s, attached, login).data <==> attached == None || attached == Some(login.userid)
    ensures key in Login(s, attached, login).data ==> Login(s, attached, login).data[key] == s.data[key]
  {
    assert FlashQueueKey("") == FLASH_KEY;
  }

  /** Flashing reaches its own queue, at the end, and no other queue. */
  lemma FlashReachesItsQueue(s: Session, message: Message, queue: string, allowDuplicate: bool, other: string)
    ensures PeekFlash(Flash(s, message, queue, allowDuplicate).data, other) ==
      if other == queue && (allowDuplicate || message !in PeekFlash(s.data, queue))
      then PeekFlash(s.data, queue) + [message] else PeekFlash(s.data, other)
  {
    QueuesAreApart(queue, other);
  }

  lemma QueuesAreApart(a: string, b: string)
    ensures FlashQueueKey(a) == FlashQueueKey(b) <==> a == b
    ensures FlashQueueKey(a) !in {CSRF_TOKEN_KEY, TOTP_SECRET_KEY, TOTP_SECRET_TIMESTAMP_KEY, REAUTH_TIMESTAMP_KEY,
                                  PASSWORD_TIMESTAMP_KEY, USERID_KEY}
  {
    var prefix := FLASH_KEY + ".";
    assert a != "" ==> FlashQueueKey(a) == prefix + a && FlashQueueKey(a)[|prefix|..] == a;
    assert b != "" ==> FlashQueueKey(b) == prefix + b && FlashQueueKey(b)[|prefix|..] == b;
    assert FlashQueueKey(a)[1] == 'f';
    assert CSRF_TOKEN_KEY[1] == 'c' && TOTP_SECRET_KEY[1] == 't' && TOTP_SECRET_TIMESTAMP_KEY[1] == 't';
    assert REAUTH_TIMESTAMP_KEY[1] == 'r' && PASSWORD_TIMESTAMP_KEY[1] == 'p' && USERID_KEY[1] == 'u';
  }

  /** The one message a revoked identity leaves says why, and the session is otherwise empty. */
  lemma NoticeSaysWhy(s: Session, disabled: Option<DisableReason>, current: int)
    requires !Identify(s, disabled, current).1
    ensures var t := Identify(s, disabled, current).0;
      && t.data.Keys == {"_flash_messages.error"}
      && PeekFlash(t.data, "error") ==
         [Message(match disabled
                  case None => "Session invalidated by password change"
                  case Some(AccountFrozen) => "Your account has been suspended. Please contact security@pypi.org for assistance."
                  case Some(_) => "Session invalidated", false)]
  {
    NoticeIsAll(s, Notice(disabled));
    assert FLASH_KEY + "." + "error" == "_flash_messages.error";
  }
}
