/** What every run of the login protocol guarantees. */
module LoginTheorems {
  import opened Common
  import opened RecoveryCodes
  import opened LoginProtocol

  // ---------- The invariant ----------

  predicate SamePair(a: LoginRecord, user: UserId, ip: IpId) {
    a.user == user && a.ip == ip
  }

  ghost predicate RowsInv(s: State) {
    && (forall i, j :: (i in s.logins && j in s.logins && s.logins[i].user == s.logins[j].user &&
                        s.logins[i].ip == s.logins[j].ip) ==> i == j)
    && (forall i :: i in s.logins ==> s.logins[i].user in s.users)
    && (forall i :: i in s.logins && s.logins[i].status.PENDING? ==>
          s.logins[i].expires.Some? && s.logins[i].expires.value - WINDOW <= s.now)
  }

  /** An issued token's user owns the login it names: `confirm_login` relies on it without checking. */
  ghost predicate TokensInv(s: State) {
    && (forall t :: t in s.confirmTokens ==> t.login in s.logins && s.logins[t.login].user == t.user && t.stamp <= s.now)
    && (forall t :: t in s.twoFactorTokens ==> t.user in s.users && t.stamp <= s.now)
    && (forall u :: u in s.users ==> s.users[u].lastLogin <= s.now)
  }

  /** Mail only ever carries issued tokens, stamped when it was queued. */
  ghost predicate MailInv(s: State) {
    forall k :: 0 <= k < |s.mails| ==>
      s.mails[k].token in s.confirmTokens && s.mails[k].at <= s.now && s.mails[k].token.stamp == Stamp(s.mails[k].at)
  }

  /** A non-phishable record of the pair among the first `n` records. */
  ghost predicate Vouched(log: seq<LoginRecord>, n: nat, user: UserId, ip: IpId)
    requires n <= |log|
  {
    exists j :: 0 <= j < n && SamePair(log[j], user, ip) && log[j].via !in PHISHABLE_METHODS
  }

  ghost predicate LogInv(s: State) {
    && (forall id :: id in s.logins && s.logins[id].status.CONFIRMED? ==>
          Vouched(s.log, |s.log|, s.logins[id].user, s.logins[id].ip))
    && (forall k :: 0 <= k < |s.log| && s.log[k].via in PHISHABLE_METHODS ==>
          Vouched(s.log, k, s.log[k].user, s.log[k].ip))
    && (forall k :: 0 <= k < |s.log| && s.log[k].via !in PHISHABLE_METHODS ==> DeviceConfirmed(s, s.log[k].user, s.log[k].ip))
    && (forall j, k :: 0 <= j < k < |s.log| && s.log[j].via.EmailConfirmation? && s.log[k].via.EmailConfirmation? ==>
          !SamePair(s.log[j], s.log[k].user, s.log[k].ip))
  }

  ghost predicate Inv(s: State) {
    RowsInv(s) && TokensInv(s) && MailInv(s) && LogInv(s)
  }

  // ---------- Every handler keeps it ----------

  lemma FindLoginFinds(s: State, id: LoginId)
    requires RowsInv(s) && id in s.logins
    ensures FindLogin(s.logins, s.logins[id].user, s.logins[id].ip) == Some(id)
  {
  }

  /** The row an attempt leaves behind stays PENDING, belongs to the pair, and its window is open. */
  lemma OpenedRow(s: State, user: UserId, ip: IpId, newId: LoginId)
    requires RowsInv(s) && user in s.users && newId !in s.logins && !DeviceConfirmed(s, user, ip)
    ensures var (id, row, opens) := OpenWindow(s, user, ip, newId);
      && row.user == user && row.ip == ip && row.status.PENDING? && row.expires.Some?
      && row.expires.value - WINDOW <= s.now <= row.expires.value
      && (opens ==> row.expires.value == s.now + WINDOW)
      && (id in s.logins ==> s.logins[id].user == user && s.logins[id].ip == ip && s.logins[id].status.PENDING?)
      && (id !in s.logins ==> opens && FindLogin(s.logins, user, ip).None?)
      && (!opens ==> id in s.logins && s.logins[id] == row)
  {
  }

  lemma DeviceKeepsRows(s: State, user: UserId, ip: IpId, remember: bool, newId: LoginId)
    requires RowsInv(s) && user in s.users && newId !in s.logins
    ensures RowsInv(DeviceIsKnown(s, user, ip, remember, newId).0)
  {
    if !DeviceConfirmed(s, user, ip) {
      OpenedRow(s, user, ip, newId);
    }
  }

  lemma DeviceKeepsTokens(s: State, user: UserId, ip: IpId, remember: bool, newId: LoginId)
    requires RowsInv(s) && TokensInv(s) && user in s.users && newId !in s.logins
    ensures TokensInv(DeviceIsKnown(s, user, ip, remember, newId).0)
  {
    if !DeviceConfirmed(s, user, ip) {
      OpenedRow(s, user, ip, newId);
      StampMonotone(s.now, s.now);
    }
  }

  lemma DeviceKeepsMail(s: State, user: UserId, ip: IpId, remember: bool, newId: LoginId)
    requires MailInv(s) && user in s.users
    ensures MailInv(DeviceIsKnown(s, user, ip, remember, newId).0)
  {
  }

  lemma DeviceKeepsLog(s: State, user: UserId, ip: IpId, remember: bool, newId: LoginId)
    requires RowsInv(s) && LogInv(s) && user in s.users && newId !in s.logins
    ensures LogInv(DeviceIsKnown(s, user, ip, remember, newId).0)
  {
    hide LogInv, RowsInv;
    var t := DeviceIsKnown(s, user, ip, remember, newId).0;
    if !DeviceConfirmed(s, user, ip) {
      OpenedRow(s, user, ip, newId);
      DeviceKeepsRows(s, user, ip, remember, newId);
      SameLogKept(s, t);
    }
  }

  /** A step that logs nothing, adds no confirmed row and changes none. */
  lemma SameLogKept(s: State, t: State)
    requires LogInv(s) && RowsInv(t) && t.log == s.log
    requires forall i :: i in s.logins && s.logins[i].status.CONFIRMED? ==> i in t.logins && t.logins[i] == s.logins[i]
    requires forall i :: i in t.logins && t.logins[i].status.CONFIRMED? ==> i in s.logins && t.logins[i] == s.logins[i]
    ensures LogInv(t)
  {
    forall k | 0 <= k < |t.log| && t.log[k].via !in PHISHABLE_METHODS
      ensures DeviceConfirmed(t, t.log[k].user, t.log[k].ip)
    {
      StaysConfirmed(s, t, s.log[k].user, s.log[k].ip);
    }
  }

  lemma StaysConfirmed(s: State, t: State, user: UserId, ip: IpId)
    requires RowsInv(t) && DeviceConfirmed(s, user, ip)
    requires forall i :: i in s.logins && s.logins[i].status.CONFIRMED? ==>
      i in t.logins && t.logins[i].status.CONFIRMED? && t.logins[i].user == s.logins[i].user && t.logins[i].ip == s.logins[i].ip
    ensures DeviceConfirmed(t, user, ip)
  {
    FindLoginFinds(t, FindLogin(s.logins, user, ip).value);
  }

  /** A login is admissible when its method fits what is known of the device. */
  ghost predicate MayLogIn(s: State, user: UserId, ip: IpId, via: Method) {
    && user in s.users
    && (via in PHISHABLE_METHODS ==> DeviceConfirmed(s, user, ip))
    && (via.EmailConfirmation? ==> !DeviceConfirmed(s, user, ip))
  }

  /** The effect of a login: login `id`, if any, is now CONFIRMED and belongs to the pair; one record is logged. */
  ghost predicate LoggedInTo(s: State, t: State, id: LoginId, confirms: bool, record: LoginRecord) {
    && t == s.(users := t.users, logins := t.logins, log := s.log + [record])
    && t.users.Keys == s.users.Keys
    && (forall u :: u in t.users ==> t.users[u].lastLogin == if u == record.user then s.now else s.users[u].lastLogin)
    && (!confirms ==> t.logins == s.logins)
    && (confirms ==>
          && id in t.logins && t.logins == s.logins[id := t.logins[id]]
          && t.logins[id].status.CONFIRMED? && t.logins[id].user == record.user && t.logins[id].ip == record.ip
          && (id in s.logins ==> t.logins[id] == s.logins[id].(status := CONFIRMED))
          && (id !in s.logins ==> FindLogin(s.logins, record.user, record.ip).None?))
    && (id in s.logins ==> s.logins[id].user == record.user && s.logins[id].ip == record.ip)
  }

  lemma LoginShape(s: State, user: UserId, ip: IpId, via: Method, newId: LoginId) returns (id: LoginId)
    requires MayLogIn(s, user, ip, via) && newId !in s.logins
    ensures LoggedInTo(s, LoginUser(s, user, ip, via, newId), id, via !in PHISHABLE_METHODS, LoginRecord(user, ip, via, s.now))
    ensures FindLogin(s.logins, user, ip) == if id in s.logins then Some(id) else None
  {
    id := match FindLogin(s.logins, user, ip) case Some(i) => i case None => newId;
  }

  lemma LoginKeepsRows(s: State, t: State, id: LoginId, confirms: bool, record: LoginRecord)
    requires RowsInv(s) && TokensInv(s) && LoggedInTo(s, t, id, confirms, record) && record.user in s.users
    ensures RowsInv(t) && TokensInv(t)
  {
  }

  lemma VouchedStays(log: seq<LoginRecord>, n: nat, record: LoginRecord, m: nat, user: UserId, ip: IpId)
    requires n <= |log| && n <= m <= |log| + 1 && Vouched(log, n, user, ip)
    ensures Vouched(log + [record], m, user, ip)
  {
    var j :| 0 <= j < n && SamePair(log[j], user, ip) && log[j].via !in PHISHABLE_METHODS;
    assert (log + [record])[j] == log[j];
  }

  lemma LoginKeepsVouching(s: State, t: State, id: LoginId, record: LoginRecord)
    requires LogInv(s) && LoggedInTo(s, t, id, record.via !in PHISHABLE_METHODS, record)
    requires record.via in PHISHABLE_METHODS ==> id in s.logins && s.logins[id].status.CONFIRMED?
    ensures forall i :: i in t.logins && t.logins[i].status.CONFIRMED? ==> Vouched(t.log, |t.log|, t.logins[i].user, t.logins[i].ip)
    ensures forall k :: 0 <= k < |t.log| && t.log[k].via in PHISHABLE_METHODS ==> Vouched(t.log, k, t.log[k].user, t.log[k].ip)
  {
    var last := |s.log|;
    forall i | i in t.logins && t.logins[i].status.CONFIRMED?
      ensures Vouched(t.log, |t.log|, t.logins[i].user, t.logins[i].ip)
    {
      if i in s.logins && s.logins[i].status.CONFIRMED? {
        VouchedStays(s.log, last, record, last + 1, s.logins[i].user, s.logins[i].ip);
      } else {
        assert SamePair(t.log[last], t.logins[i].user, t.logins[i].ip);
      }
    }
    forall k | 0 <= k < |t.log| && t.log[k].via in PHISHABLE_METHODS
      ensures Vouched(t.log, k, t.log[k].user, t.log[k].ip)
    {
      if k == last {
        VouchedStays(s.log, last, record, last, s.logins[id].user, s.logins[id].ip);
      } else {
        VouchedStays(s.log, k, record, k, s.log[k].user, s.log[k].ip);
      }
    }
  }

  lemma LoginKeepsConfirmations(s: State, t: State, id: LoginId, record: LoginRecord)
    requires RowsInv(s) && LogInv(s) && RowsInv(t) && LoggedInTo(s, t, id, record.via !in PHISHABLE_METHODS, record)
    ensures forall k :: 0 <= k < |t.log| && t.log[k].via !in PHISHABLE_METHODS ==> DeviceConfirmed(t, t.log[k].user, t.log[k].ip)
  {
    var last := |s.log|;
    forall k | 0 <= k < |t.log| && t.log[k].via !in PHISHABLE_METHODS
      ensures DeviceConfirmed(t, t.log[k].user, t.log[k].ip)
    {
      if k < last {
        assert t.log[k] == s.log[k];
        StaysConfirmed(s, t, s.log[k].user, s.log[k].ip);
      } else {
        FindLoginFinds(t, id);
      }
    }
  }

  lemma LoginConfirmsOnce(s: State, t: State, record: LoginRecord)
    requires LogInv(s) && t.log == s.log + [record]
    requires record.via.EmailConfirmation? ==> !DeviceConfirmed(s, record.user, record.ip)
    ensures forall j, k :: 0 <= j < k < |t.log| && t.log[j].via.EmailConfirmation? && t.log[k].via.EmailConfirmation? ==>
      !SamePair(t.log[j], t.log[k].user, t.log[k].ip)
  {
    forall j, k | 0 <= j < k < |t.log| && t.log[j].via.EmailConfirmation? && t.log[k].via.EmailConfirmation?
      ensures !SamePair(t.log[j], t.log[k].user, t.log[k].ip)
    {
      assert t.log[j] == s.log[j] && DeviceConfirmed(s, s.log[j].user, s.log[j].ip);
      assert k < |s.log| ==> t.log[k] == s.log[k];
    }
  }

  lemma LoginKeepsInv(s: State, user: UserId, ip: IpId, via: Method, newId: LoginId)
    requires Inv(s) && MayLogIn(s, user, ip, via) && newId !in s.logins
    ensures Inv(LoginUser(s, user, ip, via, newId))
  {
    var t := LoginUser(s, user, ip, via, newId);
    var record := LoginRecord(user, ip, via, s.now);
    var id := LoginShape(s, user, ip, via, newId);
    LoginKeepsRows(s, t, id, via !in PHISHABLE_METHODS, record);
    LoginKeepsVouching(s, t, id, record);
    LoginKeepsConfirmations(s, t, id, record);
    LoginConfirmsOnce(s, t, record);
  }

  lemma DeviceKeepsInv(s: State, user: UserId, ip: IpId, remember: bool, newId: LoginId)
    requires Inv(s) && user in s.users && newId !in s.logins
    ensures Inv(DeviceIsKnown(s, user, ip, remember, newId).0)
  {
    DeviceKeepsRows(s, user, ip, remember, newId);
    DeviceKeepsTokens(s, user, ip, remember, newId);
    DeviceKeepsMail(s, user, ip, remember, newId);
    DeviceKeepsLog(s, user, ip, remember, newId);
  }

  /** Account changes that leave logins, tokens, mail and log alone. */
  lemma AccountChangeKeepsInv(s: State, t: State)
    requires Inv(s)
    requires t == s.(now := t.now, users := t.users, delivered := t.delivered)
    requires s.now <= t.now && s.users.Keys <= t.users.Keys
    requires forall u :: u in t.users ==> t.users[u].lastLogin <= t.now
    ensures Inv(t)
  {
    forall k | 0 <= k < |t.log| && t.log[k].via !in PHISHABLE_METHODS
      ensures DeviceConfirmed(t, t.log[k].user, t.log[k].ip)
    {
      assert DeviceConfirmed(s, s.log[k].user, s.log[k].ip);
    }
  }

  lemma ConfirmKeepsInv(s: State, token: ConfirmToken, ip: IpId, newId: LoginId)
    requires Inv(s) && newId !in s.logins
    ensures Inv(ConfirmLogin(s, token, ip, newId).0)
  {
    if ConfirmLogin(s, token, ip, newId).1.LoggedIn? {
      ConfirmIsALogin(s, token, ip, newId);
      LoginKeepsInv(s, token.user, ip, EmailConfirmation, newId);
    }
  }

  /** Confirming logs in the owner of the login named by the token: the row `_login_user` finds is that very login. */
  lemma ConfirmIsALogin(s: State, token: ConfirmToken, ip: IpId, newId: LoginId)
    requires Inv(s) && newId !in s.logins && ConfirmLogin(s, token, ip, newId).1.LoggedIn?
    ensures s.logins[token.login].user == token.user
    ensures FindLogin(s.logins, token.user, ip) == Some(token.login) && !DeviceConfirmed(s, token.user, ip)
    ensures ConfirmLogin(s, token, ip, newId).0 == LoginUser(s, token.user, ip, EmailConfirmation, newId)
  {
    FindLoginFinds(s, token.login);
    var s1 := s.(logins := s.logins[token.login := s.logins[token.login].(status := CONFIRMED)]);
    assert RowsInv(s1);
    FindLoginFinds(s1, token.login);
    assert s1.logins[token.login := s1.logins[token.login].(status := CONFIRMED)]
        == s.logins[token.login := s.logins[token.login].(status := CONFIRMED)];
  }

  lemma TotpKeepsInv(s: State, token: TwoFactorToken, ip: IpId, value: string, verifies: bool, remember: bool, newId: LoginId)
    requires Inv(s) && newId !in s.logins
    ensures Inv(TotpLogin(s, token, ip, value, verifies, remember, newId).0)
  {
    var (t, outcome) := TotpLogin(s, token, ip, value, verifies, remember, newId);
    if outcome.LoggedIn? {
      var s2 := LoginUser(s, token.user, ip, Totp, newId);
      LoginKeepsInv(s, token.user, ip, Totp, newId);
      AccountChangeKeepsInv(s2, t);
    } else if outcome.ConfirmationRequired? {
      DeviceKeepsInv(s, token.user, ip, remember, newId);
    }
  }

  lemma RecoveryKeepsInv(s: State, token: TwoFactorToken, ip: IpId, code: Plaintext, hashable: bool, newId: LoginId)
    requires Inv(s) && newId !in s.logins
    ensures Inv(RecoveryLogin(s, token, ip, code, hashable, newId).0)
  {
    var (t, outcome) := RecoveryLogin(s, token, ip, code, hashable, newId);
    if !outcome.Rejected? {
      var s1 := BurnedState(s, token.user, code, hashable);
      AccountChangeKeepsInv(s, s1);
      if outcome.LoggedIn? {
        LoginKeepsInv(s1, token.user, ip, RecoveryCode, newId);
      } else {
        DeviceKeepsInv(s1, token.user, ip, false, newId);
      }
    }
  }

  lemma RegistrationKeepsInv(s: State, user: UserId, primaryEmail: Option<Email>, ip: IpId, newId: LoginId)
    requires Inv(s) && user !in s.users && newId !in s.logins
    ensures Inv(RegisterUser(s, user, primaryEmail, ip, newId).0)
  {
    var s1 := s.(users := s.users[user := User(s.now, primaryEmail, false, false, None, [])]);
    AccountChangeKeepsInv(s, s1);
    LoginKeepsInv(s1, user, ip, Registration, newId);
  }

  lemma HandleKeepsInv(s: State, r: Request)
    requires Inv(s) && Enabled(s, r) && s.now == r.now
    ensures Inv(Handle(s, r).0)
  {
    hide RowsInv, MailInv, LogInv;
    match r.event
    case Register(user, email, ip) => RegistrationKeepsInv(s, user, email, ip, r.newId);
    case SubmitPassword(user, ip, remembered) =>
      if Handle(s, r).1.LoggedIn? {
        LoginKeepsInv(s, user, ip, if remembered then RememberedDevice else Password, r.newId);
      } else {
        StampMonotone(s.now, s.now);
        IssuingKeepsInv(s, TwoFactorToken(user, Stamp(s.now)));
      }
    case SubmitTotp(token, ip, value, verifies, remember) =>
      TotpKeepsInv(s, token, ip, value, verifies, remember, r.newId);
    case SubmitWebAuthn(token, ip, verifies) =>
      if Handle(s, r).1.LoggedIn? {
        LoginKeepsInv(s, token.user, ip, WebAuthn, r.newId);
      }
    case SubmitRecoveryCode(token, ip, code, hashable) =>
      RecoveryKeepsInv(s, token, ip, code, hashable, r.newId);
    case FollowLink(token, ip) =>
      ConfirmKeepsInv(s, token, ip, r.newId);
    case _ =>
      AccountChangeKeepsInv(s, Handle(s, r).0);
  }

  /** One request, clock and all. */
  lemma StepKeepsInv(s: State, r: Request)
    requires Inv(s) && Enabled(s, r)
    ensures Inv(s.(now := r.now)) && Enabled(s.(now := r.now), r) && Inv(Step(s, r))
  {
    AccountChangeKeepsInv(s, s.(now := r.now));
    HandleKeepsInv(s.(now := r.now), r);
  }

  lemma IssuingKeepsInv(s: State, token: TwoFactorToken)
    requires Inv(s) && token.user in s.users && token.stamp <= s.now
    ensures Inv(s.(twoFactorTokens := s.twoFactorTokens + {token}))
  {
    var t := s.(twoFactorTokens := s.twoFactorTokens + {token});
    forall k | 0 <= k < |t.log| && t.log[k].via !in PHISHABLE_METHODS
      ensures DeviceConfirmed(t, t.log[k].user, t.log[k].ip)
    {
      assert DeviceConfirmed(s, s.log[k].user, s.log[k].ip);
    }
  }

  lemma {:induction false} RunKeepsInv(s: State, run: seq<Request>)
    requires Inv(s) && ValidRun(s, run)
    ensures Inv(Run(s, run))
    decreases |run|
  {
    if run == [] {
    } else {
      AccountChangeKeepsInv(s, s.(now := run[0].now));
      HandleKeepsInv(s.(now := run[0].now), run[0]);
      RunKeepsInv(Step(s, run[0]), run[1..]);
    }
  }

  lemma InitialInv()
    ensures Inv(INITIAL)
  {
  }

  lemma Reached(run: seq<Request>)
    requires ValidRun(INITIAL, run)
    ensures Inv(Run(INITIAL, run))
  {
    InitialInv();
    RunKeepsInv(INITIAL, run);
  }

  // ---------- What one request does ----------

  lemma LoginEffect(s: State, user: UserId, ip: IpId, via: Method, newId: LoginId)
    requires user in s.users
    ensures var t := LoginUser(s, user, ip, via, newId);
      && t == s.(users := t.users, logins := t.logins, log := s.log + [LoginRecord(user, ip, via, s.now)])
      && t.users == s.users[user := s.users[user].(lastLogin := s.now)]
    ensures newId !in s.logins ==> KeepsConfirmed(s, LoginUser(s, user, ip, via, newId))
  {
  }

  lemma AttemptEffect(s: State, user: UserId, ip: IpId, remember: bool, newId: LoginId)
    requires user in s.users
    ensures var t := DeviceIsKnown(s, user, ip, remember, newId).0; t.users == s.users && t.now == s.now && t.log == s.log
    ensures newId !in s.logins ==> KeepsConfirmed(s, DeviceIsKnown(s, user, ip, remember, newId).0)
  {
  }

  /** A confirmed login stays confirmed and stays the login of the same user and address. */
  ghost predicate KeepsConfirmed(s: State, t: State) {
    forall id :: id in s.logins && s.logins[id].status.CONFIRMED? ==>
      id in t.logins && t.logins[id].status.CONFIRMED? && SameDevice(t.logins[id], s.logins[id].user, s.logins[id].ip)
  }

  ghost function Confirmed(s: State, token: ConfirmToken): State
    requires token.login in s.logins
  {
    s.(logins := s.logins[token.login := s.logins[token.login].(status := CONFIRMED)])
  }

  /**
   * The log gains exactly one record per request that answers "logged in", and it names that request;
   * such a request moves the user's last login to now; no request takes a confirmation back.
   */
  lemma HandleEffect(s: State, r: Request)
    requires TokensInv(s) && Enabled(s, r) && s.now == r.now
    ensures Effect(s, r, Handle(s, r).0, Handle(s, r).1)
  {
    match r.event
    case Register(user, email, ip) =>
      var s1 := s.(users := s.users[user := User(s.now, email, false, false, None, [])]);
      LoginEffect(s1, user, ip, Registration, r.newId);
      assert Handle(s, r).0.log == s.log + [LoginRecord(user, ip, Registration, s.now)];
    case SubmitPassword(user, ip, remembered) =>
      if Handle(s, r).1.LoggedIn? {
        LoginHasEffect(s, s, Handle(s, r).0, r, user, ip, if remembered then RememberedDevice else Password);
      }
    case SubmitTotp(token, ip, value, verifies, remember) => TotpEffect(s, r);
    case SubmitWebAuthn(token, ip, verifies) =>
      if Handle(s, r).1.LoggedIn? {
        LoginHasEffect(s, s, Handle(s, r).0, r, token.user, ip, WebAuthn);
      }
    case SubmitRecoveryCode(token, ip, code, hashable) => RecoveryEffect(s, r);
    case FollowLink(token, ip) =>
      if Handle(s, r).1.LoggedIn? {
        LoginHasEffect(s, Confirmed(s, token), Handle(s, r).0, r, token.user, ip, EmailConfirmation);
      }
    case _ =>
  }

  ghost predicate Effect(s: State, r: Request, t: State, outcome: Outcome) {
    && KeepsConfirmed(s, t)
    && LoginIsRecorded(s, r, t, outcome)
    && (forall u :: u in t.users <==> u in s.users || outcome == LoggedIn(u))
    && (forall u :: u in s.users && outcome != LoggedIn(u) ==> t.users[u].lastLogin == s.users[u].lastLogin)
    && (forall u :: u in s.users ==> s.users[u].lastLogin <= t.users[u].lastLogin)
  }

  /** A login made from `s1`, where `s1` differs from `s` at most in confirmations and in account details. */
  lemma LoginHasEffect(s: State, s1: State, t: State, r: Request, user: UserId, ip: IpId, via: Method)
    requires TokensInv(s) && Enabled(s, r) && s.now == r.now && user in s.users && KeepsConfirmed(s, s1)
    requires s1.now == s.now && s1.log == s.log && s1.users.Keys == s.users.Keys && s1.logins.Keys == s.logins.Keys
    requires forall u :: u in s.users ==> s1.users[u].lastLogin == s.users[u].lastLogin
    requires RecordOf(LoginRecord(user, ip, via, s.now), r, user)
    requires var login := LoginUser(s1, user, ip, via, r.newId);
      t.logins == login.logins && t.log == login.log && t.users.Keys == login.users.Keys &&
      forall u :: u in t.users ==> t.users[u].lastLogin == login.users[u].lastLogin
    ensures Effect(s, r, t, LoggedIn(user))
  {
    LoginEffect(s1, user, ip, via, r.newId);
    assert t.log == s.log + [LoginRecord(user, ip, via, s.now)];
  }

  lemma TotpEffect(s: State, r: Request)
    requires TokensInv(s) && Enabled(s, r) && s.now == r.now && r.event.SubmitTotp?
    ensures Effect(s, r, Handle(s, r).0, Handle(s, r).1)
  {
    var user, ip := r.event.twoFactor.user, r.event.ip;
    if Handle(s, r).1.LoggedIn? {
      LoginHasEffect(s, s, Handle(s, r).0, r, user, ip, Totp);
    } else if Handle(s, r).1.ConfirmationRequired? {
      AttemptEffect(s, user, ip, r.event.remember, r.newId);
    }
  }

  lemma RecoveryEffect(s: State, r: Request)
    requires TokensInv(s) && Enabled(s, r) && s.now == r.now && r.event.SubmitRecoveryCode?
    ensures Effect(s, r, Handle(s, r).0, Handle(s, r).1)
  {
    var user, ip := r.event.twoFactor.user, r.event.ip;
    if !Handle(s, r).1.Rejected? {
      var s1 := BurnedState(s, user, r.event.code, r.event.hashable);
      if Handle(s, r).1.LoggedIn? {
        LoginHasEffect(s, s1, Handle(s, r).0, r, user, ip, RecoveryCode);
      } else {
        AttemptEffect(s1, user, ip, false, r.newId);
      }
    }
  }

  ghost predicate LoginIsRecorded(s: State, r: Request, t: State, outcome: Outcome) {
    if outcome.LoggedIn? then
      && outcome.user in t.users && t.users[outcome.user].lastLogin == r.now
      && exists record: LoginRecord :: t.log == s.log + [record] && RecordOf(record, r, outcome.user)
    else t.log == s.log
  }

  predicate RecordOf(record: LoginRecord, r: Request, user: UserId) {
    && record.user == user && record.at == r.now
    && match r.event
       case Register(_, _, ip) => record.ip == ip && record.via.Registration?
       case SubmitPassword(_, ip, remembered) => record.ip == ip && record.via == if remembered then RememberedDevice else Password
       case SubmitTotp(_, ip, _, _, _) => record.ip == ip && record.via.Totp?
       case SubmitWebAuthn(_, ip, _) => record.ip == ip && record.via.WebAuthn?
       case SubmitRecoveryCode(_, ip, _, _) => record.ip == ip && record.via.RecoveryCode?
       case FollowLink(_, ip) => record.ip == ip && record.via.EmailConfirmation?
       case _ => false
  }

  // ---------- Devices and confirmations ----------

  /**
   * A device is known exactly when the log holds a login of its user from its address by a method that
   * cannot be phished: this is what decides whether TOTP and recovery-code logins need a confirmation.
   */
  lemma KnownDevicesAreLogged(run: seq<Request>, user: UserId, ip: IpId)
    requires ValidRun(INITIAL, run)
    ensures var s := Run(INITIAL, run);
      (exists id :: id in s.logins && SameDevice(s.logins[id], user, ip) && s.logins[id].status == CONFIRMED) <==>
      exists k :: 0 <= k < |s.log| && SamePair(s.log[k], user, ip) && s.log[k].via !in {Totp, RecoveryCode}
  {
    Reached(run);
    var s := Run(INITIAL, run);
    if k :| 0 <= k < |s.log| && SamePair(s.log[k], user, ip) && s.log[k].via !in {Totp, RecoveryCode} {
      assert DeviceConfirmed(s, s.log[k].user, s.log[k].ip);
    }
    if id :| id in s.logins && SameDevice(s.logins[id], user, ip) && s.logins[id].status == CONFIRMED {
      assert Vouched(s.log, |s.log|, s.logins[id].user, s.logins[id].ip);
    }
  }

  /** Every totp or recovery-code login follows a login of the same user and address by another method. */
  lemma PhishableLoginsAreVouchedFor(run: seq<Request>, k: nat)
    requires ValidRun(INITIAL, run)
    requires k < |Run(INITIAL, run).log| && Run(INITIAL, run).log[k].via in PHISHABLE_METHODS
    ensures var log := Run(INITIAL, run).log;
      exists j :: 0 <= j < k && log[j].user == log[k].user && log[j].ip == log[k].ip && log[j].via !in PHISHABLE_METHODS
  {
    Reached(run);
    var log := Run(INITIAL, run).log;
    var j :| 0 <= j < k && SamePair(log[j], log[k].user, log[k].ip) && log[j].via !in PHISHABLE_METHODS;
  }

  /** In every reachable state a user has at most one login row per address, and confirmed it at most once. */
  lemma OneLoginPerDevice(run: seq<Request>, user: UserId, ip: IpId)
    requires ValidRun(INITIAL, run)
    ensures var s := Run(INITIAL, run);
      && (forall i, j :: i in s.logins && j in s.logins && SameDevice(s.logins[i], user, ip) && SameDevice(s.logins[j], user, ip) ==> i == j)
      && (forall j, k :: 0 <= j < |s.log| && 0 <= k < |s.log| && Confirms(s.log[j], user, ip) && Confirms(s.log[k], user, ip) ==> j == k)
  {
    Reached(run);
    var s := Run(INITIAL, run);
    forall j, k | 0 <= j < |s.log| && 0 <= k < |s.log| && Confirms(s.log[j], user, ip) && Confirms(s.log[k], user, ip)
      ensures j == k
    {
      assert j < k ==> !SamePair(s.log[j], s.log[k].user, s.log[k].ip);
      assert k < j ==> !SamePair(s.log[k], s.log[j].user, s.log[j].ip);
    }
  }

  predicate SameDevice(row: UniqueLogin, user: UserId, ip: IpId) {
    row.user == user && row.ip == ip
  }

  predicate Confirms(record: LoginRecord, user: UserId, ip: IpId) {
    record.via.EmailConfirmation? && record.user == user && record.ip == ip
  }

  lemma {:induction false} ConfirmedStaysConfirmed(s: State, run: seq<Request>, id: LoginId)
    requires Inv(s) && ValidRun(s, run)
    requires id in s.logins && s.logins[id].status.CONFIRMED?
    ensures var t := Run(s, run);
      id in t.logins && t.logins[id].status.CONFIRMED? && SameDevice(t.logins[id], s.logins[id].user, s.logins[id].ip)
    decreases |run|
  {
    if run == [] {
    } else {
      hide RowsInv, MailInv, LogInv, Handle;
      StepKeepsInv(s, run[0]);
      HandleEffect(s.(now := run[0].now), run[0]);
      ConfirmedStaysConfirmed(Step(s, run[0]), run[1..], id);
    }
  }

  /** Once a login was confirmed by mail, no link to it, whenever issued, is ever accepted again. */
  lemma LinkWorksOnce(before: seq<Request>, r: Request, after: seq<Request>, token: ConfirmToken, ip: IpId, newId: LoginId)
    requires ValidRun(INITIAL, before) && Enabled(Run(INITIAL, before), r) && r.event.FollowLink?
    requires Handle(Run(INITIAL, before).(now := r.now), r).1.LoggedIn?
    requires ValidRun(Step(Run(INITIAL, before), r), after)
    requires token.login == r.event.token.login
    ensures ConfirmLogin(Run(Step(Run(INITIAL, before), r), after), token, ip, newId).1.Rejected?
  {
    Reached(before);
    var s := Run(INITIAL, before).(now := r.now);
    AccountChangeKeepsInv(Run(INITIAL, before), s);
    HandleKeepsInv(s, r);
    ConfirmIsALogin(s, r.event.token, r.event.ip, r.newId);
    ConfirmedStaysConfirmed(Step(Run(INITIAL, before), r), after, token.login);
  }

  // ---------- Two-factor tokens ----------

  lemma {:induction false} LastLoginNeverDecreases(s: State, run: seq<Request>, user: UserId)
    requires Inv(s) && ValidRun(s, run) && user in s.users
    ensures user in Run(s, run).users && s.users[user].lastLogin <= Run(s, run).users[user].lastLogin
    decreases |run|
  {
    if run == [] {
    } else {
      var s1 := s.(now := run[0].now);
      AccountChangeKeepsInv(s, s1);
      HandleKeepsInv(s1, run[0]);
      HandleEffect(s1, run[0]);
      LastLoginNeverDecreases(Step(s, run[0]), run[1..], user);
    }
  }

  /**
   * With the clock advancing, any login of a user kills every two-factor token issued to that user
   * before, on all three second-factor paths and for good.
   */
  lemma LoginKillsEarlierTokens(before: seq<Request>, r: Request, after: seq<Request>, token: TwoFactorToken, later: Time)
    requires ValidRun(INITIAL, before) && Enabled(Run(INITIAL, before), r)
    requires token in Run(INITIAL, before).twoFactorTokens && Run(INITIAL, before).now < r.now
    requires Handle(Run(INITIAL, before).(now := r.now), r).1 == LoggedIn(token.user)
    requires ValidRun(Step(Run(INITIAL, before), r), after)
    ensures !TwoFactorTokenAccepted(Run(Step(Run(INITIAL, before), r), after).(now := later), token)
  {
    Reached(before);
    var s := Run(INITIAL, before).(now := r.now);
    AccountChangeKeepsInv(Run(INITIAL, before), s);
    HandleKeepsInv(s, r);
    HandleEffect(s, r);
    LastLoginNeverDecreases(Step(Run(INITIAL, before), r), after, token.user);
  }

  /** A request made with this two-factor token, on whichever path. */
  predicate Carries(r: Request, token: TwoFactorToken) {
    (r.event.SubmitTotp? || r.event.SubmitWebAuthn? || r.event.SubmitRecoveryCode?) && r.event.twoFactor == token
  }

  /** A two-factor token logs in at most once: after the first time, no request that carries it does. */
  lemma TokenLogsInOnce(before: seq<Request>, first: Request, between: seq<Request>, second: Request, token: TwoFactorToken)
    requires ValidRun(INITIAL, before) && Enabled(Run(INITIAL, before), first) && Run(INITIAL, before).now < first.now
    requires Carries(first, token) && Handle(Run(INITIAL, before).(now := first.now), first).1.LoggedIn?
    requires ValidRun(Step(Run(INITIAL, before), first), between)
    requires Enabled(Run(Step(Run(INITIAL, before), first), between), second) && Carries(second, token)
    ensures Handle(Run(Step(Run(INITIAL, before), first), between).(now := second.now), second).1.Rejected?
  {
    LoginKillsEarlierTokens(before, first, between, token, second.now);
  }

  /** The clock must advance: a token outlives the login it made exactly when that login falls on its own stamp. */
  lemma TokenSurvivesItsLoginIff(s: State, r: Request, token: TwoFactorToken)
    requires Inv(s) && Enabled(s, r) && s.now == r.now
    requires Carries(r, token) && Handle(s, r).1.LoggedIn?
    ensures TwoFactorTokenAccepted(Handle(s, r).0, token) <==> token.stamp == s.now
  {
    HandleEffect(s, r);
  }
}
