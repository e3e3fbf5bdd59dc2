/**
 * Whether somebody told to confirm a device has the means to: a link that works, mailed to the
 * account's present address.
 */
module LoginLinks {
  import opened Common
  import opened RecoveryCodes
  import opened LoginProtocol
  import opened LoginTheorems

  function AddressOf(email: Option<Email>): Option<Address> {
    if email.Some? then Some(email.value.address) else None
  }

  ghost function AddressIn(s: State, user: UserId): Option<Address>
    requires user in s.users
  {
    AddressOf(s.users[user].primaryEmail)
  }

  /** Following the link from this address now logs its user in, whatever identifier a new row would get. */
  ghost predicate LinkWorks(s: State, token: ConfirmToken, ip: IpId) {
    forall newId :: ConfirmLogin(s, token, ip, newId).1 == LoggedIn(token.user)
  }

  /** Some link that works from this device was mailed to the user's present primary address. */
  ghost predicate HasUsableLink(s: State, user: UserId, ip: IpId) {
    && user in s.users
    && exists k :: 0 <= k < |s.mails| && s.mails[k].token.user == user && AddressIn(s, user) == Some(s.mails[k].to)
                   && LinkWorks(s, s.mails[k].token, ip)
  }

  // ---------- After one attempt ----------

  /** A mail to this address whose link names login `id` and is still young enough. */
  predicate LiveMail(mail: Mail, id: LoginId, to: Option<Address>, now: Time) {
    mail.token.login == id && to == Some(mail.to) && mail.token.stamp <= Stamp(now) <= mail.token.stamp + 360 * MINUTE
  }

  /** What an unconfirmed attempt appends to the mail queue. */
  ghost function AttemptMail(s: State, user: UserId, ip: IpId, remember: bool, newId: LoginId): seq<Mail>
    requires user in s.users
  {
    var (id, row, opens) := OpenWindow(s, user, ip, newId);
    var email := s.users[user].primaryEmail;
    if SkipMail(s, email, true, if opens then None else Some(REPEAT_WINDOW)).Some? then []
    else [Mail(email.value.address, ConfirmToken(user, id, remember, Stamp(s.now)), s.now)]
  }

  lemma AttemptShape(s: State, user: UserId, ip: IpId, remember: bool, newId: LoginId)
    requires user in s.users && !DeviceConfirmed(s, user, ip)
    ensures var (id, row, opens) := OpenWindow(s, user, ip, newId);
      var t := DeviceIsKnown(s, user, ip, remember, newId).0;
      && t.now == s.now && t.users == s.users && t.logins == s.logins[id := row]
      && t.confirmTokens == s.confirmTokens + {ConfirmToken(user, id, remember, Stamp(s.now))}
      && t.mails == s.mails + AttemptMail(s, user, ip, remember, newId)
  {
  }

  /** A link works exactly when it was issued for the pending login of its user at this address and is young enough. */
  lemma LinkWorksIff(s: State, token: ConfirmToken, ip: IpId, id: LoginId)
    requires RowsInv(s) && TokensInv(s) && token in s.confirmTokens
    requires id in s.logins && s.logins[id].user == token.user && s.logins[id].ip == ip && s.logins[id].status.PENDING?
    ensures LinkWorks(s, token, ip) <==> token.login == id && token.stamp <= Stamp(s.now) <= token.stamp + 360 * MINUTE
  {
    if LinkWorks(s, token, ip) {
      assert ConfirmLogin(s, token, ip, 0).1.LoggedIn?;
    }
  }

  /** A link is accepted exactly when it was issued, is at most six hours old, and its login is pending and of this address. */
  lemma FollowLinkAnswer(s: State, token: ConfirmToken, ip: IpId, newId: LoginId)
    requires Inv(s)
    ensures ConfirmLogin(s, token, ip, newId).1 ==
      if token in s.confirmTokens && token.stamp <= Stamp(s.now) <= token.stamp + 360 * MINUTE
         && token.login in s.logins && s.logins[token.login].status == PENDING && s.logins[token.login].ip == ip
      then LoggedIn(token.user) else Rejected
  {
    hide LoginProtocol.LoginUser;
  }

  /** In terms of the mail queue: a pending device has a usable link exactly when a live mail names its login. */
  lemma UsableLinkIff(s: State, user: UserId, ip: IpId, id: LoginId)
    requires Inv(s) && user in s.users
    requires id in s.logins && s.logins[id].user == user && s.logins[id].ip == ip && s.logins[id].status.PENDING?
    ensures HasUsableLink(s, user, ip) <==> exists k :: 0 <= k < |s.mails| && LiveMail(s.mails[k], id, AddressIn(s, user), s.now)
  {
    forall k | 0 <= k < |s.mails| && s.mails[k].token.user == user
      ensures LinkWorks(s, s.mails[k].token, ip) <==>
        s.mails[k].token.login == id && s.mails[k].token.stamp <= Stamp(s.now) <= s.mails[k].token.stamp + 360 * MINUTE
    {
      LinkWorksIff(s, s.mails[k].token, ip, id);
    }
    if k :| 0 <= k < |s.mails| && LiveMail(s.mails[k], id, AddressIn(s, user), s.now) {
      assert s.mails[k].token in s.confirmTokens && s.mails[k].token.user == user;
      assert LinkWorks(s, s.mails[k].token, ip);
    }
  }

  /** The attempt's own mail is not skipped, or a mail that is still good went to the present address before. */
  ghost predicate WillReach(s: State, user: UserId, ip: IpId, newId: LoginId)
    requires user in s.users
  {
    var (id, row, opens) := OpenWindow(s, user, ip, newId);
    || SkipMail(s, s.users[user].primaryEmail, true, if opens then None else Some(REPEAT_WINDOW)).None?
    || exists k :: 0 <= k < |s.mails| && LiveMail(s.mails[k], id, AddressIn(s, user), s.now)
  }

  /**
   * In every state the invariant allows, an attempt answered "confirm this device" leaves a usable link
   * if and only if `WillReach` held before it: a condition on the tables, the queue and the clock.
   */
  lemma AttemptLeavesLinkIff(s: State, user: UserId, ip: IpId, remember: bool, newId: LoginId)
    requires Inv(s) && user in s.users && newId !in s.logins && !DeviceConfirmed(s, user, ip)
    ensures HasUsableLink(DeviceIsKnown(s, user, ip, remember, newId).0, user, ip) <==> WillReach(s, user, ip, newId)
  {
    hide RowsInv, TokensInv, MailInv, LogInv, HasUsableLink;
    var t := DeviceIsKnown(s, user, ip, remember, newId).0;
    var id := OpenWindow(s, user, ip, newId).0;
    var added := AttemptMail(s, user, ip, remember, newId);
    OpenedRow(s, user, ip, newId);
    AttemptShape(s, user, ip, remember, newId);
    DeviceKeepsInv(s, user, ip, remember, newId);
    UsableLinkIff(t, user, ip, id);
    assert forall k :: 0 <= k < |s.mails| ==> t.mails[k] == s.mails[k];
    assert forall k :: |s.mails| <= k < |t.mails| ==> t.mails[k] == added[0];
    assert added != [] ==> t.mails[|s.mails|] == added[0] && LiveMail(added[0], id, AddressIn(t, user), t.now);
  }

  // ---------- What an attempt does, on the tables ----------

  predicate IsLoginOf(row: UniqueLogin, user: UserId, ip: IpId) {
    row.user == user && row.ip == ip
  }

  /** The device has no row yet, or its window is over. */
  predicate NoOpenWindow(s: State, user: UserId, ip: IpId) {
    forall id :: id in s.logins && IsLoginOf(s.logins[id], user, ip) ==>
      s.logins[id].expires.Some? && s.logins[id].expires.value < s.now
  }

  /** The throttle is off, or was tripped more than fifteen minutes ago. */
  predicate MailIsDue(s: State, user: UserId, ip: IpId, address: Address) {
    NoOpenWindow(s, user, ip) || address !in s.delivered || s.now - s.delivered[address] > 15 * MINUTE
  }

  /** The device's row is pending for the six hours from now, or as before; no other row changes. */
  ghost predicate LeavesRow(s: State, t: State, user: UserId, ip: IpId, id: LoginId) {
    && id in t.logins && t.logins == s.logins[id := t.logins[id]]
    && IsLoginOf(t.logins[id], user, ip) && t.logins[id].status == PENDING
    && (if NoOpenWindow(s, user, ip) then t.logins[id].expires == Some(s.now + 360 * MINUTE)
        else id in s.logins && t.logins[id] == s.logins[id])
  }

  /** A mail to this address with a link for row `id`, stamped with the whole second it is queued in. */
  predicate IsAttemptMail(mail: Mail, address: Address, user: UserId, id: LoginId, remember: bool, now: Time) {
    && mail.to == address && mail.at == now
    && mail.token.user == user && mail.token.login == id && mail.token.remember == remember
    && mail.token.stamp % SECOND == 0 && mail.token.stamp <= now < mail.token.stamp + SECOND
  }

  /**
   * An attempt from an unconfirmed device leaves its row pending and mails exactly one link to the
   * primary address if a mail is due; if not, or without an address, it mails nothing. It changes
   * nothing else but the set of signed tokens, and logs nobody in.
   */
  lemma AttemptMailsIffDue(s: State, user: UserId, ip: IpId, remember: bool, newId: LoginId)
    requires Inv(s) && user in s.users && newId !in s.logins
    requires forall id :: id in s.logins && IsLoginOf(s.logins[id], user, ip) ==> s.logins[id].status == PENDING
    ensures var (t, known) := DeviceIsKnown(s, user, ip, remember, newId);
      && !known && t == s.(logins := t.logins, confirmTokens := t.confirmTokens, mails := t.mails)
      && exists id ::
           && LeavesRow(s, t, user, ip, id)
           && if s.users[user].primaryEmail.Some? && MailIsDue(s, user, ip, s.users[user].primaryEmail.value.address)
              then |t.mails| == |s.mails| + 1 && t.mails[..|s.mails|] == s.mails
                   && IsAttemptMail(t.mails[|s.mails|], s.users[user].primaryEmail.value.address, user, id, remember, s.now)
              else t.mails == s.mails
  {
    var t := DeviceIsKnown(s, user, ip, remember, newId).0;
    var (id, row, opens) := OpenWindow(s, user, ip, newId);
    OpenedRow(s, user, ip, newId);
    AttemptShape(s, user, ip, remember, newId);
    OpensIffNoOpenWindow(s, user, ip, newId);
    assert LeavesRow(s, t, user, ip, id);
    StampIsWholeSecond(s.now);
  }

  lemma OpensIffNoOpenWindow(s: State, user: UserId, ip: IpId, newId: LoginId)
    requires RowsInv(s)
    ensures OpenWindow(s, user, ip, newId).2 <==> NoOpenWindow(s, user, ip)
  {
    var found := FindLogin(s.logins, user, ip);
    if found.Some? {
      assert forall id :: id in s.logins && IsLoginOf(s.logins[id], user, ip) ==> id == found.value;
    }
  }

  lemma StampIsWholeSecond(t: Time)
    ensures Stamp(t) % SECOND == 0 && Stamp(t) <= t < Stamp(t) + SECOND
  {
    assert Stamp(t) == (t / SECOND) * SECOND;
  }

  // ---------- Over whole runs ----------

  /** A mail about login `id`, to this address, queued at or after `since`. */
  ghost predicate MailedTo(s: State, id: LoginId, to: Option<Address>, since: Time) {
    exists k :: 0 <= k < |s.mails| && s.mails[k].token.login == id && to == Some(s.mails[k].to) && since <= s.mails[k].at
  }

  /** Row `id` is the pair's unconfirmed login and its window is open. */
  predicate IsOpen(s: State, id: LoginId, user: UserId, ip: IpId) {
    && id in s.logins && s.logins[id].user == user && s.logins[id].ip == ip && s.logins[id].status.PENDING?
    && s.logins[id].expires.Some? && !WindowLapsed(s.logins[id], s.now)
  }

  ghost predicate WindowOpen(s: State, user: UserId, ip: IpId) {
    exists id :: IsOpen(s, id, user, ip)
  }

  /** The pair's open window, if any, was mailed to the user's present address, if any. */
  ghost predicate MailReached(s: State, user: UserId, ip: IpId) {
    user in s.users && AddressIn(s, user).Some? ==>
      forall id :: IsOpen(s, id, user, ip) ==> MailedTo(s, id, AddressIn(s, user), s.logins[id].expires.value - WINDOW)
  }

  /** The request does not change the address of `user` while the window of the pair is open. */
  ghost predicate KeepsAddress(s: State, r: Request, user: UserId, ip: IpId)
    requires Enabled(s, r)
  {
    r.event.ChangeEmail? && r.event.user == user && WindowOpen(s.(now := r.now), user, ip) ==>
      AddressOf(r.event.primaryEmail) == AddressIn(s, user)
  }

  ghost predicate AddressKept(s: State, run: seq<Request>, user: UserId, ip: IpId)
    requires ValidRun(s, run)
    decreases |run|
  {
    run != [] ==> KeepsAddress(s, run[0], user, ip) && AddressKept(Step(s, run[0]), run[1..], user, ip)
  }

  lemma MailedToStays(s: State, t: State, id: LoginId, to: Option<Address>, since: Time)
    requires s.mails <= t.mails && MailedTo(s, id, to, since)
    ensures MailedTo(t, id, to, since)
  {
    var k :| 0 <= k < |s.mails| && s.mails[k].token.login == id && to == Some(s.mails[k].to) && since <= s.mails[k].at;
    assert t.mails[k] == s.mails[k];
  }

  /** A step that keeps the user's address and opens no window of the pair. */
  lemma StaysReached(s: State, t: State, user: UserId, ip: IpId)
    requires MailReached(s, user, ip) && s.mails <= t.mails
    requires user in t.users && AddressIn(t, user).Some? && WindowOpen(t, user, ip) ==>
      user in s.users && AddressIn(t, user) == AddressIn(s, user)
    requires forall id :: IsOpen(t, id, user, ip) ==> IsOpen(s, id, user, ip) && t.logins[id].expires == s.logins[id].expires
    ensures MailReached(t, user, ip)
  {
    if user in t.users && AddressIn(t, user).Some? {
      forall id | IsOpen(t, id, user, ip)
        ensures MailedTo(t, id, AddressIn(t, user), t.logins[id].expires.value - WINDOW)
      {
        MailedToStays(s, t, id, AddressIn(s, user), s.logins[id].expires.value - WINDOW);
      }
    }
  }

  lemma AttemptKeepsReached(s: State, attempted: UserId, from: IpId, remember: bool, newId: LoginId, user: UserId, ip: IpId)
    requires Inv(s) && MailReached(s, user, ip) && attempted in s.users && newId !in s.logins
    ensures MailReached(DeviceIsKnown(s, attempted, from, remember, newId).0, user, ip)
  {
    var t := DeviceIsKnown(s, attempted, from, remember, newId).0;
    if !DeviceConfirmed(s, attempted, from) {
      var (id, row, opens) := OpenWindow(s, attempted, from, newId);
      OpenedRow(s, attempted, from, newId);
      AttemptShape(s, attempted, from, remember, newId);
      if opens && attempted == user && from == ip {
        OpeningReaches(s, t, user, ip, remember, newId);
      } else {
        StaysReached(s, t, user, ip);
      }
    }
  }

  /** Opening a window mails the user's address, if any: the throttle is off. */
  lemma OpeningReaches(s: State, t: State, user: UserId, ip: IpId, remember: bool, newId: LoginId)
    requires Inv(s) && user in s.users && newId !in s.logins && !DeviceConfirmed(s, user, ip)
    requires t == DeviceIsKnown(s, user, ip, remember, newId).0 && OpenWindow(s, user, ip, newId).2
    ensures MailReached(t, user, ip)
  {
    var id := OpenWindow(s, user, ip, newId).0;
    OpenedRow(s, user, ip, newId);
    AttemptShape(s, user, ip, remember, newId);
    DeviceKeepsInv(s, user, ip, remember, newId);
    if AddressIn(t, user).Some? {
      var added := AttemptMail(s, user, ip, remember, newId);
      assert |added| == 1 && t.mails[|s.mails|] == added[0];
      assert MailedTo(t, id, AddressIn(t, user), s.now);
      assert forall other :: IsOpen(t, other, user, ip) ==> other == id;
    }
  }

  lemma LoginKeepsReached(s: State, loggedIn: UserId, from: IpId, via: Method, newId: LoginId, user: UserId, ip: IpId)
    requires RowsInv(s) && MailReached(s, user, ip) && loggedIn in s.users && newId !in s.logins
    ensures MailReached(LoginUser(s, loggedIn, from, via, newId), user, ip)
  {
    var t := LoginUser(s, loggedIn, from, via, newId);
    LoginEffect(s, loggedIn, from, via, newId);
    StaysReached(s, t, user, ip);
  }

  lemma TotpKeepsReached(s: State, token: TwoFactorToken, from: IpId, value: string, verifies: bool, remember: bool, newId: LoginId,
                         user: UserId, ip: IpId)
    requires Inv(s) && MailReached(s, user, ip) && newId !in s.logins
    ensures MailReached(TotpLogin(s, token, from, value, verifies, remember, newId).0, user, ip)
  {
    var (t, outcome) := TotpLogin(s, token, from, value, verifies, remember, newId);
    if outcome.LoggedIn? {
      LoginKeepsReached(s, token.user, from, Totp, newId, user, ip);
      StaysReached(LoginUser(s, token.user, from, Totp, newId), t, user, ip);
    } else if outcome.ConfirmationRequired? {
      AttemptKeepsReached(s, token.user, from, remember, newId, user, ip);
    }
  }

  lemma RecoveryKeepsReached(s: State, token: TwoFactorToken, from: IpId, code: Plaintext, hashable: bool, newId: LoginId,
                             user: UserId, ip: IpId)
    requires Inv(s) && MailReached(s, user, ip) && newId !in s.logins
    ensures MailReached(RecoveryLogin(s, token, from, code, hashable, newId).0, user, ip)
  {
    var (t, outcome) := RecoveryLogin(s, token, from, code, hashable, newId);
    if !outcome.Rejected? {
      var s1 := BurnedState(s, token.user, code, hashable);
      AccountChangeKeepsInv(s, s1);
      StaysReached(s, s1, user, ip);
      if outcome.LoggedIn? {
        LoginKeepsReached(s1, token.user, from, RecoveryCode, newId, user, ip);
      } else {
        AttemptKeepsReached(s1, token.user, from, false, newId, user, ip);
      }
    }
  }

  /** Of everything a request may do, only a change of address while the window is open can undo it. */
  lemma HandleKeepsReached(s: State, r: Request, user: UserId, ip: IpId)
    requires Inv(s) && MailReached(s, user, ip) && Enabled(s, r) && s.now == r.now && KeepsAddress(s, r, user, ip)
    ensures MailReached(Handle(s, r).0, user, ip)
  {
    match r.event
    case Register(other, email, from) =>
      var s1 := s.(users := s.users[other := User(s.now, email, false, false, None, [])]);
      NewAccountKeepsReached(s, s1, other, user, ip);
      LoginKeepsReached(s1, other, from, Registration, r.newId, user, ip);
    case SubmitPassword(other, from, remembered) =>
      if Handle(s, r).1.LoggedIn? {
        LoginKeepsReached(s, other, from, if remembered then RememberedDevice else Password, r.newId, user, ip);
      } else {
        StaysReached(s, Handle(s, r).0, user, ip);
      }
    case SubmitTotp(token, from, value, verifies, remember) =>
      TotpKeepsReached(s, token, from, value, verifies, remember, r.newId, user, ip);
    case SubmitWebAuthn(token, from, verifies) =>
      if Handle(s, r).1.LoggedIn? {
        LoginKeepsReached(s, token.user, from, WebAuthn, r.newId, user, ip);
      }
    case SubmitRecoveryCode(token, from, code, hashable) =>
      RecoveryKeepsReached(s, token, from, code, hashable, r.newId, user, ip);
    case FollowLink(token, from) =>
      if Handle(s, r).1.LoggedIn? {
        ConfirmIsALogin(s, token, from, r.newId);
        LoginKeepsReached(s, token.user, from, EmailConfirmation, r.newId, user, ip);
      }
    case _ =>
      AccountChangeKeepsReached(s, r, user, ip);
  }

  lemma NewAccountKeepsReached(s: State, s1: State, added: UserId, user: UserId, ip: IpId)
    requires Inv(s) && MailReached(s, user, ip) && added !in s.users && added in s1.users
    requires s1 == s.(users := s.users[added := s1.users[added]]) && s1.users[added].lastLogin <= s.now
    ensures RowsInv(s1) && MailReached(s1, user, ip)
  {
    AccountChangeKeepsInv(s, s1);
    if id :| IsOpen(s1, id, user, ip) {
      assert s.logins[id].user in s.users;
    }
    StaysReached(s, s1, user, ip);
  }

  lemma AccountChangeKeepsReached(s: State, r: Request, user: UserId, ip: IpId)
    requires Inv(s) && MailReached(s, user, ip) && Enabled(s, r) && s.now == r.now && KeepsAddress(s, r, user, ip)
    requires r.event.Enroll? || r.event.ChangeEmail? || r.event.GenerateCodes? || r.event.Deliver? || r.event.Prune?
    ensures MailReached(Handle(s, r).0, user, ip)
  {
    var t := Handle(s, r).0;
    if id :| IsOpen(t, id, user, ip) {
      assert IsOpen(s, id, user, ip) && s.logins[id].user in s.users;
      assert WindowOpen(s, user, ip) && s == s.(now := r.now);
    }
    StaysReached(s, t, user, ip);
  }

  lemma {:induction false} RunKeepsReached(s: State, run: seq<Request>, user: UserId, ip: IpId)
    requires Inv(s) && MailReached(s, user, ip) && ValidRun(s, run) && AddressKept(s, run, user, ip)
    ensures MailReached(Run(s, run), user, ip)
    decreases |run|
  {
    if run == [] {
    } else {
      var s1 := s.(now := run[0].now);
      AccountChangeKeepsInv(s, s1);
      StaysReached(s, s1, user, ip);
      HandleKeepsInv(s1, run[0]);
      HandleKeepsReached(s1, run[0], user, ip);
      RunKeepsReached(Step(s, run[0]), run[1..], user, ip);
    }
  }

  /** A mail of the window outlasts it, whole-second stamps notwithstanding. */
  lemma WindowMailIsLive(s: State, user: UserId, ip: IpId, id: LoginId)
    requires Inv(s) && user in s.users && IsOpen(s, id, user, ip)
    requires MailedTo(s, id, AddressIn(s, user), s.logins[id].expires.value - WINDOW)
    ensures exists k :: 0 <= k < |s.mails| && LiveMail(s.mails[k], id, AddressIn(s, user), s.now)
  {
    var k :| 0 <= k < |s.mails| && s.mails[k].token.login == id && AddressIn(s, user) == Some(s.mails[k].to)
             && s.logins[id].expires.value - WINDOW <= s.mails[k].at;
    OpenWindowKeepsToken(s.mails[k].at, s.now, CONFIRM_LOGIN_MAX_AGE);
    assert LiveMail(s.mails[k], id, AddressIn(s, user), s.now);
  }

  /** While the window is open, a link mailed in it to the present address works. */
  lemma CurrentWindowLinkWorks(s: State, user: UserId, ip: IpId, id: LoginId)
    requires Inv(s) && user in s.users && IsOpen(s, id, user, ip)
    requires MailedTo(s, id, AddressIn(s, user), s.logins[id].expires.value - WINDOW)
    ensures HasUsableLink(s, user, ip)
  {
    WindowMailIsLive(s, user, ip, id);
    UsableLinkIff(s, user, ip, id);
  }

  lemma ReachedAttemptHasLink(s: State, user: UserId, ip: IpId, newId: LoginId)
    requires Inv(s) && MailReached(s, user, ip) && user in s.users && newId !in s.logins && !DeviceConfirmed(s, user, ip)
    requires AddressIn(s, user).Some?
    ensures WillReach(s, user, ip, newId)
  {
    var (id, row, opens) := OpenWindow(s, user, ip, newId);
    OpenedRow(s, user, ip, newId);
    if !opens {
      assert IsOpen(s, id, user, ip);
      WindowMailIsLive(s, user, ip, id);
    }
  }

  /** One attempt, from a state in which the open window reached the user. */
  lemma AttemptReaches(s: State, user: UserId, ip: IpId, remember: bool, newId: LoginId)
    requires Inv(s) && MailReached(s, user, ip) && user in s.users && newId !in s.logins && !DeviceConfirmed(s, user, ip)
    requires AddressIn(s, user).Some?
    ensures HasUsableLink(DeviceIsKnown(s, user, ip, remember, newId).0, user, ip)
  {
    ReachedAttemptHasLink(s, user, ip, newId);
    AttemptLeavesLinkIff(s, user, ip, remember, newId);
  }

  lemma RequestReaches(s: State, r: Request, user: UserId, ip: IpId)
    requires Inv(s) && MailReached(s, user, ip) && Enabled(s, r) && s.now == r.now && Handle(s, r).1.ConfirmationRequired?
    requires user == r.event.twoFactor.user && ip == r.event.ip && AddressIn(s, user).Some?
    ensures HasUsableLink(Handle(s, r).0, user, ip)
  {
    if r.event.SubmitTotp? {
      AttemptReaches(s, user, ip, r.event.remember, r.newId);
    } else {
      var s1 := BurnedState(s, user, r.event.code, r.event.hashable);
      AccountChangeKeepsInv(s, s1);
      StaysReached(s, s1, user, ip);
      AttemptReaches(s1, user, ip, false, r.newId);
    }
  }

  /**
   * Nobody is stranded: if a user has a primary address, and it was not changed while the window of the
   * device was open, an attempt answered "confirm this device" leaves a link that works from that
   * device, mailed to that address. Other users, other devices and their mail may do as they please.
   */
  lemma NobodyIsStranded(run: seq<Request>, r: Request)
    requires ValidRun(INITIAL, run) && Enabled(Run(INITIAL, run), r)
    requires Handle(Run(INITIAL, run).(now := r.now), r).1.ConfirmationRequired?
    requires AddressKept(INITIAL, run, r.event.twoFactor.user, r.event.ip)
    requires AddressIn(Run(INITIAL, run), r.event.twoFactor.user).Some?
    ensures HasUsableLink(Step(Run(INITIAL, run), r), r.event.twoFactor.user, r.event.ip)
  {
    var user, ip := r.event.twoFactor.user, r.event.ip;
    Reached(run);
    RunKeepsReached(INITIAL, run, user, ip);
    var s0 := Run(INITIAL, run);
    var s := s0.(now := r.now);
    AccountChangeKeepsInv(s0, s);
    StaysReached(s0, s, user, ip);
    RequestReaches(s, r, user, ip);
  }
}
