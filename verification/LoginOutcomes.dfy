/**
 * What each kind of login request is answered, in terms of the requests made before it, their answers
 * and the login records: who gets in, with what, and who is turned away.
 */
module LoginOutcomes {
  import opened Common
  import opened RecoveryCodes
  import Runs = RecoveryCodeRuns
  import opened LoginProtocol
  import opened LoginTheorems

  // ---------- What a run of requests says about one account ----------

  /**
   * What one account enrolled, the value of its latest TOTP login, and of its recovery codes those
   * issued, those of the latest batch, and those that got a request through, with how many of these
   * came after the latest batch.
   */
  datatype Ledger = Ledger(totp: bool, webauthn: bool, lastTotp: Option<string>,
                           issued: set<Plaintext>, batch: set<Plaintext>, spent: seq<Plaintext>, spentOfBatch: nat)

  const BLANK := Ledger(false, false, None, {}, {}, [], 0)

  /** The ledger after a request and its answer. */
  function Noted(l: Ledger, user: UserId, r: Request, answer: Outcome): Ledger {
    match r.event
    case Enroll(u, totp, webauthn) => if u == user then l.(totp := totp, webauthn := webauthn) else l
    case GenerateCodes(u, codes) =>
      if u == user then l.(issued := l.issued + (set c | c in codes), batch := (set c | c in codes), spentOfBatch := 0) else l
    case SubmitTotp(token, _, value, _, _) =>
      if token.user == user && answer.LoggedIn? then l.(lastTotp := Some(value)) else l
    case SubmitRecoveryCode(token, _, code, _) =>
      if token.user == user && !answer.Rejected? then l.(spent := l.spent + [code], spentOfBatch := l.spentOfBatch + 1) else l
    case _ => l
  }

  ghost function Answer(s: State, r: Request): Outcome
    requires Enabled(s, r)
  {
    Handle(s.(now := r.now), r).1
  }

  ghost function Answers(s: State, run: seq<Request>): (answers: seq<Outcome>)
    requires ValidRun(s, run)
    ensures |answers| == |run|
    decreases |run|
  {
    if run == [] then [] else [Answer(s, run[0])] + Answers(Step(s, run[0]), run[1..])
  }

  /** The ledger after the first `n` requests. */
  ghost function LedgerAt(s: State, run: seq<Request>, n: nat, user: UserId, l: Ledger): Ledger
    requires ValidRun(s, run) && n <= |run|
    decreases |run|
  {
    if n == 0 then l else LedgerAt(Step(s, run[0]), run[1..], n - 1, user, Noted(l, user, run[0], Answer(s, run[0])))
  }

  ghost function LedgerOf(run: seq<Request>, user: UserId): Ledger
    requires ValidRun(INITIAL, run)
  {
    LedgerAt(INITIAL, run, |run|, user, BLANK)
  }

  /** The random source yields eight codes that this account was never given before. */
  predicate RandomCodes(run: seq<Request>, user: UserId, issued: set<Plaintext>)
    decreases |run|
  {
    if run == [] then true
    else if run[0].event.GenerateCodes? && run[0].event.user == user then
      var codes := run[0].event.codes;
      && |codes| == 8 && Distinct(codes) && (forall c :: c in codes ==> c !in issued)
      && RandomCodes(run[1..], user, issued + set c | c in codes)
    else RandomCodes(run[1..], user, issued)
  }

  // ---------- What one request does to an account ----------

  /** An account after a request, in terms of the request and its answer alone. */
  predicate AccountFollows(before: User, after: User, user: UserId, r: Request, answer: Outcome) {
    && after.hasTotp == (if r.event.Enroll? && r.event.user == user then r.event.totp else before.hasTotp)
    && after.hasWebauthn == (if r.event.Enroll? && r.event.user == user then r.event.webauthn else before.hasWebauthn)
    && after.lastTotpValue == (if r.event.SubmitTotp? && r.event.twoFactor.user == user && answer.LoggedIn?
                               then Some(r.event.value) else before.lastTotpValue)
    && after.primaryEmail == (if r.event.ChangeEmail? && r.event.user == user then r.event.primaryEmail else before.primaryEmail)
    && after.recoveryCodes == CodesFollow(before.recoveryCodes, user, r, answer)
  }

  function CodesFollow(rows: seq<StoredCode>, user: UserId, r: Request, answer: Outcome): seq<StoredCode> {
    if r.event.GenerateCodes? && r.event.user == user then Generate(rows, r.event.codes)
    else if r.event.SubmitRecoveryCode? && r.event.twoFactor.user == user && !answer.Rejected?
    then Check(rows, r.event.code, r.event.hashable, r.now).0 else rows
  }

  lemma AccountsFollow(s: State, r: Request, user: UserId)
    requires Enabled(s, r) && s.now == r.now && user in s.users
    ensures var (t, answer) := Handle(s, r); user in t.users && AccountFollows(s.users[user], t.users[user], user, r, answer)
  {
    if r.event.SubmitTotp? {
      AccountAfterTotp(s, r, user);
    } else if r.event.SubmitRecoveryCode? {
      AccountAfterRecovery(s, r, user);
    } else {
      AccountAfterOther(s, r, user);
    }
  }

  lemma AccountAfterTotp(s: State, r: Request, user: UserId)
    requires Enabled(s, r) && s.now == r.now && user in s.users && r.event.SubmitTotp?
    ensures var (t, answer) := Handle(s, r); user in t.users && AccountFollows(s.users[user], t.users[user], user, r, answer)
  {
    var token, ip := r.event.twoFactor, r.event.ip;
    if TwoFactorTokenAccepted(s, token) {
      AttemptEffect(s, token.user, ip, r.event.remember, r.newId);
      LoginEffect(s, token.user, ip, Totp, r.newId);
      hide OpenWindow, FindLogin, LoginProtocol.LoginUser, LoginProtocol.DeviceIsKnown, DeviceConfirmed;
      if DeviceIsKnown(s, token.user, ip, r.event.remember, r.newId).1 {
        KnownChangesNothing(s, token.user, ip, r.event.remember, r.newId);
      }
    }
  }

  lemma KnownChangesNothing(s: State, user: UserId, ip: IpId, remember: bool, newId: LoginId)
    requires user in s.users && DeviceIsKnown(s, user, ip, remember, newId).1
    ensures DeviceIsKnown(s, user, ip, remember, newId).0 == s
  {
  }

  lemma AccountAfterRecovery(s: State, r: Request, user: UserId)
    requires Enabled(s, r) && s.now == r.now && user in s.users && r.event.SubmitRecoveryCode?
    ensures var (t, answer) := Handle(s, r); user in t.users && AccountFollows(s.users[user], t.users[user], user, r, answer)
  {
    var token, ip := r.event.twoFactor, r.event.ip;
    if TwoFactorTokenAccepted(s, token) {
      var s1 := BurnedState(s, token.user, r.event.code, r.event.hashable);
      AttemptEffect(s1, token.user, ip, false, r.newId);
      LoginEffect(s1, token.user, ip, RecoveryCode, r.newId);
      hide OpenWindow, FindLogin, LoginProtocol.LoginUser, LoginProtocol.DeviceIsKnown, DeviceConfirmed, Check;
      if DeviceIsKnown(s1, token.user, ip, false, r.newId).1 {
        KnownChangesNothing(s1, token.user, ip, false, r.newId);
      }
    }
  }

  lemma AccountAfterOther(s: State, r: Request, user: UserId)
    requires Enabled(s, r) && s.now == r.now && user in s.users && !r.event.SubmitTotp? && !r.event.SubmitRecoveryCode?
    ensures var (t, answer) := Handle(s, r); user in t.users && AccountFollows(s.users[user], t.users[user], user, r, answer)
  {
    hide LoginProtocol.LoginUser, Check, Generate;
    match r.event
    case Register(other, email, ip) =>
      LoginEffect(s.(users := s.users[other := User(s.now, email, false, false, None, [])]), other, ip, Registration, r.newId);
    case SubmitPassword(other, ip, remembered) =>
      LoginEffect(s, other, ip, if remembered then RememberedDevice else Password, r.newId);
    case SubmitWebAuthn(token, ip, verifies) =>
      if TwoFactorTokenAccepted(s, token) {
        LoginEffect(s, token.user, ip, WebAuthn, r.newId);
      }
    case FollowLink(token, ip) =>
      if Handle(s, r).1.LoggedIn? {
        LoginEffect(Confirmed(s, token), token.user, ip, EmailConfirmation, r.newId);
      }
    case _ =>
  }

  lemma NewAccountIsBlank(s: State, r: Request, user: UserId)
    requires TokensInv(s) && Enabled(s, r) && s.now == r.now && user !in s.users
    ensures var (t, answer) := Handle(s, r);
      && Noted(BLANK, user, r, answer) == BLANK
      && (user in t.users <==> r.event.Register? && r.event.user == user)
      && (user in t.users ==> var a := t.users[user]; a.primaryEmail == r.event.primaryEmail && !a.hasTotp && !a.hasWebauthn && a.lastTotpValue == None && a.recoveryCodes == [])
  {
    HandleEffect(s, r);
  }

  // ---------- The ledger tells the state of the account ----------

  ghost predicate FactorsKept(s: State, l: Ledger, user: UserId) {
    if user in s.users then
      s.users[user].hasTotp == l.totp && s.users[user].hasWebauthn == l.webauthn && s.users[user].lastTotpValue == l.lastTotp
    else l == BLANK
  }

  function CodesOf(s: State, l: Ledger, user: UserId): Runs.State
    requires user in s.users
  {
    Runs.State(s.users[user].recoveryCodes, l.issued, l.batch, l.spent, l.spentOfBatch)
  }

  ghost predicate CodesKept(s: State, l: Ledger, user: UserId) {
    if user in s.users then Runs.Inv(CodesOf(s, l, user)) && Runs.BatchStored(CodesOf(s, l, user)) else l == BLANK
  }

  lemma HandleKeepsFactors(s: State, r: Request, l: Ledger, user: UserId)
    requires TokensInv(s) && Enabled(s, r) && s.now == r.now && FactorsKept(s, l, user)
    ensures FactorsKept(Handle(s, r).0, Noted(l, user, r, Handle(s, r).1), user)
  {
    if user in s.users {
      AccountsFollow(s, r, user);
    } else {
      NewAccountIsBlank(s, r, user);
    }
  }

  lemma HandleKeepsCodes(s: State, r: Request, l: Ledger, user: UserId)
    requires TokensInv(s) && Enabled(s, r) && s.now == r.now && CodesKept(s, l, user) && RandomCodes([r], user, l.issued)
    ensures CodesKept(Handle(s, r).0, Noted(l, user, r, Handle(s, r).1), user)
  {
    if user in s.users {
      AccountsFollow(s, r, user);
      CodesStep(s, r, l, user);
    } else {
      NewAccountIsBlank(s, r, user);
    }
  }

  /** A request through with a recovery code had it accepted. */
  lemma ThroughMeansAccepted(s: State, r: Request)
    requires Enabled(s, r) && s.now == r.now && r.event.SubmitRecoveryCode? && !Handle(s, r).1.Rejected?
    ensures r.event.twoFactor.user in s.users
    ensures Check(s.users[r.event.twoFactor.user].recoveryCodes, r.event.code, r.event.hashable, r.now).1.Accepted?
  {
  }

  lemma CodesStep(s: State, r: Request, l: Ledger, user: UserId)
    requires Enabled(s, r) && s.now == r.now && user in s.users && user in Handle(s, r).0.users
    requires Runs.Inv(CodesOf(s, l, user)) && Runs.BatchStored(CodesOf(s, l, user)) && RandomCodes([r], user, l.issued)
    requires Handle(s, r).0.users[user].recoveryCodes == CodesFollow(s.users[user].recoveryCodes, user, r, Handle(s, r).1)
    ensures var after := CodesOf(Handle(s, r).0, Noted(l, user, r, Handle(s, r).1), user); Runs.Inv(after) && Runs.BatchStored(after)
  {
    hide Handle, Runs.Inv, Runs.BatchStored, Check, Generate;
    var codes := CodesOf(s, l, user);
    if r.event.GenerateCodes? && r.event.user == user {
      assert [r][0] == r;
      EventKeepsCodes(codes, Runs.Generated(r.event.codes));
    } else if r.event.SubmitRecoveryCode? && r.event.twoFactor.user == user && !Handle(s, r).1.Rejected? {
      ThroughMeansAccepted(s, r);
      EventKeepsCodes(codes, Runs.Checked(r.event.code, r.event.hashable, r.now));
    }
  }

  lemma EventKeepsCodes(codes: Runs.State, e: Runs.Event)
    requires Runs.Inv(codes) && Runs.BatchStored(codes) && Runs.Enabled(codes, e)
    ensures Runs.Inv(Runs.Step(codes, e)) && Runs.BatchStored(Runs.Step(codes, e))
  {
    hide Runs.Inv, Runs.BatchStored;
    Runs.StepKeepsInv(codes, e);
    Runs.StepStoresBatch(codes, e);
  }

  lemma StepKeepsFactors(s: State, r: Request, l: Ledger, user: UserId)
    requires Inv(s) && Enabled(s, r) && FactorsKept(s, l, user)
    ensures Inv(Step(s, r)) && FactorsKept(Step(s, r), Noted(l, user, r, Answer(s, r)), user)
  {
    hide RowsInv, MailInv, LogInv, Handle, Noted;
    StepKeepsInv(s, r);
    HandleKeepsFactors(s.(now := r.now), r, l, user);
  }

  lemma {:induction false} LedgerKeepsFactors(s: State, run: seq<Request>, user: UserId, l: Ledger)
    requires Inv(s) && ValidRun(s, run) && FactorsKept(s, l, user)
    ensures FactorsKept(Run(s, run), LedgerAt(s, run, |run|, user, l), user)
    decreases |run|
  {
    if run == [] {
    } else {
      hide Inv, Step, Answer, FactorsKept, Noted;
      StepKeepsFactors(s, run[0], l, user);
      LedgerKeepsFactors(Step(s, run[0]), run[1..], user, Noted(l, user, run[0], Answer(s, run[0])));
    }
  }

  lemma StepKeepsCodes(s: State, r: Request, l: Ledger, user: UserId)
    requires Inv(s) && Enabled(s, r) && CodesKept(s, l, user) && RandomCodes([r], user, l.issued)
    ensures Inv(Step(s, r)) && CodesKept(Step(s, r), Noted(l, user, r, Answer(s, r)), user)
  {
    hide RowsInv, MailInv, LogInv, Handle, Noted, RandomCodes, Runs.Inv, Runs.BatchStored;
    StepKeepsInv(s, r);
    HandleKeepsCodes(s.(now := r.now), r, l, user);
  }

  lemma RandomCodesSplit(run: seq<Request>, user: UserId, l: Ledger, answer: Outcome)
    requires run != [] && RandomCodes(run, user, l.issued)
    ensures RandomCodes([run[0]], user, l.issued)
    ensures RandomCodes(run[1..], user, Noted(l, user, run[0], answer).issued)
  {
    assert [run[0]][1..] == [] && [run[0]][0] == run[0];
  }

  lemma {:induction false} LedgerKeepsCodes(s: State, run: seq<Request>, user: UserId, l: Ledger)
    requires Inv(s) && ValidRun(s, run) && CodesKept(s, l, user) && RandomCodes(run, user, l.issued)
    ensures CodesKept(Run(s, run), LedgerAt(s, run, |run|, user, l), user)
    decreases |run|
  {
    if run == [] {
    } else {
      hide Inv, Step, Answer, CodesKept, RandomCodes, Noted;
      RandomCodesSplit(run, user, l, Answer(s, run[0]));
      StepKeepsCodes(s, run[0], l, user);
      LedgerKeepsCodes(Step(s, run[0]), run[1..], user, Noted(l, user, run[0], Answer(s, run[0])));
    }
  }

  // ---------- Which two-factor tokens are good ----------

  lemma HandleIssues(s: State, r: Request)
    requires Enabled(s, r) && s.now == r.now
    ensures var (t, answer) := Handle(s, r);
      t.twoFactorTokens == s.twoFactorTokens + if answer.TwoFactorRequired? then {answer.token} else {}
  {
    hide OpenWindow, FindLogin;
  }

  lemma {:induction false} TokensAreAnswers(s: State, run: seq<Request>, token: TwoFactorToken)
    requires ValidRun(s, run)
    ensures token in Run(s, run).twoFactorTokens <==> token in s.twoFactorTokens || TwoFactorRequired(token) in Answers(s, run)
    decreases |run|
  {
    if run == [] {
    } else {
      HandleIssues(s.(now := run[0].now), run[0]);
      TokensAreAnswers(Step(s, run[0]), run[1..], token);
    }
  }

  /** Each account's last login is the latest of its login records. */
  ghost predicate LastLoginsLogged(s: State) {
    && (forall k :: 0 <= k < |s.log| ==> s.log[k].user in s.users && s.log[k].at <= s.users[s.log[k].user].lastLogin)
    && (forall u :: u in s.users ==> exists k :: 0 <= k < |s.log| && s.log[k].user == u && s.log[k].at == s.users[u].lastLogin)
  }

  /** The last logins follow the log. */
  lemma LoginsFollowLog(s: State, t: State, user: Option<UserId>)
    requires LastLoginsLogged(s)
    requires forall u :: u in t.users <==> u in s.users || user == Some(u)
    requires forall u :: u in s.users && user != Some(u) ==> t.users[u].lastLogin == s.users[u].lastLogin
    requires forall u :: u in s.users ==> s.users[u].lastLogin <= t.users[u].lastLogin
    requires user.None? ==> t.log == s.log
    requires user.Some? ==> exists record: LoginRecord :: t.log == s.log + [record] && record.user == user.value
                                                        && record.at == t.users[user.value].lastLogin
    ensures LastLoginsLogged(t)
  {
    forall u | u in t.users
      ensures exists k :: 0 <= k < |t.log| && t.log[k].user == u && t.log[k].at == t.users[u].lastLogin
    {
      if user == Some(u) {
        assert t.log[|s.log|].user == u;
      } else {
        var k :| 0 <= k < |s.log| && s.log[k].user == u && s.log[k].at == s.users[u].lastLogin;
        assert t.log[k] == s.log[k];
      }
    }
    forall k | 0 <= k < |t.log|
      ensures t.log[k].user in t.users && t.log[k].at <= t.users[t.log[k].user].lastLogin
    {
      assert k < |s.log| ==> t.log[k] == s.log[k];
    }
  }

  lemma HandleKeepsLastLogins(s: State, r: Request)
    requires Inv(s) && Enabled(s, r) && s.now == r.now && LastLoginsLogged(s)
    ensures LastLoginsLogged(Handle(s, r).0)
  {
    hide Handle, RowsInv, MailInv, LogInv, LastLoginsLogged, KeepsConfirmed;
    var (t, answer) := Handle(s, r);
    HandleEffect(s, r);
    if answer.LoggedIn? {
      var record :| t.log == s.log + [record] && RecordOf(record, r, answer.user);
      assert record.at == r.now == t.users[answer.user].lastLogin;
      LoginsFollowLog(s, t, Some(answer.user));
    } else {
      LoginsFollowLog(s, t, None);
    }
  }

  lemma StepKeepsLastLogins(s: State, r: Request)
    requires Inv(s) && Enabled(s, r) && LastLoginsLogged(s)
    ensures Inv(Step(s, r)) && LastLoginsLogged(Step(s, r))
  {
    hide RowsInv, MailInv, LogInv, Handle;
    StepKeepsInv(s, r);
    HandleKeepsLastLogins(s.(now := r.now), r);
  }

  lemma {:induction false} RunKeepsLastLogins(s: State, run: seq<Request>)
    requires Inv(s) && LastLoginsLogged(s) && ValidRun(s, run)
    ensures LastLoginsLogged(Run(s, run))
    decreases |run|
  {
    if run == [] {
    } else {
      hide Inv, Step, LastLoginsLogged;
      StepKeepsLastLogins(s, run[0]);
      RunKeepsLastLogins(Step(s, run[0]), run[1..]);
    }
  }

  /** An earlier password login was answered with the token, at most 300 seconds ago, and no login of its user came after its stamp. */
  ghost predicate IsGood(run: seq<Request>, token: TwoFactorToken, now: Time)
    requires ValidRun(INITIAL, run)
  {
    && TwoFactorRequired(token) in Answers(INITIAL, run)
    && token.stamp <= Stamp(now) <= token.stamp + 300 * SECOND
    && forall k :: 0 <= k < |Run(INITIAL, run).log| && Run(INITIAL, run).log[k].user == token.user ==>
         Run(INITIAL, run).log[k].at <= token.stamp
  }

  lemma LastLoginDecides(s: State, user: UserId, stamp: Time)
    requires LastLoginsLogged(s) && user in s.users
    ensures s.users[user].lastLogin <= stamp <==> forall k :: 0 <= k < |s.log| && s.log[k].user == user ==> s.log[k].at <= stamp
  {
  }

  lemma GoodIffAccepted(run: seq<Request>, token: TwoFactorToken, now: Time)
    requires ValidRun(INITIAL, run)
    ensures TwoFactorTokenAccepted(Run(INITIAL, run).(now := now), token) <==> IsGood(run, token, now)
  {
    hide Run, ValidRun, Answers, RowsInv, MailInv, LogInv, LastLoginsLogged;
    var s := Run(INITIAL, run);
    Reached(run);
    NobodyYet();
    RunKeepsLastLogins(INITIAL, run);
    TokensAreAnswers(INITIAL, run, token);
    if token in s.twoFactorTokens {
      LastLoginDecides(s, token.user, token.stamp);
    }
  }

  lemma NobodyYet()
    ensures Inv(INITIAL) && LastLoginsLogged(INITIAL) && INITIAL.twoFactorTokens == {}
  {
    InitialInv();
  }

  // ---------- The answers ----------

  /** A login of the user from this address, by a method that cannot be phished, is on record. */
  ghost predicate IsKnown(run: seq<Request>, user: UserId, ip: IpId)
    requires ValidRun(INITIAL, run)
  {
    var log := Run(INITIAL, run).log;
    exists k :: 0 <= k < |log| && SamePair(log[k], user, ip) && log[k].via !in {Totp, RecoveryCode}
  }

  lemma KnownIffConfirmed(run: seq<Request>, user: UserId, ip: IpId, now: Time)
    requires ValidRun(INITIAL, run)
    ensures DeviceConfirmed(Run(INITIAL, run).(now := now), user, ip) <==> IsKnown(run, user, ip)
  {
    KnownDevicesAreLogged(run, user, ip);
    Reached(run);
    var s := Run(INITIAL, run);
    if id :| id in s.logins && SameDevice(s.logins[id], user, ip) && s.logins[id].status == CONFIRMED {
      FindLoginFinds(s, id);
    }
  }

  /** A password gets its user in, when no second factor is enrolled or the device is remembered; else it gets a token. */
  lemma PasswordAnswer(run: seq<Request>, r: Request)
    requires ValidRun(INITIAL, run) && Enabled(Run(INITIAL, run), r) && r.event.SubmitPassword?
    ensures var answer := Answer(Run(INITIAL, run), r);
      var l := LedgerOf(run, r.event.user);
      if (l.totp || l.webauthn) && !r.event.remembered
      then answer.TwoFactorRequired? && answer.token.user == r.event.user
           && answer.token.stamp % SECOND == 0 && answer.token.stamp <= r.now < answer.token.stamp + SECOND
      else answer == LoggedIn(r.event.user)
  {
    InitialInv();
    LedgerKeepsFactors(INITIAL, run, r.event.user, BLANK);
    assert Stamp(r.now) == (r.now / SECOND) * SECOND;
  }

  /**
   * A one-time password gets through exactly with a good token, an enrolled account, the library's
   * consent, and a value other than that of the account's latest TOTP login; it logs in from a known
   * device, and asks for a confirmation otherwise.
   */
  lemma TotpAnswer(run: seq<Request>, r: Request)
    requires ValidRun(INITIAL, run) && Enabled(Run(INITIAL, run), r) && r.event.SubmitTotp?
    ensures var user := r.event.twoFactor.user;
      var l := LedgerOf(run, user);
      Answer(Run(INITIAL, run), r) ==
        if !(IsGood(run, r.event.twoFactor, r.now) && l.totp && r.event.verifies && l.lastTotp != Some(r.event.value)) then Rejected
        else if IsKnown(run, user, r.event.ip) then LoggedIn(user)
        else ConfirmationRequired
  {
    InitialInv();
    LedgerKeepsFactors(INITIAL, run, r.event.twoFactor.user, BLANK);
    GoodIffAccepted(run, r.event.twoFactor, r.now);
    KnownIffConfirmed(run, r.event.twoFactor.user, r.event.ip, r.now);
  }

  /** A security key gets in exactly with a good token and a good assertion, from any device. */
  lemma WebAuthnAnswer(run: seq<Request>, r: Request)
    requires ValidRun(INITIAL, run) && Enabled(Run(INITIAL, run), r) && r.event.SubmitWebAuthn?
    ensures Answer(Run(INITIAL, run), r) ==
      if IsGood(run, r.event.twoFactor, r.now) && r.event.verifies then LoggedIn(r.event.twoFactor.user) else Rejected
  {
    GoodIffAccepted(run, r.event.twoFactor, r.now);
  }

  /**
   * A recovery code gets through exactly with a good token, input the hasher takes, and a code of the
   * account's latest batch that got no request through before, whether that one logged in or was
   * asked for a confirmation.
   */
  lemma RecoveryAnswer(run: seq<Request>, r: Request)
    requires ValidRun(INITIAL, run) && Enabled(Run(INITIAL, run), r) && r.event.SubmitRecoveryCode?
    requires RandomCodes(run, r.event.twoFactor.user, {})
    ensures var user := r.event.twoFactor.user;
      var l := LedgerOf(run, user);
      Answer(Run(INITIAL, run), r) ==
        if !(IsGood(run, r.event.twoFactor, r.now) && r.event.hashable && r.event.code in l.batch && r.event.code !in l.spent) then Rejected
        else if IsKnown(run, user, r.event.ip) then LoggedIn(user)
        else ConfirmationRequired
  {
    var user := r.event.twoFactor.user;
    var s := Run(INITIAL, run).(now := r.now);
    InitialInv();
    Reached(run);
    LedgerKeepsCodes(INITIAL, run, user, BLANK);
    GoodIffAccepted(run, r.event.twoFactor, r.now);
    KnownIffConfirmed(run, user, r.event.ip, r.now);
    if TwoFactorTokenAccepted(s, r.event.twoFactor) {
      Runs.AcceptedHere(CodesOf(s, LedgerOf(run, user), user), r.event.code, r.event.hashable, r.now);
      BurningKeepsDevices(s, user, r.event.ip, r.event.code, r.event.hashable);
    }
  }

  lemma BurningKeepsDevices(s: State, user: UserId, ip: IpId, code: Plaintext, hashable: bool)
    requires user in s.users
    ensures DeviceConfirmed(BurnedState(s, user, code, hashable), user, ip) == DeviceConfirmed(s, user, ip)
  {
  }

  // ---------- Records come from requests ----------

  /** Request `n` was answered "logged in" and is what the record says. */
  ghost predicate MadeBy(s: State, run: seq<Request>, n: nat, record: LoginRecord)
    requires ValidRun(s, run)
  {
    n < |run| && Answers(s, run)[n] == LoggedIn(record.user) && RecordOf(record, run[n], record.user)
  }

  /** Every record was made by a request; one made by a password alone, when no second factor was enrolled. */
  lemma {:induction false} RecordIsMade(s: State, run: seq<Request>, k: nat, l: Ledger)
    requires Inv(s) && ValidRun(s, run) && |s.log| <= k < |Run(s, run).log|
    requires FactorsKept(s, l, Run(s, run).log[k].user)
    ensures var record := Run(s, run).log[k];
      exists n: nat :: MadeBy(s, run, n, record)
        && (record.via.Password? ==> var before := LedgerAt(s, run, n, record.user, l); !before.totp && !before.webauthn)
    decreases |run|
  {
    if run == [] {
    } else {
      hide Inv, Step, Answer, FactorsKept, Noted, RecordOf, MadeBy;
      var record, t := Run(s, run).log[k], Step(s, run[0]);
      StepKeepsFactors(s, run[0], l, record.user);
      LogGrows(t, run[1..]);
      LogGrowsByOne(s, run[0]);
      if k < |t.log| {
        assert t.log[k] == record;
        FirstMadeIt(s, run, record, l);
      } else {
        var l' := Noted(l, record.user, run[0], Answer(s, run[0]));
        RecordIsMade(t, run[1..], k, l');
        var n: nat :| MadeBy(t, run[1..], n, record)
          && (record.via.Password? ==> var before := LedgerAt(t, run[1..], n, record.user, l'); !before.totp && !before.webauthn);
        LaterMadeIt(s, run, n, record, l);
      }
    }
  }

  lemma FirstMadeIt(s: State, run: seq<Request>, record: LoginRecord, l: Ledger)
    requires Inv(s) && ValidRun(s, run) && run != [] && FactorsKept(s, l, record.user) && Step(s, run[0]).log == s.log + [record]
    ensures MadeBy(s, run, 0, record) && (record.via.Password? ==> !l.totp && !l.webauthn)
  {
    var s1 := s.(now := run[0].now);
    StepKeepsInv(s, run[0]);
    HandleEffect(s1, run[0]);
    assert record == Step(s, run[0]).log[|s.log|];
    if record.via.Password? {
      assert run[0].event.SubmitPassword?;
    }
  }

  lemma LaterMadeIt(s: State, run: seq<Request>, n: nat, record: LoginRecord, l: Ledger)
    requires ValidRun(s, run) && run != [] && MadeBy(Step(s, run[0]), run[1..], n, record)
    ensures MadeBy(s, run, n + 1, record)
    ensures LedgerAt(s, run, n + 1, record.user, l) ==
      LedgerAt(Step(s, run[0]), run[1..], n, record.user, Noted(l, record.user, run[0], Answer(s, run[0])))
  {
  }

  lemma LogGrowsByOne(s: State, r: Request)
    requires Inv(s) && Enabled(s, r)
    ensures Inv(Step(s, r)) && (Step(s, r).log == s.log || exists record: LoginRecord :: Step(s, r).log == s.log + [record])
  {
    hide RowsInv, MailInv, LogInv, Handle;
    StepKeepsInv(s, r);
    HandleEffect(s.(now := r.now), r);
  }

  lemma {:induction false} LogGrows(s: State, run: seq<Request>)
    requires Inv(s) && ValidRun(s, run)
    ensures s.log <= Run(s, run).log
    decreases |run|
  {
    if run == [] {
    } else {
      hide Inv, Step;
      LogGrowsByOne(s, run[0]);
      LogGrows(Step(s, run[0]), run[1..]);
    }
  }

  /** No record of a login by password alone, in any run, is of an account with a second factor at the time. */
  lemma PasswordRecordsNeedNoFactor(run: seq<Request>, k: nat)
    requires ValidRun(INITIAL, run) && k < |Run(INITIAL, run).log| && Run(INITIAL, run).log[k].via.Password?
    ensures var record := Run(INITIAL, run).log[k];
      exists n: nat :: n < |run| && run[n] == Request(SubmitPassword(record.user, record.ip, false), record.at, run[n].newId)
        && var before := LedgerAt(INITIAL, run, n, record.user, BLANK); !before.totp && !before.webauthn
  {
    InitialInv();
    var record := Run(INITIAL, run).log[k];
    RecordIsMade(INITIAL, run, k, BLANK);
    var n: nat :| MadeBy(INITIAL, run, n, record)
      && var before := LedgerAt(INITIAL, run, n, record.user, BLANK); !before.totp && !before.webauthn;
    assert run[n].event.SubmitPassword? && Answers(INITIAL, run)[n] == LoggedIn(record.user);
    PasswordsLogInTheirUser(INITIAL, run, n);
  }

  lemma {:induction false} PasswordsLogInTheirUser(s: State, run: seq<Request>, n: nat)
    requires ValidRun(s, run) && n < |run| && run[n].event.SubmitPassword? && Answers(s, run)[n].LoggedIn?
    ensures Answers(s, run)[n] == LoggedIn(run[n].event.user)
    decreases |run|
  {
    if n == 0 {
    } else {
      PasswordsLogInTheirUser(Step(s, run[0]), run[1..], n - 1);
    }
  }
}
