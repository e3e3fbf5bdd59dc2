/**
 * The login-confirmation protocol: what a login attempt from a device does to the account tables, the
 * signed tokens and the outgoing mail. Each request handler is a function from the state before to the
 * state after; `LoginService` carries the same handlers out step by step.
 */
module LoginProtocol {
  import opened Common
  import opened RecoveryCodes

  // Token lifetimes, in seconds, as configured by default.
  const CONFIRM_LOGIN_MAX_AGE := 21600
  const TWO_FACTOR_MAX_AGE := 300

  /** Repeats of the unrecognized-login mail to one address are suppressed this long. */
  const REPEAT_WINDOW: Time := 15 * MINUTE

  type UserId = nat
  type LoginId = nat
  type IpId = nat
  type Address = string

  datatype LoginStatus = PENDING | CONFIRMED

  /** A row of `user_unique_logins`. */
  datatype UniqueLogin = UniqueLogin(user: UserId, ip: IpId, status: LoginStatus, expires: Option<Time>)

  datatype Email = Email(address: Address, verified: bool)

  datatype User = User(
    lastLogin: Time,
    primaryEmail: Option<Email>,
    hasTotp: bool,
    hasWebauthn: bool,
    lastTotpValue: Option<string>,
    recoveryCodes: seq<StoredCode>)

  /** How a login was authenticated; `Password` is a login that needed no second factor. */
  datatype Method = Registration | Password | RememberedDevice | Totp | WebAuthn | RecoveryCode | EmailConfirmation

  const PHISHABLE_METHODS := {Totp, RecoveryCode}

  datatype ConfirmToken = ConfirmToken(user: UserId, login: LoginId, remember: bool, stamp: Time)
  datatype TwoFactorToken = TwoFactorToken(user: UserId, stamp: Time)

  /** An unrecognized-login mail handed to the mail queue. */
  datatype Mail = Mail(to: Address, token: ConfirmToken, at: Time)

  /** A `LoginSuccess` event. */
  datatype LoginRecord = LoginRecord(user: UserId, ip: IpId, via: Method, at: Time)

  /**
   * The database, the set of tokens ever signed, the mail queue's history, and for each address the
   * creation time of the latest delivery record of the unrecognized-login mail.
   */
  datatype State = State(
    now: Time,
    users: map<UserId, User>,
    logins: map<LoginId, UniqueLogin>,
    confirmTokens: set<ConfirmToken>,
    twoFactorTokens: set<TwoFactorToken>,
    mails: seq<Mail>,
    delivered: map<Address, Time>,
    log: seq<LoginRecord>)

  datatype Outcome = Acknowledged | Rejected | TwoFactorRequired(token: TwoFactorToken) | ConfirmationRequired | LoggedIn(user: UserId)

  const WINDOW: Time := CONFIRM_LOGIN_MAX_AGE * SECOND

  // ---------- Mail ----------

  datatype SkipReason = NoEmailAddress | UnverifiedEmail | InRepeatWindow

  /** Why a mail to this recipient is skipped, if it is. */
  function SkipMail(s: State, email: Option<Email>, allowUnverified: bool, repeatWindow: Option<Time>): Option<SkipReason> {
    if email.None? then Some(NoEmailAddress)
    else if !(email.value.verified || allowUnverified) then Some(UnverifiedEmail)
    else if repeatWindow.Some? && email.value.address in s.delivered
            && s.now - s.delivered[email.value.address] <= repeatWindow.value then Some(InRepeatWindow)
    else None
  }

  /** Sends the unrecognized-login mail to the user's primary address unless there is a reason to skip it. */
  function MailToken(s: State, token: ConfirmToken, repeatWindow: Option<Time>): State
    requires token.user in s.users
  {
    var email := s.users[token.user].primaryEmail;
    if SkipMail(s, email, true, repeatWindow).Some? then s
    else s.(mails := s.mails + [Mail(email.value.address, token, s.now)])
  }

  // ---------- Devices ----------

  /** The row of this user and address, if any: the database keeps the pair unique. */
  ghost function FindLogin(logins: map<LoginId, UniqueLogin>, user: UserId, ip: IpId): (r: Option<LoginId>)
    ensures r.Some? ==> r.value in logins && logins[r.value].user == user && logins[r.value].ip == ip
    ensures r.None? ==> forall id :: id in logins ==> !(logins[id].user == user && logins[id].ip == ip)
  {
    if exists id :: id in logins && logins[id].user == user && logins[id].ip == ip then
      var id :| id in logins && logins[id].user == user && logins[id].ip == ip;
      Some(id)
    else None
  }

  predicate WindowLapsed(row: UniqueLogin, now: Time) {
    row.expires.Some? && row.expires.value < now
  }

  /** The row an unconfirmed attempt leaves behind, and whether the attempt opened a window. */
  ghost function OpenWindow(s: State, user: UserId, ip: IpId, newId: LoginId): (LoginId, UniqueLogin, bool) {
    var found := FindLogin(s.logins, user, ip);
    if found.None? then (newId, UniqueLogin(user, ip, PENDING, Some(s.now + WINDOW)), true)
    else
      var row := s.logins[found.value];
      if WindowLapsed(row, s.now) then (found.value, row.(expires := Some(s.now + WINDOW)), true)
      else (found.value, row, false)
  }

  ghost predicate DeviceConfirmed(s: State, user: UserId, ip: IpId) {
    var found := FindLogin(s.logins, user, ip);
    found.Some? && s.logins[found.value].status.CONFIRMED?
  }

  /** `device_is_known`: true leaves the state alone; false opens or keeps a window and mails a token. */
  ghost function DeviceIsKnown(s: State, user: UserId, ip: IpId, remember: bool, newId: LoginId): (State, bool)
    requires user in s.users
  {
    if DeviceConfirmed(s, user, ip) then (s, true)
    else
      var (id, row, opens) := OpenWindow(s, user, ip, newId);
      var token := ConfirmToken(user, id, remember, Stamp(s.now));
      var s1 := s.(logins := s.logins[id := row],
                   confirmTokens := s.confirmTokens + {token});
      (MailToken(s1, token, if opens then None else Some(REPEAT_WINDOW)), false)
  }

  // ---------- Logging in ----------

  /** The account side of `_login_user`. */
  ghost function LoginUser(s: State, user: UserId, ip: IpId, via: Method, newId: LoginId): State
    requires user in s.users
  {
    var s1 := s.(users := s.users[user := s.users[user].(lastLogin := s.now)],
                 log := s.log + [LoginRecord(user, ip, via, s.now)]);
    var found := FindLogin(s.logins, user, ip);
    if via in PHISHABLE_METHODS then s1
    else if found.None? then s1.(logins := s.logins[newId := UniqueLogin(user, ip, CONFIRMED, None)])
    else s1.(logins := s.logins[found.value := s.logins[found.value].(status := CONFIRMED)])
  }

  /** `_get_two_factor_data`: the token was signed here, is young enough, and no login happened since. */
  predicate TwoFactorTokenAccepted(s: State, token: TwoFactorToken) {
    && token in s.twoFactorTokens
    && WithinMaxAge(token.stamp, s.now, TWO_FACTOR_MAX_AGE)
    && token.user in s.users
    && !(token.stamp < s.users[token.user].lastLogin)
  }

  /** `register`, once the form is accepted: creates the account and logs it in. */
  ghost function RegisterUser(s: State, user: UserId, primaryEmail: Option<Email>, ip: IpId, newId: LoginId): (State, Outcome) {
    var s1 := s.(users := s.users[user := User(s.now, primaryEmail, false, false, None, [])]);
    (LoginUser(s1, user, ip, Registration, newId), LoggedIn(user))
  }

  /** `login`, for a request whose username and password were accepted. */
  ghost function PasswordLogin(s: State, user: UserId, ip: IpId, remembered: bool, newId: LoginId): (State, Outcome)
    requires user in s.users
  {
    if (s.users[user].hasTotp || s.users[user].hasWebauthn) && !remembered then
      var token := TwoFactorToken(user, Stamp(s.now));
      (s.(twoFactorTokens := s.twoFactorTokens + {token}), TwoFactorRequired(token))
    else
      (LoginUser(s, user, ip, if remembered then RememberedDevice else Password, newId), LoggedIn(user))
  }

  /** `check_totp_value`; `verifies` is what the one-time-password library says of the value. */
  predicate TotpAccepted(user: User, value: string, verifies: bool) {
    user.hasTotp && user.lastTotpValue != Some(value) && verifies
  }

  /** The POST half of `two_factor_and_totp_validate`. */
  ghost function TotpLogin(s: State, token: TwoFactorToken, ip: IpId, value: string, verifies: bool, remember: bool, newId: LoginId): (State, Outcome) {
    if !TwoFactorTokenAccepted(s, token) || !TotpAccepted(s.users[token.user], value, verifies) then (s, Rejected)
    else
      var (s1, known) := DeviceIsKnown(s, token.user, ip, remember, newId);
      if known then
        var s2 := LoginUser(s1, token.user, ip, Totp, newId);
        (s2.(users := s2.users[token.user := s2.users[token.user].(lastTotpValue := Some(value))]), LoggedIn(token.user))
      else (s1, ConfirmationRequired)
  }

  /** `webauthn_authentication_validate`; `verifies` is the verdict on the assertion. */
  ghost function WebAuthnLogin(s: State, token: TwoFactorToken, ip: IpId, verifies: bool, newId: LoginId): (State, Outcome) {
    if !TwoFactorTokenAccepted(s, token) || !verifies then (s, Rejected)
    else (LoginUser(s, token.user, ip, WebAuthn, newId), LoggedIn(token.user))
  }

  /** The accounts after a recovery code was checked: an accepted one is burned. */
  function BurnedState(s: State, user: UserId, code: Plaintext, hashable: bool): State
    requires user in s.users
  {
    var rows := Check(s.users[user].recoveryCodes, code, hashable, s.now).0;
    s.(users := s.users[user := s.users[user].(recoveryCodes := rows)])
  }

  /** The POST half of `recovery_code`: an accepted code is burned even when the device is unknown. */
  ghost function RecoveryLogin(s: State, token: TwoFactorToken, ip: IpId, code: Plaintext, hashable: bool, newId: LoginId): (State, Outcome) {
    if !TwoFactorTokenAccepted(s, token) then (s, Rejected)
    else if !Check(s.users[token.user].recoveryCodes, code, hashable, s.now).1.Accepted? then (s, Rejected)
    else
      var (s1, known) := DeviceIsKnown(BurnedState(s, token.user, code, hashable), token.user, ip, false, newId);
      if known then (LoginUser(s1, token.user, ip, RecoveryCode, newId), LoggedIn(token.user))
      else (s1, ConfirmationRequired)
  }

  /** `confirm_login`: never compares the token's user with the owner of the login it names. */
  ghost function ConfirmLogin(s: State, token: ConfirmToken, ip: IpId, newId: LoginId): (State, Outcome) {
    if token !in s.confirmTokens || !WithinMaxAge(token.stamp, s.now, CONFIRM_LOGIN_MAX_AGE) then (s, Rejected)
    else if token.user !in s.users then (s, Rejected)
    else if token.login !in s.logins || s.logins[token.login].status.CONFIRMED? then (s, Rejected)
    else if s.logins[token.login].ip != ip then (s, Rejected)
    else
      var s1 := s.(logins := s.logins[token.login := s.logins[token.login].(status := CONFIRMED)]);
      (LoginUser(s1, token.user, ip, EmailConfirmation, newId), LoggedIn(token.user))
  }

  // ---------- Runs ----------

  datatype Event =
    | Register(user: UserId, primaryEmail: Option<Email>, ip: IpId)
    | Enroll(user: UserId, totp: bool, webauthn: bool)
    | ChangeEmail(user: UserId, primaryEmail: Option<Email>)
    | GenerateCodes(user: UserId, codes: seq<Plaintext>)
    | Deliver(mail: Mail)
    | Prune(address: Address)
    | SubmitPassword(user: UserId, ip: IpId, remembered: bool)
    | SubmitTotp(twoFactor: TwoFactorToken, ip: IpId, value: string, verifies: bool, remember: bool)
    | SubmitWebAuthn(twoFactor: TwoFactorToken, ip: IpId, verifies: bool)
    | SubmitRecoveryCode(twoFactor: TwoFactorToken, ip: IpId, code: Plaintext, hashable: bool)
    | FollowLink(token: ConfirmToken, ip: IpId)

  /** One request: what arrives, the clock reading it sees, and the identifier a new row would get. */
  datatype Request = Request(event: Event, now: Time, newId: LoginId)

  const INITIAL := State(0, map[], map[], {}, {}, [], map[], [])

  /** The clock does not run backwards, row identifiers are fresh, and accounts exist before they act. */
  predicate Enabled(s: State, r: Request) {
    && s.now <= r.now
    && r.newId !in s.logins
    && match r.event
       case Register(user, _, _) => user !in s.users
       case Enroll(user, _, _) => user in s.users
       case ChangeEmail(user, _) => user in s.users
       case GenerateCodes(user, _) => user in s.users
       case Deliver(mail) => mail in s.mails
       case SubmitPassword(user, _, _) => user in s.users
       case _ => true
  }

  /** What a request does to the state at its own clock reading. */
  ghost function Handle(s: State, r: Request): (State, Outcome)
    requires Enabled(s, r) && s.now == r.now
  {
    match r.event
    case Register(user, email, ip) => RegisterUser(s, user, email, ip, r.newId)
    case Enroll(user, totp, webauthn) =>
      (s.(users := s.users[user := s.users[user].(hasTotp := totp, hasWebauthn := webauthn)]), Acknowledged)
    case ChangeEmail(user, email) =>
      (s.(users := s.users[user := s.users[user].(primaryEmail := email)]), Acknowledged)
    case GenerateCodes(user, codes) =>
      (s.(users := s.users[user := s.users[user].(recoveryCodes := Generate(s.users[user].recoveryCodes, codes))]), Acknowledged)
    case Deliver(mail) => (s.(delivered := s.delivered[mail.to := s.now]), Acknowledged)
    case Prune(address) => (s.(delivered := s.delivered - {address}), Acknowledged)
    case SubmitPassword(user, ip, remembered) => PasswordLogin(s, user, ip, remembered, r.newId)
    case SubmitTotp(token, ip, value, verifies, remember) =>
      TotpLogin(s, token, ip, value, verifies, remember, r.newId)
    case SubmitWebAuthn(token, ip, verifies) => WebAuthnLogin(s, token, ip, verifies, r.newId)
    case SubmitRecoveryCode(token, ip, code, hashable) => RecoveryLogin(s, token, ip, code, hashable, r.newId)
    case FollowLink(token, ip) => ConfirmLogin(s, token, ip, r.newId)
  }

  ghost function Step(s: State, r: Request): State
    requires Enabled(s, r)
  {
    Handle(s.(now := r.now), r).0
  }

  ghost predicate ValidRun(s: State, run: seq<Request>)
    decreases |run|
  {
    run != [] ==> Enabled(s, run[0]) && ValidRun(Step(s, run[0]), run[1..])
  }

  ghost function Run(s: State, run: seq<Request>): State
    requires ValidRun(s, run)
    decreases |run|
  {
    if run == [] then s else Run(Step(s, run[0]), run[1..])
  }
}
