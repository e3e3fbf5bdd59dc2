/** What logging in, logging out and a revoked identity do to the session of the request. */
module SessionClients {
  import opened Common
  import opened Sessions

  const CSRF_TOKEN_KEY := "_csrf_token"
  const FLASH_KEY := "_flash_messages"
  const TOTP_SECRET_KEY := "_totp_secret"
  const TOTP_SECRET_TIMESTAMP_KEY := "_totp_secret_timestamp"
  const REAUTH_TIMESTAMP_KEY := "_reauth_timestamp"
  const PASSWORD_TIMESTAMP_KEY := "_password_timestamp"
  const USERID_KEY := "auth.userid"

  const TOTP_SECRET_MAX_AGE: Time := 15 * MINUTE

  // ---------- Composite session methods ----------

  function FlashQueueKey(queue: string): string {
    if queue == "" then FLASH_KEY else FLASH_KEY + "." + queue
  }

  /** `peek_flash`. */
  function PeekFlash(data: Data, queue: string): seq<Message> {
    var key := FlashQueueKey(queue);
    if key in data && data[key].Messages? then data[key].messages else []
  }

  function Flash(s: Session, message: Message, queue: string, allowDuplicate: bool): Session {
    if !allowDuplicate && message in PeekFlash(s.data, queue) then s
    else Apply(s, SetItem(FlashQueueKey(queue), Messages(PeekFlash(s.data, queue) + [message])))
  }

  datatype TotpSecretStatus = Missing | Expired | Present

  function TotpStatus(data: Data, now: Time): TotpSecretStatus {
    if TOTP_SECRET_KEY !in data || data[TOTP_SECRET_KEY].Null? then Missing
    else
      var created := if TOTP_SECRET_TIMESTAMP_KEY in data && data[TOTP_SECRET_TIMESTAMP_KEY].Number?
                     then data[TOTP_SECRET_TIMESTAMP_KEY].number else 0;
      if now - created * SECOND >= TOTP_SECRET_MAX_AGE then Expired else Present
  }

  /** `get_totp_secret`; `generated` is what the secret generator would return. */
  function GetTotpSecret(s: Session, generated: Value, now: Time): Session {
    var s1 := if TotpStatus(s.data, now).Present? then s else Apply(s, SetItem(TOTP_SECRET_KEY, generated));
    Apply(s1, SetItem(TOTP_SECRET_TIMESTAMP_KEY, Number(now / SECOND)))
  }

  /**
   * A secret shown at `shown` is still the one shown at `again` exactly when less than fifteen minutes
   * passed since the whole second of `shown`.
   */
  lemma TotpSecretIsReusedIff(s: Session, first: Value, second: Value, shown: Time, again: Time)
    requires first.Text? && second.Text? && first != second
    requires TotpStatus(s.data, shown).Present? ==> s.data[TOTP_SECRET_KEY] != second
    ensures var s1 := GetTotpSecret(s, first, shown);
      var s2 := GetTotpSecret(s1, second, again);
      s2.data[TOTP_SECRET_KEY] == s1.data[TOTP_SECRET_KEY] <==> again - Stamp(shown) < TOTP_SECRET_MAX_AGE
  {
    assert (shown / SECOND) * SECOND == Stamp(shown);
  }

  /** `password_outdated`: a session without a timestamp is left to live. */
  predicate PasswordOutdated(data: Data, current: int) {
    && PASSWORD_TIMESTAMP_KEY in data && !data[PASSWORD_TIMESTAMP_KEY].Null?
    && data[PASSWORD_TIMESTAMP_KEY] != Number(current)
  }

  // ---------- Logging in ----------

  /**
   * A reference to a user. The session keeps the text of the identifier, so a reference read back from
   * the session never equals the UUID the database hands out for the very same user.
   */
  datatype UserRef = Uuid(text: string) | Str(text: string)

  datatype LoginDetails = LoginDetails(userid: UserRef, csrfToken: string, authTimestamp: int, passwordTimestamp: int,
                                       termsNotice: Option<Message>)

  predicate OtherUserAttached(attached: Option<UserRef>, userid: UserRef) {
    attached.Some? && attached.value != userid
  }

  /** The session side of `_login_user`; `attached` is the request's unauthenticated user id. */
  function Login(s: Session, attached: Option<UserRef>, login: LoginDetails): Session {
    var s1 := if OtherUserAttached(attached, login.userid) then Apply(s, Invalidate)
              else Apply(Apply(s, Invalidate), Update(s.data));
    var s2 := Apply(s1, SetItem(USERID_KEY, Text(login.userid.text)));
    var s3 := Apply(s2, SetItem(CSRF_TOKEN_KEY, Text(login.csrfToken)));
    var s4 := Apply(s3, SetItem(REAUTH_TIMESTAMP_KEY, Number(login.authTimestamp)));
    var s5 := Apply(s4, SetItem(PASSWORD_TIMESTAMP_KEY, Number(login.passwordTimestamp)));
    if login.termsNotice.Some? then Flash(s5, login.termsNotice.value, "", true) else s5
  }

  /** The keys a login writes. */
  predicate WrittenByLogin(key: string, login: LoginDetails) {
    key in {USERID_KEY, CSRF_TOKEN_KEY, REAUTH_TIMESTAMP_KEY, PASSWORD_TIMESTAMP_KEY}
    || (login.termsNotice.Some? && key == FLASH_KEY)
  }

  // ---------- Logging out, and revoked identities ----------

  /** `forget`, then `invalidate`. */
  function Logout(s: Session): Session {
    Apply(if USERID_KEY in s.data then Apply(s, DelItem(USERID_KEY)) else s, Invalidate)
  }

  datatype DisableReason = AccountFrozen | OtherReason

  const SUSPENDED := "Your account has been suspended. Please contact security@pypi.org for assistance."
  const INVALIDATED := "Session invalidated"
  const PASSWORD_CHANGED := "Session invalidated by password change"

  function Notice(disabled: Option<DisableReason>): Message {
    Message(if disabled.None? then PASSWORD_CHANGED else if disabled.value.AccountFrozen? then SUSPENDED else INVALIDATED, false)
  }

  /** The revocation steps of `SessionSecurityPolicy.identity` for an existing user, and whether it authenticates. */
  function Identify(s: Session, disabled: Option<DisableReason>, passwordTimestamp: int): (Session, bool) {
    if disabled.Some? || PasswordOutdated(s.data, passwordTimestamp)
    then (Flash(Apply(s, Invalidate), Notice(disabled), "error", true), false)
    else (s, true)
  }

  // ---------- What a login leaves ----------

  /** What a login writes: the user, the new CSRF token and both timestamps; a terms notice is queued last. */
  lemma LoginWrites(s: Session, attached: Option<UserRef>, login: LoginDetails)
    ensures var data := Login(s, attached, login).data;
      && USERID_KEY in data && data[USERID_KEY] == Text(login.userid.text)
      && CSRF_TOKEN_KEY in data && data[CSRF_TOKEN_KEY] == Text(login.csrfToken)
      && REAUTH_TIMESTAMP_KEY in data && data[REAUTH_TIMESTAMP_KEY] == Number(login.authTimestamp)
      && PASSWORD_TIMESTAMP_KEY in data && data[PASSWORD_TIMESTAMP_KEY] == Number(login.passwordTimestamp)
      && !PasswordOutdated(data, login.passwordTimestamp)
      && PeekFlash(data, "") ==
        (if OtherUserAttached(attached, login.userid) then [] else PeekFlash(s.data, "")) +
        (if login.termsNotice.Some? then [login.termsNotice.value] else [])
  {
  }

  /** A session read back from text never matches a UUID: the password form always starts such a session afresh. */
  lemma TextNeverMatchesUuid(s: Session, stored: string, login: LoginDetails)
    requires login.userid.Uuid?
    ensures forall key :: key in Login(s, Some(Str(stored)), login).data ==> WrittenByLogin(key, login)
  {
  }
}
