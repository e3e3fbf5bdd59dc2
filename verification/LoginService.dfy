/**
 * The request handlers of the login protocol carried out step by step on the account tables, each
 * proved to take the state where the protocol says and to keep the protocol's invariant.
 */
module LoginServices {
  import opened Common
  import opened RecoveryCodes
  import opened LoginProtocol
  import opened LoginTheorems

  class LoginService {
    var now: Time
    var users: map<UserId, User>
    var logins: map<LoginId, UniqueLogin>
    var confirmTokens: set<ConfirmToken>
    var twoFactorTokens: set<TwoFactorToken>
    var mails: seq<Mail>
    var delivered: map<Address, Time>
    var log: seq<LoginRecord>

    ghost function Snapshot(): State
      reads this
    {
      State(now, users, logins, confirmTokens, twoFactorTokens, mails, delivered, log)
    }

    ghost predicate Valid()
      reads this
    {
      Inv(Snapshot())
    }

    constructor ()
      ensures Valid() && Snapshot() == INITIAL
    {
      now := 0;
      users, logins, delivered := map[], map[], map[];
      confirmTokens, twoFactorTokens := {}, {};
      mails, log := [], [];
    }

    /** The row of a user and address (`one_or_none`). */
    method QueryLogin(user: UserId, ip: IpId) returns (found: Option<LoginId>)
      requires RowsInv(Snapshot())
      ensures found == FindLogin(logins, user, ip)
    {
      if id :| id in logins && logins[id].user == user && logins[id].ip == ip {
        found := Some(id);
      } else {
        found := None;
      }
    }

    /** `_send_email_to_user` for the unrecognized-login mail. */
    method SendEmailToUser(token: ConfirmToken, email: Option<Email>, allowUnverified: bool, repeatWindow: Option<Time>)
      returns (skipped: Option<SkipReason>)
      modifies `mails
      ensures skipped == SkipMail(old(Snapshot()), email, allowUnverified, repeatWindow)
      ensures skipped == Some(NoEmailAddress) <==> email.None?
      ensures skipped == Some(UnverifiedEmail) <==> email.Some? && !email.value.verified && !allowUnverified
      ensures skipped == Some(InRepeatWindow) <==>
        email.Some? && (email.value.verified || allowUnverified) && repeatWindow.Some?
        && email.value.address in delivered && now - delivered[email.value.address] <= repeatWindow.value
      ensures skipped.Some? ==> Snapshot() == old(Snapshot())
      ensures skipped.None? ==> email.Some? && Snapshot() == old(Snapshot()).(
        mails := old(mails) + [Mail(email.value.address, token, now)])
    {
      if email.None? {
        return Some(NoEmailAddress);
      }
      if !(email.value.verified || allowUnverified) {
        return Some(UnverifiedEmail);
      }
      if repeatWindow.Some? {
        if email.value.address in delivered {
          var lastSent := delivered[email.value.address];
          if now - lastSent <= repeatWindow.value {
            return Some(InRepeatWindow);
          }
        }
      }
      mails := mails + [Mail(email.value.address, token, now)];
      return None;
    }

    /** Finds or adds the row of an unconfirmed attempt, and extends its window if it lapsed. */
    method OpenLogin(user: UserId, ip: IpId, found: Option<LoginId>, newId: LoginId) returns (id: LoginId, opens: bool)
      requires RowsInv(Snapshot()) && found == FindLogin(logins, user, ip) && newId !in logins
      modifies `logins
      ensures id in logins && (id, logins[id], opens) == OpenWindow(old(Snapshot()), user, ip, newId)
      ensures Snapshot() == old(Snapshot()).(logins := old(logins)[id := logins[id]])
    {
      var isNewDevice := found.None?;
      id := newId;
      if isNewDevice {
        logins := logins[newId := UniqueLogin(user, ip, PENDING, Some(now + WINDOW))];
      } else {
        id := found.value;
      }
      var windowLapsed := WindowLapsed(logins[id], now);
      if windowLapsed {
        logins := logins[id := logins[id].(expires := Some(now + WINDOW))];
      }
      opens := isNewDevice || windowLapsed;
    }

    method DeviceIsKnown(user: UserId, ip: IpId, remember: bool, newId: LoginId) returns (known: bool)
      requires Valid() && user in users && newId !in logins
      modifies this
      ensures Valid() && (Snapshot(), known) == LoginProtocol.DeviceIsKnown(old(Snapshot()), user, ip, remember, newId)
    {
      DeviceKeepsInv(Snapshot(), user, ip, remember, newId);
      var found := QueryLogin(user, ip);
      if found.Some? && logins[found.value].status.CONFIRMED? {
        return true;
      }
      var id, opens := OpenLogin(user, ip, found, newId);
      var token := ConfirmToken(user, id, remember, Stamp(now));
      confirmTokens := confirmTokens + {token};
      var _ := SendEmailToUser(token, users[user].primaryEmail, true, if opens then None else Some(REPEAT_WINDOW));
      return false;
    }

    method LoginUser(user: UserId, ip: IpId, via: Method, newId: LoginId)
      requires RowsInv(Snapshot()) && user in users && newId !in logins
      modifies this
      ensures Snapshot() == LoginProtocol.LoginUser(old(Snapshot()), user, ip, via, newId)
    {
      users := users[user := users[user].(lastLogin := now)];
      log := log + [LoginRecord(user, ip, via, now)];
      var found := QueryLogin(user, ip);
      var id := newId;
      if found.Some? {
        id := found.value;
      } else if via !in PHISHABLE_METHODS {
        logins := logins[newId := UniqueLogin(user, ip, CONFIRMED, None)];
      }
      if id in logins && logins[id].status.PENDING? && via !in PHISHABLE_METHODS {
        logins := logins[id := logins[id].(status := CONFIRMED)];
      }
      assert logins == LoginProtocol.LoginUser(old(Snapshot()), user, ip, via, newId).logins;
    }

    method GetTwoFactorData(token: TwoFactorToken) returns (user: Option<UserId>)
      requires TokensInv(Snapshot())
      ensures user == if TwoFactorTokenAccepted(Snapshot(), token) then Some(token.user) else None
    {
      if token !in twoFactorTokens || !WithinMaxAge(token.stamp, now, TWO_FACTOR_MAX_AGE) {
        return None;
      }
      if token.stamp < users[token.user].lastLogin {
        return None;
      }
      return Some(token.user);
    }

    method Register(user: UserId, primaryEmail: Option<Email>, ip: IpId, newId: LoginId) returns (outcome: Outcome)
      requires Valid() && user !in users && newId !in logins
      modifies this
      ensures Valid() && (Snapshot(), outcome) == RegisterUser(old(Snapshot()), user, primaryEmail, ip, newId)
    {
      RegistrationKeepsInv(Snapshot(), user, primaryEmail, ip, newId);
      users := users[user := User(now, primaryEmail, false, false, None, [])];
      AccountChangeKeepsInv(old(Snapshot()), Snapshot());
      LoginUser(user, ip, Registration, newId);
      return LoggedIn(user);
    }

    method Login(user: UserId, ip: IpId, remembered: bool, newId: LoginId) returns (outcome: Outcome)
      requires Valid() && user in users && newId !in logins
      modifies this
      ensures Valid() && (Snapshot(), outcome) == PasswordLogin(old(Snapshot()), user, ip, remembered, newId)
    {
      HandleKeepsInv(Snapshot(), Request(SubmitPassword(user, ip, remembered), now, newId));
      if (users[user].hasTotp || users[user].hasWebauthn) && !remembered {
        var token := TwoFactorToken(user, Stamp(now));
        twoFactorTokens := twoFactorTokens + {token};
        return TwoFactorRequired(token);
      }
      LoginUser(user, ip, if remembered then RememberedDevice else Password, newId);
      return LoggedIn(user);
    }

    method TwoFactorAndTotpValidate(token: TwoFactorToken, ip: IpId, value: string, verifies: bool, remember: bool, newId: LoginId)
      returns (outcome: Outcome)
      requires Valid() && newId !in logins
      modifies this
      ensures Valid() && (Snapshot(), outcome) == TotpLogin(old(Snapshot()), token, ip, value, verifies, remember, newId)
    {
      hide RowsInv, MailInv, LogInv, OpenWindow, MailToken;
      TotpKeepsInv(Snapshot(), token, ip, value, verifies, remember, newId);
      var user := GetTwoFactorData(token);
      if user.None? || !TotpAccepted(users[user.value], value, verifies) {
        return Rejected;
      }
      var known := DeviceIsKnown(user.value, ip, remember, newId);
      if !known {
        return ConfirmationRequired;
      }
      LoginUser(user.value, ip, Totp, newId);
      users := users[user.value := users[user.value].(lastTotpValue := Some(value))];
      return LoggedIn(user.value);
    }

    method WebauthnAuthenticationValidate(token: TwoFactorToken, ip: IpId, verifies: bool, newId: LoginId) returns (outcome: Outcome)
      requires Valid() && newId !in logins
      modifies this
      ensures Valid() && (Snapshot(), outcome) == WebAuthnLogin(old(Snapshot()), token, ip, verifies, newId)
    {
      HandleKeepsInv(Snapshot(), Request(SubmitWebAuthn(token, ip, verifies), now, newId));
      var user := GetTwoFactorData(token);
      if user.None? || !verifies {
        return Rejected;
      }
      LoginUser(user.value, ip, WebAuthn, newId);
      return LoggedIn(user.value);
    }

    method RecoveryCodeValidate(token: TwoFactorToken, ip: IpId, code: Plaintext, hashable: bool, newId: LoginId)
      returns (outcome: Outcome)
      requires Valid() && newId !in logins
      modifies this
      ensures Valid() && (Snapshot(), outcome) == RecoveryLogin(old(Snapshot()), token, ip, code, hashable, newId)
    {
      RecoveryKeepsInv(Snapshot(), token, ip, code, hashable, newId);
      var user := GetTwoFactorData(token);
      if user.None? {
        return Rejected;
      }
      var table := new RecoveryCodeTable();
      table.rows := users[user.value].recoveryCodes;
      var result := table.CheckRecoveryCode(code, hashable, now);
      if !result.Accepted? {
        return Rejected;
      }
      users := users[user.value := users[user.value].(recoveryCodes := table.rows)];
      assert Snapshot() == BurnedState(old(Snapshot()), token.user, code, hashable);
      AccountChangeKeepsInv(old(Snapshot()), Snapshot());
      var known := DeviceIsKnown(user.value, ip, false, newId);
      if !known {
        return ConfirmationRequired;
      }
      LoginUser(user.value, ip, RecoveryCode, newId);
      return LoggedIn(user.value);
    }

    method ConfirmLogin(token: ConfirmToken, ip: IpId, newId: LoginId) returns (outcome: Outcome)
      requires Valid() && newId !in logins
      modifies this
      ensures Valid() && (Snapshot(), outcome) == LoginProtocol.ConfirmLogin(old(Snapshot()), token, ip, newId)
    {
      ConfirmKeepsInv(Snapshot(), token, ip, newId);
      if token !in confirmTokens || !WithinMaxAge(token.stamp, now, CONFIRM_LOGIN_MAX_AGE) {
        return Rejected;
      }
      if token.user !in users {
        return Rejected;
      }
      if token.login !in logins || logins[token.login].status.CONFIRMED? {
        return Rejected;
      }
      if logins[token.login].ip != ip {
        return Rejected;
      }
      logins := logins[token.login := logins[token.login].(status := CONFIRMED)];
      LoginUser(token.user, ip, EmailConfirmation, newId);
      return LoggedIn(token.user);
    }
  }
}
