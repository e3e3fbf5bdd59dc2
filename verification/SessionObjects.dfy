/** The session dictionary and the session factory as the objects a request works on. */
module SessionObjects {
  import opened Common
  import opened Sessions
  import opened SessionClients

  class SessionObject {
    var data: Data
    var sid: Option<Sid>
    var changed: bool
    var invalidated: set<Sid>

    ghost function Snapshot(): Session
      reads this
    {
      Session(data, sid, changed, invalidated)
    }

    constructor (data: Data, sid: Option<Sid>)
      ensures Snapshot() == Session(data, sid, false, {})
    {
      this.data, this.sid, changed, invalidated := data, sid, false, {};
    }

    method SetItem(key: string, value: Value)
      modifies this
      ensures Snapshot() == Apply(old(Snapshot()), Op.SetItem(key, value))
    {
      changed := true;
      data := data[key := value];
    }

    /** Pops `key`, or nothing when it is missing; marks the session changed either way. */
    method Pop(key: string) returns (value: Option<Value>)
      modifies this
      ensures Snapshot() == Apply(old(Snapshot()), DelItem(key))
      ensures value == if key in old(data) then Some(old(data)[key]) else None
    {
      changed := true;
      value := if key in data then Some(data[key]) else None;
      data := data - {key};
    }

    method Update(items: Data)
      modifies this
      ensures Snapshot() == Apply(old(Snapshot()), Op.Update(items))
    {
      changed := true;
      data := data + items;
    }

    method Clear()
      modifies this
      ensures Snapshot() == Apply(old(Snapshot()), Op.Clear)
    {
      changed := true;
      data := map[];
    }

    method Invalidate()
      modifies this
      ensures Snapshot() == Apply(old(Snapshot()), Op.Invalidate)
    {
      Clear();
      changed := false;
      if sid.Some? {
        invalidated := invalidated + {sid.value};
        sid := None;
      }
    }

    /** The `sid` property. */
    method ReadSid(random: Sid) returns (value: Sid)
      modifies this`sid
      ensures Snapshot() == WithSid(old(Snapshot()), random) && sid == Some(value)
    {
      if sid.None? {
        sid := Some(random);
      }
      value := sid.value;
    }

    method FlashMessage(message: Message, queue: string, allowDuplicate: bool)
      modifies this
      ensures Snapshot() == Flash(old(Snapshot()), message, queue, allowDuplicate)
    {
      var messages := PeekFlash(data, queue);
      if !allowDuplicate && message in messages {
        return;
      }
      SetItem(FlashQueueKey(queue), Messages(messages + [message]));
    }

    /** Drains a queue: the messages come back in order and the queue is gone. */
    method PopFlash(queue: string) returns (messages: seq<Message>)
      modifies this
      ensures messages == PeekFlash(old(data), queue) && PeekFlash(data, queue) == []
      ensures Snapshot() == Apply(old(Snapshot()), DelItem(FlashQueueKey(queue)))
    {
      messages := PeekFlash(data, queue);
      var _ := Pop(FlashQueueKey(queue));
    }

    /** `get_totp_secret`: the returned secret is stored and valid as of now. */
    method ReadTotpSecret(generated: Value, now: Time) returns (secret: Value)
      requires generated.Text?
      modifies this
      ensures Snapshot() == GetTotpSecret(old(Snapshot()), generated, now)
      ensures TotpStatus(data, now).Present? && secret == data[TOTP_SECRET_KEY]
      ensures secret == if TotpStatus(old(data), now).Present? then old(data)[TOTP_SECRET_KEY] else generated
    {
      if !TotpStatus(data, now).Present? {
        SetItem(TOTP_SECRET_KEY, generated);
      }
      SetItem(TOTP_SECRET_TIMESTAMP_KEY, Number(now / SECOND));
      secret := data[TOTP_SECRET_KEY];
    }

    /** The session part of `_login_user`. */
    method LoginUser(attached: Option<UserRef>, login: LoginDetails)
      modifies this
      ensures Snapshot() == Login(old(Snapshot()), attached, login)
    {
      if OtherUserAttached(attached, login.userid) {
        Invalidate();
      } else {
        var items := data;
        Invalidate();
        Update(items);
      }
      SetItem(USERID_KEY, Text(login.userid.text));
      SetItem(CSRF_TOKEN_KEY, Text(login.csrfToken));
      SetItem(REAUTH_TIMESTAMP_KEY, Number(login.authTimestamp));
      SetItem(PASSWORD_TIMESTAMP_KEY, Number(login.passwordTimestamp));
      if login.termsNotice.Some? {
        FlashMessage(login.termsNotice.value, "", true);
      }
    }

    method LogoutUser()
      modifies this
      ensures Snapshot() == Logout(old(Snapshot()))
    {
      if USERID_KEY in data {
        var _ := Pop(USERID_KEY);
      }
      Invalidate();
    }

    method IdentifyUser(disabled: Option<DisableReason>, passwordTimestamp: int) returns (authenticated: bool)
      modifies this
      ensures (Snapshot(), authenticated) == Identify(old(Snapshot()), disabled, passwordTimestamp)
    {
      if disabled.Some? {
        Invalidate();
        if disabled.value.AccountFrozen? {
          FlashMessage(Message(SUSPENDED, false), "error", true);
        } else {
          FlashMessage(Message(INVALIDATED, false), "error", true);
        }
        return false;
      }
      if PasswordOutdated(data, passwordTimestamp) {
        Invalidate();
        FlashMessage(Message(PASSWORD_CHANGED, false), "error", true);
        return false;
      }
      return true;
    }
  }

  class SessionFactory {
    var redis: map<Sid, Data>

    constructor ()
      ensures redis == map[]
    {
      redis := map[];
    }

    method ProcessRequest(cookie: Option<Cookie>) returns (session: SessionObject)
      ensures fresh(session) && session.Snapshot() == Load(redis, cookie)
    {
      if cookie.None? || cookie.value.BadSignature? {
        session := new SessionObject(map[], None);
        return;
      }
      var sid := cookie.value.sid;
      if sid !in redis {
        session := new SessionObject(map[], None);
        return;
      }
      session := new SessionObject(redis[sid], Some(sid));
    }

    /** Deletes the invalidated records one by one, then stores the session if it changed. */
    method ProcessResponse(session: SessionObject, random: Sid) returns (action: CookieAction)
      modifies this, session`sid
      ensures (redis, action) == Respond(old(redis), old(session.Snapshot()), random)
    {
      action := KeepCookie;
      if session.invalidated != {} {
        var pending := session.invalidated;
        while pending != {}
          invariant pending <= session.invalidated && unchanged(session)
          invariant redis == old(redis) - (session.invalidated - pending)
          decreases pending
        {
          var sid :| sid in pending;
          redis := redis - {sid};
          pending := pending - {sid};
        }
        if !session.changed {
          action := DeleteCookie;
        }
      }
      assert redis == old(redis) - session.invalidated;
      if session.changed {
        var sid := session.ReadSid(random);
        redis := redis[sid := session.data];
        action := SetCookie(sid);
      }
    }
  }
}
