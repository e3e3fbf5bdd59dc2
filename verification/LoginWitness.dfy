/**
 * Concrete runs at the edges of the protocol's promises: a user stranded because the window was opened
 * while the account had another primary address than now, or none; a token that logs in twice because
 * the clock stood still.
 */
module LoginWitness {
  import opened Common
  import opened LoginProtocol
  import opened LoginLinks

  lemma {:induction false} RunSnoc(s: State, run: seq<Request>, r: Request)
    requires ValidRun(s, run) && Enabled(Run(s, run), r)
    ensures ValidRun(s, run + [r]) && Run(s, run + [r]) == Step(Run(s, run), r)
    decreases |run|
  {
    if run == [] {
      assert [] + [r] == [r] && [r][1..] == [];
    } else {
      RunSnoc(Step(s, run[0]), run[1..], r);
      assert (run + [r])[1..] == run[1..] + [r];
    }
  }

  const HOME: IpId := 7
  const CAFE: IpId := 8
  const OFFICE: IpId := 9
  const TOKEN := TwoFactorToken(1, 0)

  function Attempt(ip: IpId, newId: LoginId): Request {
    Request(SubmitTotp(TOKEN, ip, "123456", true, false), 0, newId)
  }

  const NEW_ADDRESS := "user@example.com"
  const NEW_EMAIL := Some(Email(NEW_ADDRESS, true))

  const OFFICE_ROW := UniqueLogin(1, OFFICE, CONFIRMED, None)
  const HOME_ROW := UniqueLogin(1, HOME, PENDING, Some(WINDOW))
  const CAFE_ROW := UniqueLogin(1, CAFE, PENDING, Some(WINDOW))
  const HOME_LINK := ConfirmToken(1, 100, false, 0)
  const CAFE_LINK := ConfirmToken(1, 200, false, 0)
  const REGISTERED := [LoginRecord(1, OFFICE, Registration, 0)]
  const CAFE_MAIL := Mail(NEW_ADDRESS, CAFE_LINK, 0)

  function Account(email: Option<Email>): User {
    User(0, email, true, false, None, [])
  }

  /** What the first attempt from home mails. */
  function HomeMail(email: Option<Email>): seq<Mail> {
    if email.Some? then [Mail(email.value.address, HOME_LINK, 0)] else []
  }

  /** After registering, enrolling, and entering the password at home. */
  function SecondFactorAsked(email: Option<Email>): State {
    State(0, map[1 := Account(email)], map[50 := OFFICE_ROW], {}, {TOKEN}, [], map[], REGISTERED)
  }

  /** After the first attempt from home. */
  function OpenedAtHome(email: Option<Email>): State {
    SecondFactorAsked(email).(logins := map[50 := OFFICE_ROW, 100 := HOME_ROW], confirmTokens := {HOME_LINK}, mails := HomeMail(email))
  }

  const CHANGE := Request(ChangeEmail(1, NEW_EMAIL), 0, 200)

  function AddressChanged(email: Option<Email>): State {
    OpenedAtHome(email).(users := map[1 := Account(NEW_EMAIL)])
  }

  /** After an attempt from the cafe, which is mailed to the new address. */
  function AttemptedAtCafe(email: Option<Email>): State {
    AddressChanged(email).(
      logins := map[50 := OFFICE_ROW, 100 := HOME_ROW, 200 := CAFE_ROW],
      confirmTokens := {HOME_LINK, CAFE_LINK}, mails := HomeMail(email) + [CAFE_MAIL])
  }

  const DELIVER := Request(Deliver(CAFE_MAIL), 0, 300)

  function MailedToCafe(email: Option<Email>): State {
    AttemptedAtCafe(email).(delivered := map[NEW_ADDRESS := 0])
  }

  lemma OpensAtHome(email: Option<Email>) returns (run: seq<Request>)
    ensures ValidRun(INITIAL, run) && Run(INITIAL, run) == OpenedAtHome(email)
    ensures run != [] && run[0].event == Register(1, email, OFFICE)
  {
    run := AsksForSecondFactor(email);
    AttemptsFromHome(email);
    RunSnoc(INITIAL, run, Attempt(HOME, 100));
    run := run + [Attempt(HOME, 100)];
  }

  lemma AsksForSecondFactor(email: Option<Email>) returns (run: seq<Request>)
    ensures ValidRun(INITIAL, run) && Run(INITIAL, run) == SecondFactorAsked(email)
    ensures run != [] && run[0].event == Register(1, email, OFFICE)
  {
    var register := Request(Register(1, email, OFFICE), 0, 50);
    var enroll := Request(Enroll(1, true, false), 0, 100);
    var password := Request(SubmitPassword(1, HOME, false), 0, 100);
    RunSnoc(INITIAL, [], register);
    RunSnoc(INITIAL, [register], enroll);
    RunSnoc(INITIAL, [register] + [enroll], password);
    run := [register] + [enroll] + [password];
    assert Run(INITIAL, run).users == map[1 := Account(email)];
  }

  lemma AttemptsFromHome(email: Option<Email>)
    ensures Enabled(SecondFactorAsked(email), Attempt(HOME, 100))
    ensures Step(SecondFactorAsked(email), Attempt(HOME, 100)) == OpenedAtHome(email)
  {
    var s := SecondFactorAsked(email);
    assert FindLogin(s.logins, 1, HOME).None?;
    assert s.logins[100 := HOME_ROW] == OpenedAtHome(email).logins;
  }

  lemma MailsToCafe(email: Option<Email>) returns (run: seq<Request>)
    ensures ValidRun(INITIAL, run) && Run(INITIAL, run) == MailedToCafe(email)
    ensures run != [] && run[0].event == Register(1, email, OFFICE)
  {
    hide OpenedAtHome, AddressChanged, AttemptedAtCafe, MailedToCafe, Enabled;
    run := OpensAtHome(email);
    ChangesAddress(email);
    RunSnoc(INITIAL, run, CHANGE);
    run := run + [CHANGE];
    AttemptsFromCafe(email);
    RunSnoc(INITIAL, run, Attempt(CAFE, 200));
    run := run + [Attempt(CAFE, 200)];
    DeliversToCafe(email);
    RunSnoc(INITIAL, run, DELIVER);
    run := run + [DELIVER];
  }

  lemma ChangesAddress(email: Option<Email>)
    ensures Enabled(OpenedAtHome(email), CHANGE) && Step(OpenedAtHome(email), CHANGE) == AddressChanged(email)
  {
    assert OpenedAtHome(email).users[1 := Account(NEW_EMAIL)] == AddressChanged(email).users;
  }

  lemma AttemptsFromCafe(email: Option<Email>)
    ensures Enabled(AddressChanged(email), Attempt(CAFE, 200))
    ensures Step(AddressChanged(email), Attempt(CAFE, 200)) == AttemptedAtCafe(email)
  {
    var s := AddressChanged(email);
    assert FindLogin(s.logins, 1, CAFE).None?;
    assert s.logins[200 := CAFE_ROW] == AttemptedAtCafe(email).logins;
  }

  lemma DeliversToCafe(email: Option<Email>)
    ensures Enabled(AttemptedAtCafe(email), DELIVER) && Step(AttemptedAtCafe(email), DELIVER) == MailedToCafe(email)
  {
    assert AttemptedAtCafe(email).mails[|HomeMail(email)|] == CAFE_MAIL;
  }

  /**
   * The next attempt from home is throttled by the mail about the cafe, and no link for home ever went
   * to the present address. This happens both to an account registered without an address and to one
   * that had an address all along, but another one when the window was opened.
   */
  lemma AnotherDeviceTripsTheThrottle(email: Option<Email>)
    requires AddressOf(email) != Some(NEW_ADDRESS)
    ensures exists run: seq<Request> ::
      && ValidRun(INITIAL, run) && Enabled(Run(INITIAL, run), Attempt(HOME, 300))
      && run != [] && run[0].event == Register(1, email, OFFICE)
      && Run(INITIAL, run).now == 0
      && Handle(Run(INITIAL, run), Attempt(HOME, 300)).1.ConfirmationRequired?
      && Step(Run(INITIAL, run), Attempt(HOME, 300)).users[1].primaryEmail == NEW_EMAIL
      && !HasUsableLink(Step(Run(INITIAL, run), Attempt(HOME, 300)), 1, HOME)
  {
    var run := MailsToCafe(email);
    ThrottledAtHome(email);
    NoLinkForHome(email);
  }

  /** The attempt adds nothing to the state it finds. */
  lemma ThrottledAtHome(email: Option<Email>)
    ensures Enabled(MailedToCafe(email), Attempt(HOME, 300))
    ensures Handle(MailedToCafe(email), Attempt(HOME, 300)).1.ConfirmationRequired?
    ensures Step(MailedToCafe(email), Attempt(HOME, 300)) == MailedToCafe(email)
  {
    var s := MailedToCafe(email);
    assert s.logins[100] == HOME_ROW && s.logins[200] == CAFE_ROW;
    assert FindLogin(s.logins, 1, HOME) == Some(100);
    assert s.logins[100 := HOME_ROW] == s.logins;
  }

  lemma NoLinkForHome(email: Option<Email>)
    requires AddressOf(email) != Some(NEW_ADDRESS)
    ensures !HasUsableLink(MailedToCafe(email), 1, HOME)
  {
    assert ConfirmLogin(MailedToCafe(email), CAFE_LINK, HOME, 300).1.Rejected?;
    assert !LinkWorks(MailedToCafe(email), CAFE_LINK, HOME);
  }

  /** A login at the very instant of the token's stamp leaves the token alive: it logs in a second time. */
  lemma TokenLogsInTwiceAtItsStamp()
    ensures exists run: seq<Request>, first: Request, second: Request ::
      && ValidRun(INITIAL, run) && Enabled(Run(INITIAL, run), first) && Enabled(Step(Run(INITIAL, run), first), second)
      && Run(INITIAL, run).now == first.now == second.now
      && first.event == SubmitWebAuthn(TOKEN, CAFE, true) == second.event
      && Handle(Run(INITIAL, run), first).1.LoggedIn? && Handle(Step(Run(INITIAL, run), first), second).1.LoggedIn?
  {
    var run := OpensAtHome(None);
    var first := Request(SubmitWebAuthn(TOKEN, CAFE, true), 0, 300);
    var second := first.(newId := 400);
    var s := Run(INITIAL, run);
    assert s == s.(now := 0);
    var t := Step(s, first);
    assert t.users[1].lastLogin == 0 && t.twoFactorTokens == {TOKEN} && t.now == 0;
    assert 400 !in t.logins;
    assert t == t.(now := 0);
    assert TwoFactorTokenAccepted(t, TOKEN);
  }
}
