/** Notifying users of a terms-of-service update, and the banner flashed when they log in. */
module TermsOfService {
  import opened Common

  type UserId = nat
  type Revision = string

  datatype Kind = Flashed | Notified | Viewed | Agreed

  /** A row of `user_terms_of_service_engagements`. */
  datatype Engagement = Engagement(user: UserId, revision: Revision, created: Time, kind: Kind)

  const GRACE: Time := 30 * DAY

  /**
   * `eligible` holds the users with a verified primary address (each has at most one primary address);
   * `mailed` is the history of notifications sent.
   */
  datatype State = State(eligible: set<UserId>, engagements: seq<Engagement>, mailed: seq<(UserId, Revision)>)

  predicate Matches(e: Engagement, user: UserId, revision: Revision) {
    e.user == user && e.revision == revision
  }

  /** A notification or an agreement takes the user out of the query. */
  predicate Settled(engagements: seq<Engagement>, user: UserId, revision: Revision) {
    exists i :: 0 <= i < |engagements| && Matches(engagements[i], user, revision) &&
      (engagements[i].kind.Notified? || engagements[i].kind.Agreed?)
  }

  function Pending(s: State, revision: Revision): set<UserId> {
    set u | u in s.eligible && !Settled(s.engagements, u, revision)
  }

  /** What the query may return: it has a limit but no order. */
  predicate IsBatch(s: State, revision: Revision, limit: nat, batch: seq<UserId>) {
    && Distinct(batch)
    && (forall u :: u in batch ==> u in Pending(s, revision))
    && |batch| == if |Pending(s, revision)| < limit then |Pending(s, revision)| else limit
  }

  function Notifications(batch: seq<UserId>, revision: Revision, now: Time): seq<Engagement> {
    seq(|batch|, i requires 0 <= i < |batch| => Engagement(batch[i], revision, now, Notified))
  }

  function Mailings(batch: seq<UserId>, revision: Revision): seq<(UserId, Revision)> {
    seq(|batch|, i requires 0 <= i < |batch| => (batch[i], revision))
  }

  function AfterNotifying(s: State, batch: seq<UserId>, revision: Revision, now: Time): State {
    s.(engagements := s.engagements + Notifications(batch, revision, now), mailed := s.mailed + Mailings(batch, revision))
  }

  /** `needs_tos_flash`. */
  predicate NeedsFlash(engagements: seq<Engagement>, user: UserId, revision: Revision, now: Time) {
    forall i :: 0 <= i < |engagements| && Matches(engagements[i], user, revision) ==>
      engagements[i].created >= now - GRACE && !(engagements[i].kind.Viewed? || engagements[i].kind.Agreed?)
  }

  class TermsService {
    var eligible: set<UserId>
    var engagements: seq<Engagement>
    var mailed: seq<(UserId, Revision)>

    ghost function Snapshot(): State
      reads this
    {
      State(eligible, engagements, mailed)
    }

    constructor (eligible: set<UserId>)
      ensures Snapshot() == State(eligible, [], [])
    {
      this.eligible, engagements, mailed := eligible, [], [];
    }

    method RecordTosEngagement(user: UserId, revision: Revision, kind: Kind, now: Time)
      modifies this`engagements
      ensures engagements == old(engagements) + [Engagement(user, revision, now, kind)]
    {
      engagements := engagements + [Engagement(user, revision, now, kind)];
    }

    method NotifyUsersOfTosUpdate(batch: seq<UserId>, revision: Revision, limit: nat, now: Time)
      requires IsBatch(Snapshot(), revision, limit, batch)
      modifies this
      ensures Snapshot() == AfterNotifying(old(Snapshot()), batch, revision, now)
      ensures eligible == old(eligible) && |engagements| == |old(engagements)| + |batch| && |mailed| == |old(mailed)| + |batch|
      ensures engagements[..|old(engagements)|] == old(engagements) && mailed[..|old(mailed)|] == old(mailed)
      ensures forall i :: 0 <= i < |batch| ==>
        && engagements[|old(engagements)| + i] == Engagement(batch[i], revision, now, Notified)
        && mailed[|old(mailed)| + i] == (batch[i], revision)
    {
      for i := 0 to |batch|
        invariant Snapshot() == AfterNotifying(old(Snapshot()), batch[..i], revision, now)
      {
        mailed := mailed + [(batch[i], revision)];
        RecordTosEngagement(batch[i], revision, Notified, now);
        assert batch[..i + 1] == batch[..i] + [batch[i]];
      }
      assert batch[..|batch|] == batch;
    }

    /** The first query looks for any engagement older than 30 days, the second for an active one. */
    method NeedsTosFlash(user: UserId, revision: Revision, now: Time) returns (needed: bool)
      ensures needed == NeedsFlash(engagements, user, revision, now)
    {
      for i := 0 to |engagements|
        invariant forall j :: 0 <= j < i && Matches(engagements[j], user, revision) ==> engagements[j].created >= now - GRACE
      {
        if Matches(engagements[i], user, revision) && engagements[i].created < now - GRACE {
          return false;
        }
      }
      for i := 0 to |engagements|
        invariant forall j :: 0 <= j < i && Matches(engagements[j], user, revision) ==>
          !(engagements[j].kind.Viewed? || engagements[j].kind.Agreed?)
      {
        if Matches(engagements[i], user, revision) && (engagements[i].kind.Viewed? || engagements[i].kind.Agreed?) {
          return false;
        }
      }
      return true;
    }

    /** The last step of a login: flash the notice if needed, and say so. */
    method FlashOnLogin(user: UserId, revision: Revision, now: Time) returns (flashed: bool)
      modifies this`engagements
      ensures flashed == NeedsFlash(old(engagements), user, revision, now)
      ensures engagements == old(engagements) + (if flashed then [Engagement(user, revision, now, Flashed)] else [])
    {
      flashed := NeedsTosFlash(user, revision, now);
      if flashed {
        RecordTosEngagement(user, revision, Flashed, now);
      }
    }
  }

  // ---------- Runs ----------

  datatype Step =
    | Notify(batch: seq<UserId>, revision: Revision, limit: nat, now: Time)
    | LogIn(user: UserId, revision: Revision, now: Time)
    | Engage(user: UserId, revision: Revision, kind: Kind, now: Time)
    | SetEligible(user: UserId, eligible: bool)

  predicate Enabled(s: State, step: Step) {
    match step
    case Notify(batch, revision, limit, _) => IsBatch(s, revision, limit, batch)
    case Engage(_, _, kind, _) => kind.Viewed? || kind.Agreed?
    case _ => true
  }

  function Perform(s: State, step: Step): State {
    match step
    case Notify(batch, revision, _, now) => AfterNotifying(s, batch, revision, now)
    case LogIn(user, revision, now) =>
      if NeedsFlash(s.engagements, user, revision, now)
      then s.(engagements := s.engagements + [Engagement(user, revision, now, Flashed)]) else s
    case Engage(user, revision, kind, now) => s.(engagements := s.engagements + [Engagement(user, revision, now, kind)])
    case SetEligible(user, eligible) => s.(eligible := if eligible then s.eligible + {user} else s.eligible - {user})
  }

  predicate ValidRun(s: State, steps: seq<Step>)
    decreases |steps|
  {
    steps != [] ==> Enabled(s, steps[0]) && ValidRun(Perform(s, steps[0]), steps[1..])
  }

  function Run(s: State, steps: seq<Step>): State
    decreases |steps|
  {
    if steps == [] then s else Run(Perform(s, steps[0]), steps[1..])
  }

  ghost predicate Inv(s: State) {
    && Distinct(s.mailed)
    && (forall i :: 0 <= i < |s.mailed| ==> Settled(s.engagements, s.mailed[i].0, s.mailed[i].1))
    && (forall i :: 0 <= i < |s.engagements| && s.engagements[i].kind.Flashed? ==>
          NeedsFlash(s.engagements[..i], s.engagements[i].user, s.engagements[i].revision, s.engagements[i].created))
  }

  lemma SettledStays(a: seq<Engagement>, b: seq<Engagement>, user: UserId, revision: Revision)
    requires Settled(a, user, revision)
    ensures Settled(a + b, user, revision)
  {
    var i :| 0 <= i < |a| && Matches(a[i], user, revision) && (a[i].kind.Notified? || a[i].kind.Agreed?);
    assert (a + b)[i] == a[i];
  }

  lemma NotifySettles(s: State, batch: seq<UserId>, revision: Revision, now: Time, user: UserId)
    requires user in batch
    ensures Settled(AfterNotifying(s, batch, revision, now).engagements, user, revision)
  {
    var i :| 0 <= i < |batch| && batch[i] == user;
    assert AfterNotifying(s, batch, revision, now).engagements[|s.engagements| + i] == Engagement(user, revision, now, Notified);
  }

  lemma SettledAfterNotifying(s: State, batch: seq<UserId>, revision: Revision, now: Time, user: UserId)
    ensures Settled(AfterNotifying(s, batch, revision, now).engagements, user, revision) <==>
      Settled(s.engagements, user, revision) || user in batch
  {
    var added := Notifications(batch, revision, now);
    if user in batch {
      NotifySettles(s, batch, revision, now, user);
    } else if Settled(s.engagements, user, revision) {
      SettledStays(s.engagements, added, user, revision);
    } else {
      assert forall i :: 0 <= i < |added| ==> added[i].user != user;
    }
  }

  /** Appending engagements of which only the last may be a justified flash keeps the flash history sound. */
  lemma AppendKeepsFlashes(a: seq<Engagement>, b: seq<Engagement>)
    requires forall i :: 0 <= i < |a| && a[i].kind.Flashed? ==> NeedsFlash(a[..i], a[i].user, a[i].revision, a[i].created)
    requires forall i :: 0 <= i < |b| && b[i].kind.Flashed? ==> i == 0 && NeedsFlash(a, b[i].user, b[i].revision, b[i].created)
    ensures forall i :: 0 <= i < |a + b| && (a + b)[i].kind.Flashed? ==>
      NeedsFlash((a + b)[..i], (a + b)[i].user, (a + b)[i].revision, (a + b)[i].created)
  {
    forall i | 0 <= i < |a + b| && (a + b)[i].kind.Flashed?
      ensures NeedsFlash((a + b)[..i], (a + b)[i].user, (a + b)[i].revision, (a + b)[i].created)
    {
      if i < |a| {
        assert (a + b)[..i] == a[..i];
      } else {
        assert (a + b)[i] == b[i - |a|];
        assert (a + b)[..i] == a;
      }
    }
  }

  lemma StepKeepsInv(s: State, step: Step)
    requires Inv(s) && Enabled(s, step)
    ensures Inv(Perform(s, step))
  {
    var t := Perform(s, step);
    var added := t.engagements[|s.engagements|..];
    assert t.engagements == s.engagements + added;
    AppendKeepsFlashes(s.engagements, added);
    forall i | 0 <= i < |t.mailed|
      ensures Settled(t.engagements, t.mailed[i].0, t.mailed[i].1)
    {
      if i < |s.mailed| {
        assert t.mailed[i] == s.mailed[i];
        SettledStays(s.engagements, added, s.mailed[i].0, s.mailed[i].1);
      } else {
        NotifySettles(s, step.batch, step.revision, step.now, t.mailed[i].0);
      }
    }
    forall i, j | 0 <= i < j < |t.mailed|
      ensures t.mailed[i] != t.mailed[j]
    {
      if i < |s.mailed| <= j {
        assert t.mailed[j].0 in step.batch;
        assert t.mailed[i] == s.mailed[i] && Settled(s.engagements, s.mailed[i].0, s.mailed[i].1);
      }
    }
  }

  lemma {:induction false} RunKeepsInv(s: State, steps: seq<Step>)
    requires Inv(s) && ValidRun(s, steps)
    ensures Inv(Run(s, steps))
    decreases |steps|
  {
    if steps == [] {
    } else {
      StepKeepsInv(s, steps[0]);
      RunKeepsInv(Perform(s, steps[0]), steps[1..]);
    }
  }

  const INITIAL := State({}, [], [])

  /** Over every run, nobody is mailed twice about one revision. */
  lemma NotifiedAtMostOnce(steps: seq<Step>, i: nat, j: nat)
    requires ValidRun(INITIAL, steps)
    requires i < j < |Run(INITIAL, steps).mailed|
    ensures Run(INITIAL, steps).mailed[i] != Run(INITIAL, steps).mailed[j]
  {
    RunKeepsInv(INITIAL, steps);
  }

  /**
   * Over every run, a banner is flashed at most 30 days after any earlier engagement with the same
   * revision, and never after the user viewed or agreed to it.
   */
  lemma FlashesOnlyInGracePeriod(steps: seq<Step>, i: nat, j: nat)
    requires ValidRun(INITIAL, steps)
    requires i < j < |Run(INITIAL, steps).engagements|
    requires var e := Run(INITIAL, steps).engagements; e[j].kind.Flashed? && Matches(e[i], e[j].user, e[j].revision)
    ensures var e := Run(INITIAL, steps).engagements;
      e[j].created <= e[i].created + GRACE && !e[i].kind.Viewed? && !e[i].kind.Agreed?
  {
    RunKeepsInv(INITIAL, steps);
    var e := Run(INITIAL, steps).engagements;
    assert e[..j][i] == e[i];
  }

  /** Once no banner is needed, none is needed later, whatever engagements follow. */
  lemma NoFlashIsFinal(engagements: seq<Engagement>, more: seq<Engagement>, user: UserId, revision: Revision, now: Time, later: Time)
    requires now <= later && !NeedsFlash(engagements, user, revision, now)
    ensures !NeedsFlash(engagements + more, user, revision, later)
  {
    var i :| 0 <= i < |engagements| && Matches(engagements[i], user, revision) &&
      !(engagements[i].created >= now - GRACE && !(engagements[i].kind.Viewed? || engagements[i].kind.Agreed?));
    assert (engagements + more)[i] == engagements[i];
  }

  // ---------- Who is left out ----------

  /** Whom the query selects from, on the rows: eligible, and neither notified of the revision nor in agreement with it. */
  lemma PendingIff(s: State, user: UserId, revision: Revision)
    ensures user in Pending(s, revision) <==>
      && user in s.eligible
      && forall i :: 0 <= i < |s.engagements| && s.engagements[i].user == user && s.engagements[i].revision == revision ==>
           s.engagements[i].kind != Notified && s.engagements[i].kind != Agreed
  {
    assert forall i :: 0 <= i < |s.engagements| ==>
      (Matches(s.engagements[i], user, revision) <==> s.engagements[i].user == user && s.engagements[i].revision == revision);
  }

  predicate HasAgreed(s: State, user: UserId, revision: Revision) {
    exists i :: 0 <= i < |s.engagements| && s.engagements[i].user == user && s.engagements[i].revision == revision && s.engagements[i].kind == Agreed
  }

  lemma StepMailsNoAgreed(s: State, step: Step, user: UserId, revision: Revision)
    requires Enabled(s, step) && HasAgreed(s, user, revision)
    ensures var t := Perform(s, step);
      && HasAgreed(t, user, revision) && s.mailed <= t.mailed
      && forall i :: |s.mailed| <= i < |t.mailed| ==> t.mailed[i] != (user, revision)
  {
    var t := Perform(s, step);
    var k :| 0 <= k < |s.engagements| && s.engagements[k].user == user && s.engagements[k].revision == revision && s.engagements[k].kind == Agreed;
    assert t.engagements[k] == s.engagements[k];
    if step.Notify? {
      PendingIff(s, user, step.revision);
      forall i | |s.mailed| <= i < |t.mailed|
        ensures t.mailed[i] != (user, revision)
      {
        assert t.mailed[i] == (step.batch[i - |s.mailed|], step.revision);
      }
    }
  }

  /** Who agreed to a revision, on registering or later, is never mailed about it again, whatever happens. */
  lemma {:induction false} AgreedIsNeverMailed(s: State, steps: seq<Step>, user: UserId, revision: Revision)
    requires ValidRun(s, steps) && HasAgreed(s, user, revision)
    ensures var t := Run(s, steps);
      s.mailed <= t.mailed && forall i :: |s.mailed| <= i < |t.mailed| ==> t.mailed[i] != (user, revision)
    decreases |steps|
  {
    if steps == [] {
    } else {
      StepMailsNoAgreed(s, steps[0], user, revision);
      AgreedIsNeverMailed(Perform(s, steps[0]), steps[1..], user, revision);
    }
  }

  /**
   * When a login flashes the banner, on the rows: every engagement of the user with the revision is at
   * most thirty days old and only a flash or a notification; so always when there is none.
   */
  lemma FlashIsDueIff(s: State, user: UserId, revision: Revision, now: Time)
    ensures var t := Perform(s, LogIn(user, revision, now));
      t.engagements ==
        if forall i :: 0 <= i < |s.engagements| && s.engagements[i].user == user && s.engagements[i].revision == revision ==>
             now <= s.engagements[i].created + 30 * DAY && s.engagements[i].kind in {Flashed, Notified}
        then s.engagements + [Engagement(user, revision, now, Flashed)] else s.engagements
  {
    assert forall i :: 0 <= i < |s.engagements| ==>
      (Matches(s.engagements[i], user, revision) <==> s.engagements[i].user == user && s.engagements[i].revision == revision);
  }

  // ---------- Everyone is notified ----------

  /** A run of the job takes exactly its batch out of the pending users. */
  lemma NotifyShrinksPending(s: State, batch: seq<UserId>, revision: Revision, limit: nat, now: Time)
    requires IsBatch(s, revision, limit, batch)
    ensures var t := AfterNotifying(s, batch, revision, now);
      && Pending(t, revision) == Pending(s, revision) - Elements(batch)
      && |Pending(t, revision)| == |Pending(s, revision)| - |batch|
  {
    var t := AfterNotifying(s, batch, revision, now);
    forall u {
      SettledAfterNotifying(s, batch, revision, now, u);
    }
    DistinctCount(batch);
    assert Pending(s, revision) == Pending(t, revision) + Elements(batch);
  }

  /** Nobody becomes eligible, and the job takes `limit` users at a time for this revision. */
  predicate NobodyJoins(steps: seq<Step>, revision: Revision, limit: nat) {
    forall k :: 0 <= k < |steps| ==>
      && (steps[k].SetEligible? ==> !steps[k].eligible)
      && (steps[k].Notify? && steps[k].revision == revision ==> steps[k].limit == limit)
  }

  /** The user does not stop being eligible, and does not agree to the revision. */
  predicate Stays(steps: seq<Step>, user: UserId, revision: Revision) {
    forall k :: 0 <= k < |steps| ==>
      && !(steps[k].SetEligible? && steps[k].user == user && !steps[k].eligible)
      && !(steps[k].Engage? && steps[k].user == user && steps[k].revision == revision && steps[k].kind.Agreed?)
  }

  /** The runs of the job for this revision. */
  function Jobs(steps: seq<Step>, revision: Revision): nat {
    if steps == [] then 0
    else (if steps[0].Notify? && steps[0].revision == revision then 1 else 0) + Jobs(steps[1..], revision)
  }

  predicate Mailed(s: State, user: UserId, revision: Revision) {
    (user, revision) in s.mailed
  }

  /** A step other than a run of the job for this revision adds nobody to the pending users. */
  lemma OtherStepsAddNobody(s: State, step: Step, revision: Revision)
    requires Enabled(s, step) && (step.SetEligible? ==> !step.eligible) && !(step.Notify? && step.revision == revision)
    ensures Pending(Perform(s, step), revision) <= Pending(s, revision)
  {
    var t := Perform(s, step);
    var added := t.engagements[|s.engagements|..];
    assert t.engagements == s.engagements + added;
    forall u | u in Pending(t, revision)
      ensures u in Pending(s, revision)
    {
      if Settled(s.engagements, u, revision) {
        SettledStays(s.engagements, added, u, revision);
      }
    }
  }

  lemma OneBatchLess(pending: nat, runs: nat, limit: nat)
    requires runs > 0 && pending <= runs * limit
    ensures pending - (if pending < limit then pending else limit) <= (runs - 1) * limit
  {
    assert runs * limit == (runs - 1) * limit + limit;
  }

  lemma StepDrains(s: State, steps: seq<Step>, revision: Revision, limit: nat)
    requires steps != [] && ValidRun(s, steps) && NobodyJoins(steps, revision, limit)
    requires |Pending(s, revision)| <= Jobs(steps, revision) * limit
    ensures |Pending(Perform(s, steps[0]), revision)| <= Jobs(steps[1..], revision) * limit
  {
    var step := steps[0];
    if step.Notify? && step.revision == revision {
      NotifyShrinksPending(s, step.batch, revision, limit, step.now);
      OneBatchLess(|Pending(s, revision)|, Jobs(steps, revision), limit);
    } else {
      OtherStepsAddNobody(s, step, revision);
      SubsetCount(Pending(Perform(s, step), revision), Pending(s, revision));
    }
  }

  /** Enough runs of the job leave nobody to notify, whatever else happens in between. */
  lemma {:induction false} RunsDrainPending(s: State, steps: seq<Step>, revision: Revision, limit: nat)
    requires ValidRun(s, steps) && NobodyJoins(steps, revision, limit)
    requires |Pending(s, revision)| <= Jobs(steps, revision) * limit
    ensures Pending(Run(s, steps), revision) == {}
    decreases |steps|
  {
    if steps == [] {
    } else {
      StepDrains(s, steps, revision, limit);
      assert forall k :: 0 <= k < |steps| - 1 ==> steps[1..][k] == steps[k + 1];
      RunsDrainPending(Perform(s, steps[0]), steps[1..], revision, limit);
    }
  }

  /** Somebody who stays pending or mailed: only a notification takes such a user out of the pending ones. */
  lemma StepMailsOrKeepsPending(s: State, step: Step, revision: Revision, user: UserId)
    requires Enabled(s, step) && Stays([step], user, revision)
    requires user in Pending(s, revision) || Mailed(s, user, revision)
    ensures user in Pending(Perform(s, step), revision) || Mailed(Perform(s, step), user, revision)
  {
    var t := Perform(s, step);
    assert [step][0] == step;
    if Mailed(s, user, revision) {
      var i :| 0 <= i < |s.mailed| && s.mailed[i] == (user, revision);
      assert t.mailed[i] == s.mailed[i];
    } else if step.Notify? {
      if step.revision == revision {
        SettledAfterNotifying(s, step.batch, revision, step.now, user);
        if user in step.batch {
          var i :| 0 <= i < |step.batch| && step.batch[i] == user;
          assert t.mailed[|s.mailed| + i] == (user, revision);
        }
      } else {
        assert forall i :: 0 <= i < |t.engagements| && Matches(t.engagements[i], user, revision) ==> i < |s.engagements|;
      }
    }
  }

  /** The steps that make somebody eligible. */
  function Joins(steps: seq<Step>): nat {
    if steps == [] then 0 else (if steps[0].SetEligible? && steps[0].eligible then 1 else 0) + Joins(steps[1..])
  }

  predicate JobsTake(steps: seq<Step>, revision: Revision, limit: nat) {
    forall k :: 0 <= k < |steps| && steps[k].Notify? && steps[k].revision == revision ==> steps[k].limit == limit
  }

  predicate IsJob(step: Step, revision: Revision) {
    step.Notify? && step.revision == revision
  }

  predicate IsJoin(step: Step) {
    step.SetEligible? && step.eligible
  }

  lemma JoiningAddsOne(s: State, step: Step, revision: Revision)
    requires Enabled(s, step) && IsJoin(step)
    ensures |Pending(Perform(s, step), revision)| <= |Pending(s, revision)| + 1
  {
    SubsetCount(Pending(Perform(s, step), revision), Pending(s, revision) + {step.user});
  }

  /** While somebody stays pending, every run of the job takes a full batch of others. */
  lemma JobTakesFullBatch(s: State, step: Step, revision: Revision)
    requires Enabled(s, step) && IsJob(step, revision) && Pending(Perform(s, step), revision) != {}
    ensures |Pending(Perform(s, step), revision)| + step.limit == |Pending(s, revision)|
  {
    NotifyShrinksPending(s, step.batch, revision, step.limit, step.now);
  }

  lemma StepLeavesPending(s: State, step: Step, revision: Revision, limit: nat)
    requires Enabled(s, step) && (IsJob(step, revision) ==> step.limit == limit) && Pending(Perform(s, step), revision) != {}
    ensures |Pending(Perform(s, step), revision)| + (if IsJob(step, revision) then limit else 0)
      <= |Pending(s, revision)| + (if IsJoin(step) then 1 else 0)
  {
    hide Pending, Perform, Enabled;
    if IsJob(step, revision) {
      JobTakesFullBatch(s, step, revision);
    } else if IsJoin(step) {
      JoiningAddsOne(s, step, revision);
    } else {
      OtherStepsAddNobody(s, step, revision);
      SubsetCount(Pending(Perform(s, step), revision), Pending(s, revision));
    }
  }

  lemma OneJobMore(jobs: nat, limit: nat)
    ensures (1 + jobs) * limit == limit + jobs * limit
  {
  }

  /** A user who stays eligible and unmailed leaves the job this little to have done. */
  lemma {:induction false} UnmailedBound(s: State, steps: seq<Step>, revision: Revision, limit: nat, user: UserId)
    requires ValidRun(s, steps) && JobsTake(steps, revision, limit) && Stays(steps, user, revision)
    requires user in Pending(s, revision) && !Mailed(Run(s, steps), user, revision)
    ensures Jobs(steps, revision) * limit < |Pending(s, revision)| + Joins(steps)
    decreases |steps|
  {
    if steps == [] {
    } else {
      var step, rest := steps[0], steps[1..];
      var t := Perform(s, step);
      assert forall k :: 0 <= k < |rest| ==> rest[k] == steps[k + 1];
      assert [step][0] == step;
      StepMailsOrKeepsPending(s, step, revision, user);
      if Mailed(t, user, revision) {
        MailedStays(t, rest, revision, user);
      }
      StepLeavesPending(s, step, revision, limit);
      UnmailedBound(t, rest, revision, limit, user);
      OneJobMore(Jobs(rest, revision), limit);
    }
  }

  lemma {:induction false} MailedStays(s: State, steps: seq<Step>, revision: Revision, user: UserId)
    requires ValidRun(s, steps) && Mailed(s, user, revision)
    ensures Mailed(Run(s, steps), user, revision)
    decreases |steps|
  {
    if steps == [] {
    } else {
      var i :| 0 <= i < |s.mailed| && s.mailed[i] == (user, revision);
      assert Perform(s, steps[0]).mailed[i] == s.mailed[i];
      MailedStays(Perform(s, steps[0]), steps[1..], revision, user);
    }
  }

  /** The one mail about this revision to this user is number `i`. */
  predicate OnlyAt(mailed: seq<(UserId, Revision)>, i: nat, user: UserId, revision: Revision) {
    i < |mailed| && forall j :: 0 <= j < |mailed| ==> (mailed[j] == (user, revision) <==> j == i)
  }

  /**
   * With `n` users to notify, `j` who become eligible meanwhile and batches of `b`, any number
   * k >= (n + j) / b of runs of the job leaves a user who stays eligible and does not agree mailed exactly
   * once. Between the runs anybody may log in, view, agree, join or leave, and other revisions may be
   * notified.
   */
  lemma EveryoneIsNotifiedOnce(before: seq<Step>, steps: seq<Step>, revision: Revision, limit: nat, user: UserId)
    requires ValidRun(INITIAL, before) && ValidRun(Run(INITIAL, before), steps) && JobsTake(steps, revision, limit)
    requires Jobs(steps, revision) * limit >= |Pending(Run(INITIAL, before), revision)| + Joins(steps)
    requires user in Pending(Run(INITIAL, before), revision) && Stays(steps, user, revision)
    ensures exists i :: OnlyAt(Run(Run(INITIAL, before), steps).mailed, i, user, revision)
  {
    RunKeepsInv(INITIAL, before);
    RunKeepsInv(Run(INITIAL, before), steps);
    var mailed := Run(Run(INITIAL, before), steps).mailed;
    if !Mailed(Run(Run(INITIAL, before), steps), user, revision) {
      UnmailedBound(Run(INITIAL, before), steps, revision, limit, user);
    }
    var i :| 0 <= i < |mailed| && mailed[i] == (user, revision);
    assert OnlyAt(mailed, i, user, revision);
  }
}
