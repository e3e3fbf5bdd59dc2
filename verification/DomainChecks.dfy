/** The batch job that re-checks email domains, oldest first, a thousand at a time. */
module DomainChecks {
  import opened Common

  type EmailId = nat

  /** A domain status; the empty one is what a failed lookup yields. */
  type Status = seq<string>

  datatype Email = Email(lastChecked: Option<Time>, lastStatus: Status)

  const RECHECK_AFTER: Time := 30 * DAY
  const BACKDATE: Time := 23 * DAY
  const BATCH_LIMIT := 1000

  /** `update_email_domain_status`: a failed lookup is dated back so that it is retried sooner. */
  function Checked(email: Email, status: Status, now: Time): Email {
    if status != [] then Email(Some(now), status) else email.(lastChecked := Some(now - BACKDATE))
  }

  predicate Due(email: Email, now: Time) {
    email.lastChecked.None? || email.lastChecked.value < now - RECHECK_AFTER
  }

  /** Ascending order of `domain_last_checked`, nulls first. */
  predicate NoLater(a: Email, b: Email) {
    a.lastChecked.None? || (b.lastChecked.Some? && a.lastChecked.value <= b.lastChecked.value)
  }

  type Table = map<EmailId, Email>

  function DueIds(emails: Table, now: Time): set<EmailId> {
    set id | id in emails && Due(emails[id], now)
  }

  /** What the query may return: ties are broken as the database pleases. */
  ghost predicate IsBatch(emails: Table, now: Time, batch: seq<EmailId>) {
    && Distinct(batch)
    && (forall id :: id in batch ==> id in DueIds(emails, now))
    && |batch| == (if |DueIds(emails, now)| < BATCH_LIMIT then |DueIds(emails, now)| else BATCH_LIMIT)
    && (forall i, j :: 0 <= i < j < |batch| && batch[i] in emails && batch[j] in emails ==>
          NoLater(emails[batch[i]], emails[batch[j]]))
    && (forall id, other :: id in batch && other in DueIds(emails, now) && other !in batch ==> NoLater(emails[id], emails[other]))
  }

  function AfterBatch(emails: Table, batch: seq<EmailId>, lookup: EmailId -> Status, now: Time): Table {
    map id | id in emails :: if id in batch then Checked(emails[id], lookup(id), now) else emails[id]
  }

  class EmailTable {
    var emails: Table

    constructor ()
      ensures emails == map[]
    {
      emails := map[];
    }

    method UpdateEmailDomainStatus(id: EmailId, status: Status, now: Time)
      requires id in emails
      modifies this
      ensures emails == old(emails)[id := Checked(old(emails)[id], status, now)]
      ensures emails[id].lastStatus == (if status == [] then old(emails)[id].lastStatus else status)
      ensures emails[id].lastChecked == Some(if status == [] then now - 23 * DAY else now)
    {
      if status != [] {
        emails := emails[id := emails[id].(lastChecked := Some(now))];
        emails := emails[id := emails[id].(lastStatus := status)];
      } else {
        emails := emails[id := emails[id].(lastChecked := Some(now - BACKDATE))];
      }
    }

    method BatchUpdateEmailDomainStatus(batch: seq<EmailId>, lookup: EmailId -> Status, now: Time)
      requires IsBatch(emails, now, batch)
      modifies this
      ensures emails == AfterBatch(old(emails), batch, lookup, now)
    {
      for i := 0 to |batch|
        invariant emails == AfterBatch(old(emails), batch[..i], lookup, now)
      {
        assert batch[i] in DueIds(old(emails), now);
        UpdateEmailDomainStatus(batch[i], lookup(batch[i]), now);
        assert batch[..i + 1] == batch[..i] + [batch[i]];
      }
      assert batch[..|batch|] == batch;
    }
  }

  /** A checked address is due again strictly after 30 days when the lookup succeeded, after 7 when it failed. */
  lemma DueAgainIff(email: Email, status: Status, now: Time, later: Time)
    ensures Due(Checked(email, status, now), later) <==> later > now + (if status != [] then 30 * DAY else 7 * DAY)
  {
    assert RECHECK_AFTER - BACKDATE == 7 * DAY;
  }

  // ---------- Nobody waits for ever ----------

  /** The job, a single check (on verification, or by an admin), a new address, or the deletion of one. */
  datatype Step =
    | RunJob(batch: seq<EmailId>, lookup: EmailId -> Status, now: Time)
    | CheckOne(id: EmailId, status: Status, now: Time)
    | Add(id: EmailId, now: Time)
    | Remove(id: EmailId, now: Time)

  ghost predicate Enabled(emails: Table, clock: Time, step: Step) {
    clock <= step.now && match step
                         case RunJob(batch, _, now) => IsBatch(emails, now, batch)
                         case CheckOne(id, _, _) => id in emails
                         case Add(id, _) => id !in emails
                         case Remove(id, _) => id in emails
  }

  function Perform(emails: Table, step: Step): Table {
    match step
    case RunJob(batch, lookup, now) => AfterBatch(emails, batch, lookup, now)
    case CheckOne(id, status, now) => if id in emails then emails[id := Checked(emails[id], status, now)] else emails
    case Add(id, _) => emails[id := Email(None, [])]
    case Remove(id, _) => emails - {id}
  }

  ghost predicate ValidRun(emails: Table, clock: Time, steps: seq<Step>)
    decreases |steps|
  {
    steps != [] ==> Enabled(emails, clock, steps[0]) && ValidRun(Perform(emails, steps[0]), steps[0].now, steps[1..])
  }

  function JobRuns(steps: seq<Step>): nat {
    if steps == [] then 0 else (if steps[0].RunJob? then 1 else 0) + JobRuns(steps[1..])
  }

  function Additions(steps: seq<Step>): nat {
    if steps == [] then 0 else (if steps[0].Add? then 1 else 0) + Additions(steps[1..])
  }

  predicate Serves(step: Step, id: EmailId) {
    match step
    case RunJob(batch, _, _) => id in batch
    case CheckOne(other, _, _) => other == id
    case Add(_, _) => false
    case Remove(other, _) => other == id
  }

  /** The other addresses whose turn comes no later; all of them are due if `id` is. */
  function Ahead(emails: Table, id: EmailId): set<EmailId>
    requires id in emails
  {
    set other | other in emails && other != id && NoLater(emails[other], emails[id])
  }

  /** A due address left out of the batch has the whole, full batch ahead of it. */
  lemma LeftOutBehindFullBatch(emails: Table, now: Time, batch: seq<EmailId>, id: EmailId)
    requires IsBatch(emails, now, batch) && id in DueIds(emails, now) && id !in batch
    ensures |Elements(batch)| == BATCH_LIMIT && Elements(batch) <= Ahead(emails, id)
  {
    DistinctCount(batch);
    SubsetCount(Elements(batch), DueIds(emails, now));
  }

  /**
   * A step that does not serve a due address lets nobody but a new address overtake it, and the job moves
   * it up by a full batch.
   */
  lemma UnservedMovesUp(emails: Table, clock: Time, step: Step, id: EmailId)
    requires Enabled(emails, clock, step) && id in emails && Due(emails[id], clock) && !Serves(step, id)
    ensures var after := Perform(emails, step);
      && id in after && after[id] == emails[id] && Due(after[id], step.now)
      && Ahead(after, id) <= Ahead(emails, id) + (if step.Add? then {step.id} else {})
      && |Ahead(after, id)| + (if step.RunJob? then BATCH_LIMIT else 0) <= |Ahead(emails, id)| + (if step.Add? then 1 else 0)
  {
    var after := Perform(emails, step);
    forall other | other in Ahead(after, id)
      ensures other in Ahead(emails, id) || (step.Add? && other == step.id)
      ensures step.RunJob? ==> other !in step.batch
    {
    }
    if step.RunJob? {
      LeftOutBehindFullBatch(emails, step.now, step.batch, id);
      SubsetCount(Ahead(after, id), Ahead(emails, id) - Elements(step.batch));
    } else if step.Add? {
      SubsetCount(Ahead(after, id), Ahead(emails, id) + {step.id});
    } else {
      SubsetCount(Ahead(after, id), Ahead(emails, id));
    }
  }

  lemma {:induction false} UnservedBound(emails: Table, clock: Time, steps: seq<Step>, id: EmailId)
    requires ValidRun(emails, clock, steps) && id in emails && Due(emails[id], clock)
    requires forall k :: 0 <= k < |steps| ==> !Serves(steps[k], id)
    ensures BATCH_LIMIT * JobRuns(steps) <= |Ahead(emails, id)| + Additions(steps)
    decreases |steps|
  {
    if steps == [] {
    } else {
      UnservedMovesUp(emails, clock, steps[0], id);
      assert forall k :: 0 <= k < |steps| - 1 ==> steps[1..][k] == steps[k + 1];
      UnservedBound(Perform(emails, steps[0]), steps[0].now, steps[1..], id);
    }
  }

  /**
   * A due address with `r` others at or before its turn is served within floor((r + a) / 1000) + 1 runs
   * of the job, where `a` is the number of addresses added meanwhile; whatever other checks and
   * deletions happen in between make no difference.
   */
  lemma ServedWithinBound(emails: Table, clock: Time, steps: seq<Step>, id: EmailId)
    requires ValidRun(emails, clock, steps) && id in emails && Due(emails[id], clock)
    requires JobRuns(steps) >= (|Ahead(emails, id)| + Additions(steps)) / BATCH_LIMIT + 1
    ensures exists k :: 0 <= k < |steps| && Serves(steps[k], id)
  {
    if forall k :: 0 <= k < |steps| ==> !Serves(steps[k], id) {
      UnservedBound(emails, clock, steps, id);
    }
  }

  /** An address that is not due yet is never ahead of one that is. */
  lemma LaterDueNeverAhead(emails: Table, now: Time, id: EmailId, other: EmailId)
    requires id in emails && other in emails && Due(emails[id], now) && !Due(emails[other], now)
    ensures other !in Ahead(emails, id)
  {
  }

  // ---------- What is on record ----------

  function Run(emails: Table, steps: seq<Step>): Table
    decreases |steps|
  {
    if steps == [] then emails else Run(Perform(emails, steps[0]), steps[1..])
  }

  /** The answer of the latest lookup for the address that did not fail, and when to start counting from. */
  function LatestOf(steps: seq<Step>, id: EmailId, known: Email): Email
    decreases |steps|
  {
    if steps == [] then known
    else
      var answered := match steps[0]
                      case RunJob(batch, lookup, now) => if id in batch then Some((lookup(id), now)) else None
                      case CheckOne(other, status, now) => if other == id then Some((status, now)) else None
                      case _ => None;
      LatestOf(steps[1..], id,
               if answered.None? then known
               else if answered.value.0 == [] then Email(Some(answered.value.1 - 23 * DAY), known.lastStatus)
               else Email(Some(answered.value.1), answered.value.0))
  }

  /**
   * An address that stays keeps on record the status of its latest successful lookup: a failed one does
   * not erase it, and no other address's lookup touches it.
   */
  lemma {:induction false} RecordIsLatestAnswer(emails: Table, clock: Time, steps: seq<Step>, id: EmailId)
    requires ValidRun(emails, clock, steps) && id in emails
    requires forall k :: 0 <= k < |steps| ==> !(steps[k].Remove? && steps[k].id == id)
    ensures id in Run(emails, steps) && Run(emails, steps)[id] == LatestOf(steps, id, emails[id])
    decreases |steps|
  {
    if steps == [] {
    } else {
      assert forall k :: 0 <= k < |steps| - 1 ==> steps[1..][k] == steps[k + 1];
      RecordIsLatestAnswer(Perform(emails, steps[0]), steps[0].now, steps[1..], id);
    }
  }

  /**
   * A batch on the rows: addresses never checked or checked more than thirty days ago, a thousand of
   * them or all there are, those never checked before any other, then the oldest.
   */
  lemma BatchTakesTheOldest(emails: Table, now: Time, batch: seq<EmailId>, id: EmailId)
    requires IsBatch(emails, now, batch) && id in emails
    ensures id in batch ==> emails[id].lastChecked == None || emails[id].lastChecked.value < now - 30 * DAY
    ensures id !in batch && (emails[id].lastChecked == None || emails[id].lastChecked.value < now - 30 * DAY) ==>
      && |batch| == 1000
      && forall other :: other in batch ==>
           && other in emails && (emails[id].lastChecked == None ==> emails[other].lastChecked == None)
           && (emails[other].lastChecked == None || emails[other].lastChecked.value <= emails[id].lastChecked.value)
  {
    if id in DueIds(emails, now) && id !in batch {
      LeftOutBehindFullBatch(emails, now, batch, id);
      DistinctCount(batch);
    }
  }

  // ---------- The query always has an answer ----------

  ghost function Oldest(emails: Table, ids: set<EmailId>): (least: EmailId)
    requires ids != {} && ids <= emails.Keys
    ensures least in ids && forall other :: other in ids ==> NoLater(emails[least], emails[other])
    decreases |ids|
  {
    var id :| id in ids;
    assert forall other :: other in ids ==> other == id || other in ids - {id};
    if ids - {id} == {} then id
    else
      var rest := Oldest(emails, ids - {id});
      if NoLater(emails[id], emails[rest]) then id else rest
  }

  /** The `n` oldest of `ids`, oldest first. */
  lemma {:induction false} OldestFirst(emails: Table, ids: set<EmailId>, n: nat) returns (batch: seq<EmailId>)
    requires ids <= emails.Keys && n <= |ids|
    ensures |batch| == n && Distinct(batch) && Elements(batch) <= ids
    ensures forall i, j :: 0 <= i < j < n ==> NoLater(emails[batch[i]], emails[batch[j]])
    ensures forall i, other :: 0 <= i < n && other in ids && other !in batch ==> NoLater(emails[batch[i]], emails[other])
    decreases n
  {
    if n == 0 {
      return [];
    }
    var id := Oldest(emails, ids);
    var rest := OldestFirst(emails, ids - {id}, n - 1);
    batch := [id] + rest;
    assert forall i :: 0 <= i < |rest| ==> rest[i] in Elements(rest) && rest[i] in ids - {id};
    assert forall x :: x in batch ==> x == id || x in Elements(rest);
  }

  lemma BatchExists(emails: Table, now: Time)
    ensures exists batch :: IsBatch(emails, now, batch)
  {
    var due := DueIds(emails, now);
    var batch := OldestFirst(emails, due, if |due| < BATCH_LIMIT then |due| else BATCH_LIMIT);
    assert forall id :: id in batch ==> id in Elements(batch);
    assert IsBatch(emails, now, batch);
  }
}
