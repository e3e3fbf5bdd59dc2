/**
 * Two-factor recovery codes of one account: `generate_recovery_codes`, `get_recovery_code` and
 * `check_recovery_code` of the user service.
 */
module RecoveryCodes {
  import opened Common

  const RECOVERY_CODE_COUNT := 8

  type Plaintext = string

  /** A password hash. `verify` accepts exactly the plaintext that was hashed. */
  datatype Hash = Argon2(plaintext: Plaintext)

  /** A row of `user_recovery_codes`. */
  datatype StoredCode = StoredCode(code: Hash, burned: Option<Time>)

  datatype CheckResult = Accepted | NoRecoveryCodes | InvalidRecoveryCode | BurnedRecoveryCode

  predicate Verify(code: Plaintext, hash: Hash) {
    hash == Argon2(code)
  }

  predicate HasRecoveryCodes(rows: seq<StoredCode>) {
    exists i :: 0 <= i < |rows| && rows[i].burned.None?
  }

  function Hashed(codes: seq<Plaintext>): seq<StoredCode> {
    seq(|codes|, i requires 0 <= i < |codes| => StoredCode(Argon2(codes[i]), None))
  }

  function Generate(rows: seq<StoredCode>, codes: seq<Plaintext>): seq<StoredCode> {
    (if HasRecoveryCodes(rows) then [] else rows) + Hashed(codes)
  }

  /** Index of the first row `code` verifies against, or the number of rows. */
  function FirstMatch(rows: seq<StoredCode>, code: Plaintext): (i: nat)
    ensures i <= |rows|
    ensures forall j :: 0 <= j < i ==> !Verify(code, rows[j].code)
    ensures i < |rows| ==> Verify(code, rows[i].code)
  {
    if rows == [] then 0
    else if Verify(code, rows[0].code) then 0
    else 1 + FirstMatch(rows[1..], code)
  }

  /**
   * `check_recovery_code`. `hashable` is false for input the hasher refuses outright
   * (`PasswordValueError`).
   */
  function Check(rows: seq<StoredCode>, code: Plaintext, hashable: bool, now: Time): (seq<StoredCode>, CheckResult) {
    if rows == [] then (rows, NoRecoveryCodes)
    else
      var i := FirstMatch(rows, code);
      if !hashable || i == |rows| then (rows, InvalidRecoveryCode)
      else if rows[i].burned.Some? then (rows, BurnedRecoveryCode)
      else (rows[i := rows[i].(burned := Some(now))], Accepted)
  }

  /** The rows of one account, updated in place. */
  class RecoveryCodeTable {
    var rows: seq<StoredCode>

    constructor ()
      ensures rows == []
    {
      rows := [];
    }

    method GenerateRecoveryCodes(codes: seq<Plaintext>)
      modifies this
      ensures rows == Generate(old(rows), codes)
    {
      var kept := rows;
      if HasRecoveryCodes(rows) {
        rows := [];
        kept := [];
      }
      for i := 0 to |codes|
        invariant rows == kept + Hashed(codes[..i])
      {
        assert Hashed(codes[..i + 1]) == Hashed(codes[..i]) + [StoredCode(Argon2(codes[i]), None)];
        rows := rows + [StoredCode(Argon2(codes[i]), None)];
      }
      assert codes[..|codes|] == codes;
    }

    method GetRecoveryCode(code: Plaintext, hashable: bool) returns (found: Option<nat>)
      ensures found.Some? <==> hashable && FirstMatch(rows, code) < |rows|
      ensures found.Some? ==> found.value == FirstMatch(rows, code)
    {
      var i := 0;
      while i < |rows|
        invariant 0 <= i <= |rows|
        invariant i > 0 ==> hashable
        invariant forall j :: 0 <= j < i ==> !Verify(code, rows[j].code)
      {
        if !hashable {
          break;
        }
        if Verify(code, rows[i].code) {
          return Some(i);
        }
        i := i + 1;
      }
      return None;
    }

    method CheckRecoveryCode(code: Plaintext, hashable: bool, now: Time) returns (result: CheckResult)
      modifies this
      ensures (rows, result) == Check(old(rows), code, hashable, now)
    {
      if |rows| == 0 {
        return NoRecoveryCodes;
      }
      var found := GetRecoveryCode(code, hashable);
      if found.None? {
        return InvalidRecoveryCode;
      }
      var i := found.value;
      if rows[i].burned.Some? {
        return BurnedRecoveryCode;
      }
      rows := rows[i := rows[i].(burned := Some(now))];
      return Accepted;
    }
  }

}

/** Runs of generate and check on one account. */
module RecoveryCodeRuns {
  import opened Common
  import opened RecoveryCodes

  datatype Event =
    | Generated(codes: seq<Plaintext>)
    | Checked(code: Plaintext, hashable: bool, now: Time)

  /**
   * The table with its history: every plaintext ever issued, the latest batch, and the plaintexts
   * accepted, oldest first, with how many of those came after the latest batch.
   */
  datatype State = State(
    rows: seq<StoredCode>,
    issued: set<Plaintext>,
    batch: set<Plaintext>,
    accepted: seq<Plaintext>,
    acceptedFromBatch: nat)

  const INITIAL := State([], {}, {}, [], 0)

  /** The random source yields eight plaintexts that were never issued before. */
  predicate Enabled(s: State, e: Event) {
    e.Generated? ==>
      |e.codes| == RECOVERY_CODE_COUNT && Distinct(e.codes) && forall c :: c in e.codes ==> c !in s.issued
  }

  function Step(s: State, e: Event): State {
    match e
    case Generated(codes) =>
      var batch := set c | c in codes;
      State(Generate(s.rows, codes), s.issued + batch, batch, s.accepted, 0)
    case Checked(code, hashable, now) =>
      var (rows, result) := Check(s.rows, code, hashable, now);
      if result.Accepted?
      then s.(rows := rows, accepted := s.accepted + [code], acceptedFromBatch := s.acceptedFromBatch + 1)
      else s.(rows := rows)
  }

  predicate ValidRun(s: State, events: seq<Event>)
    decreases |events|
  {
    events != [] ==> Enabled(s, events[0]) && ValidRun(Step(s, events[0]), events[1..])
  }

  function Run(s: State, events: seq<Event>): State
    decreases |events|
  {
    if events == [] then s else Run(Step(s, events[0]), events[1..])
  }

  function Unburned(rows: seq<StoredCode>): nat {
    if rows == [] then 0 else (if rows[0].burned.None? then 1 else 0) + Unburned(rows[1..])
  }

  ghost predicate Inv(s: State) {
    && (forall i, j :: 0 <= i < j < |s.rows| ==> s.rows[i].code != s.rows[j].code)
    && (forall i :: 0 <= i < |s.rows| ==> s.rows[i].code.plaintext in s.issued)
    && (forall i :: 0 <= i < |s.rows| ==>
          (s.rows[i].burned.Some? <==> s.rows[i].code.plaintext in s.accepted))
    && (forall i :: 0 <= i < |s.rows| && s.rows[i].burned.None? ==> s.rows[i].code.plaintext in s.batch)
    && (forall i :: 0 <= i < |s.accepted| ==> s.accepted[i] in s.issued)
    && Distinct(s.accepted)
    && (s.issued != {} ==> Unburned(s.rows) + s.acceptedFromBatch == RECOVERY_CODE_COUNT)
    && (s.issued == {} ==> s.rows == [])
  }

  lemma {:induction false} UnburnedAppend(a: seq<StoredCode>, b: seq<StoredCode>)
    ensures Unburned(a + b) == Unburned(a) + Unburned(b)
  {
    if a == [] {
      assert a + b == b;
    } else {
      UnburnedAppend(a[1..], b);
      assert (a + b)[1..] == a[1..] + b;
    }
  }

  lemma {:induction false} UnburnedHashed(codes: seq<Plaintext>)
    ensures Unburned(Hashed(codes)) == |codes|
  {
    if codes == [] {
    } else {
      UnburnedHashed(codes[1..]);
      assert Hashed(codes)[1..] == Hashed(codes[1..]);
    }
  }

  lemma {:induction false} UnburnedNone(rows: seq<StoredCode>)
    ensures !HasRecoveryCodes(rows) <==> Unburned(rows) == 0
  {
    if rows == [] {
    } else {
      UnburnedNone(rows[1..]);
      if HasRecoveryCodes(rows) && rows[0].burned.Some? {
        var i :| 0 <= i < |rows| && rows[i].burned.None?;
        assert rows[1..][i - 1].burned.None?;
      } else if HasRecoveryCodes(rows[1..]) {
        var i :| 0 <= i < |rows[1..]| && rows[1..][i].burned.None?;
        assert rows[i + 1].burned.None?;
      }
    }
  }

  lemma {:induction false} UnburnedBurn(rows: seq<StoredCode>, i: nat, now: Time)
    requires i < |rows| && rows[i].burned.None?
    ensures Unburned(rows[i := rows[i].(burned := Some(now))]) == Unburned(rows) - 1
  {
    var burnt := rows[i := rows[i].(burned := Some(now))];
    assert rows == rows[..i] + ([rows[i]] + rows[i + 1..]);
    assert burnt == rows[..i] + ([burnt[i]] + rows[i + 1..]);
    UnburnedAppend(rows[..i], [rows[i]] + rows[i + 1..]);
    UnburnedAppend(rows[..i], [burnt[i]] + rows[i + 1..]);
    UnburnedAppend([rows[i]], rows[i + 1..]);
    UnburnedAppend([burnt[i]], rows[i + 1..]);
  }

  lemma GenerateKeepsInv(s: State, codes: seq<Plaintext>)
    requires Inv(s) && Enabled(s, Generated(codes))
    ensures Inv(Step(s, Generated(codes)))
  {
    var kept := if HasRecoveryCodes(s.rows) then [] else s.rows;
    var t := Step(s, Generated(codes));
    assert Unburned(t.rows) == RECOVERY_CODE_COUNT by {
      UnburnedAppend(kept, Hashed(codes));
      UnburnedHashed(codes);
      UnburnedNone(s.rows);
    }
    assert codes[0] in t.issued;
    assert forall c :: c in codes ==> c !in s.issued && c !in s.accepted;
    forall i | 0 <= i < |t.rows|
      ensures i < |kept| ==> t.rows[i] == kept[i] && t.rows[i].burned.Some? && t.rows[i].code.plaintext in s.issued
      ensures i >= |kept| ==> t.rows[i] == StoredCode(Argon2(codes[i - |kept|]), None)
    {
    }
  }

  lemma CheckKeepsInv(s: State, code: Plaintext, hashable: bool, now: Time)
    requires Inv(s)
    ensures Inv(Step(s, Checked(code, hashable, now)))
  {
    var (rows, result) := Check(s.rows, code, hashable, now);
    if result.Accepted? {
      var i := FirstMatch(s.rows, code);
      UnburnedBurn(s.rows, i, now);
      var t := Step(s, Checked(code, hashable, now));
      assert t.accepted == s.accepted + [code];
      assert forall c :: c in t.accepted <==> c in s.accepted || c == code;
      assert forall j :: 0 <= j < |t.rows| ==> t.rows[j].code == s.rows[j].code;
    }
  }

  lemma StepKeepsInv(s: State, e: Event)
    requires Inv(s) && Enabled(s, e)
    ensures Inv(Step(s, e))
  {
    match e
    case Generated(codes) => GenerateKeepsInv(s, codes);
    case Checked(code, hashable, now) => CheckKeepsInv(s, code, hashable, now);
  }

  lemma {:induction false} RunKeepsInv(s: State, events: seq<Event>)
    requires Inv(s) && ValidRun(s, events)
    ensures Inv(Run(s, events))
    decreases |events|
  {
    if events == [] {
    } else {
      StepKeepsInv(s, events[0]);
      RunKeepsInv(Step(s, events[0]), events[1..]);
    }
  }

  /**
   * Over every run from an empty table: no plaintext is ever accepted twice, and the number of unburned
   * codes is eight minus the acceptances since the latest `generate`, whichever way it treated old rows.
   */
  lemma CodesAreSingleUse(events: seq<Event>)
    requires ValidRun(INITIAL, events)
    ensures var s := Run(INITIAL, events);
      && Distinct(s.accepted)
      && (s.issued != {} ==> Unburned(s.rows) == RECOVERY_CODE_COUNT - s.acceptedFromBatch)
  {
    RunKeepsInv(INITIAL, events);
  }

  /** In every reachable state `generate` leaves exactly eight unburned codes. */
  lemma GenerateLeavesEight(events: seq<Event>, codes: seq<Plaintext>)
    requires ValidRun(INITIAL, events) && Enabled(Run(INITIAL, events), Generated(codes))
    ensures Unburned(Generate(Run(INITIAL, events).rows, codes)) == RECOVERY_CODE_COUNT
  {
    var s := Run(INITIAL, events);
    RunKeepsInv(INITIAL, events);
    StepKeepsInv(s, Generated(codes));
    assert codes[0] in Step(s, Generated(codes)).issued;
  }

  ghost predicate BatchStored(s: State) {
    && (forall c :: c in s.batch ==> exists i :: 0 <= i < |s.rows| && s.rows[i].code == Argon2(c))
    && (s.issued != {} ==> s.batch != {})
  }

  lemma StepStoresBatch(s: State, e: Event)
    requires BatchStored(s) && Enabled(s, e)
    ensures BatchStored(Step(s, e))
  {
    var t := Step(s, e);
    forall c | c in t.batch
      ensures exists i :: 0 <= i < |t.rows| && t.rows[i].code == Argon2(c)
    {
      match e
      case Generated(codes) =>
        var k :| 0 <= k < |codes| && codes[k] == c;
        var kept := if HasRecoveryCodes(s.rows) then [] else s.rows;
        assert t.rows[|kept| + k].code == Argon2(c);
      case Checked(_, _, _) =>
        var i :| 0 <= i < |s.rows| && s.rows[i].code == Argon2(c);
        assert t.rows[i].code == Argon2(c);
    }
    if e.Generated? {
      assert e.codes[0] in t.batch;
    }
  }

  lemma {:induction false} RunStoresBatch(s: State, events: seq<Event>)
    requires BatchStored(s) && ValidRun(s, events)
    ensures BatchStored(Run(s, events))
    decreases |events|
  {
    if events == [] {
    } else {
      StepStoresBatch(s, events[0]);
      RunStoresBatch(Step(s, events[0]), events[1..]);
    }
  }

  lemma AcceptedHere(s: State, code: Plaintext, hashable: bool, now: Time)
    requires Inv(s) && BatchStored(s)
    ensures Check(s.rows, code, hashable, now).1.Accepted? <==> hashable && code in s.batch && code !in s.accepted
  {
    if code in s.batch {
      var i :| 0 <= i < |s.rows| && s.rows[i].code == Argon2(code);
      assert Verify(code, s.rows[i].code);
    }
  }

  /**
   * A check succeeds in a reachable state exactly when the hasher takes the input and the plaintext
   * belongs to the latest batch and was not accepted before.
   */
  lemma AcceptedIffCurrentAndUnused(events: seq<Event>, code: Plaintext, hashable: bool, now: Time)
    requires ValidRun(INITIAL, events)
    ensures var s := Run(INITIAL, events);
      Check(s.rows, code, hashable, now).1.Accepted? <==> hashable && code in s.batch && code !in s.accepted
  {
    RunKeepsInv(INITIAL, events);
    RunStoresBatch(INITIAL, events);
    AcceptedHere(Run(INITIAL, events), code, hashable, now);
  }

  /**
   * The other answers in a reachable state: "no codes" before the first batch, "burned" for a code of the
   * latest batch accepted before, "invalid" for what the hasher refuses and for what was never issued;
   * of an earlier batch, only a code accepted then may still be called burned.
   */
  lemma RefusalsSayWhy(events: seq<Event>, code: Plaintext, hashable: bool, now: Time)
    requires ValidRun(INITIAL, events)
    ensures var s := Run(INITIAL, events);
      var result := Check(s.rows, code, hashable, now).1;
      && (result == NoRecoveryCodes <==> s.issued == {})
      && (s.issued != {} && (!hashable || code !in s.issued) ==> result == InvalidRecoveryCode)
      && (hashable && code in s.batch && code in s.accepted ==> result == BurnedRecoveryCode)
      && (hashable && code in s.issued && code !in s.batch ==>
            result == InvalidRecoveryCode || (result == BurnedRecoveryCode && code in s.accepted))
  {
    var s := Run(INITIAL, events);
    RunKeepsInv(INITIAL, events);
    RunStoresBatch(INITIAL, events);
    RunKeepsBatchIssued(INITIAL, events);
    AcceptedHere(s, code, hashable, now);
    if s.issued != {} {
      var c :| c in s.batch;
      assert s.rows != [];
    }
    if code in s.batch {
      var i :| 0 <= i < |s.rows| && s.rows[i].code == Argon2(code);
      assert Verify(code, s.rows[i].code);
    }
  }

  lemma {:induction false} FirstMatchBefore(rows: seq<StoredCode>, more: seq<StoredCode>, code: Plaintext)
    requires forall i :: 0 <= i < |more| ==> !Verify(code, more[i].code)
    ensures var i := FirstMatch(rows + more, code);
      if FirstMatch(rows, code) < |rows| then i == FirstMatch(rows, code) else i == |rows + more|
  {
    if rows == [] {
      assert rows + more == more;
    } else {
      assert (rows + more)[1..] == rows[1..] + more;
      FirstMatchBefore(rows[1..], more, code);
    }
  }

  /**
   * A new batch forgets the codes issued before: they are invalid from then on, except that when all
   * eight of the last batch were used, the table is kept and spent codes are still called burned.
   */
  lemma GenerateForgets(events: seq<Event>, codes: seq<Plaintext>, code: Plaintext, now: Time)
    requires ValidRun(INITIAL, events) && Enabled(Run(INITIAL, events), Generated(codes)) && code in Run(INITIAL, events).issued
    ensures var s := Run(INITIAL, events);
      Check(Generate(s.rows, codes), code, true, now).1 ==
        if s.acceptedFromBatch == 8 then Check(s.rows, code, true, now).1 else InvalidRecoveryCode
  {
    var s := Run(INITIAL, events);
    RunKeepsInv(INITIAL, events);
    UnburnedNone(s.rows);
    RefusalsSayWhy(events, code, true, now);
    var kept := if HasRecoveryCodes(s.rows) then [] else s.rows;
    assert forall i :: 0 <= i < |codes| ==> codes[i] in codes;
    FirstMatchBefore(kept, Hashed(codes), code);
  }

  lemma {:induction false} RunKeepsBatchIssued(s: State, events: seq<Event>)
    requires s.batch <= s.issued
    ensures Run(s, events).batch <= Run(s, events).issued
    decreases |events|
  {
    if events == [] {
    } else {
      RunKeepsBatchIssued(Step(s, events[0]), events[1..]);
    }
  }

  /** Once a new batch is generated, no code issued earlier is accepted again, however the run goes on. */
  lemma EarlierBatchesAreDead(before: seq<Event>, codes: seq<Plaintext>, after: seq<Event>, code: Plaintext)
    requires ValidRun(INITIAL, before) && Enabled(Run(INITIAL, before), Generated(codes))
    requires ValidRun(Step(Run(INITIAL, before), Generated(codes)), after)
    requires code in Run(INITIAL, before).issued
    ensures var s := Run(Step(Run(INITIAL, before), Generated(codes)), after);
      forall hashable, now :: !Check(s.rows, code, hashable, now).1.Accepted?
  {
    var s := Step(Run(INITIAL, before), Generated(codes));
    RunKeepsInv(INITIAL, before);
    StepKeepsInv(Run(INITIAL, before), Generated(codes));
    RunKeepsInv(s, after);
    IssuedNeverReenters(s, after, code);
  }

  lemma {:induction false} IssuedNeverReenters(s: State, events: seq<Event>, code: Plaintext)
    requires ValidRun(s, events) && code in s.issued && code !in s.batch
    ensures code !in Run(s, events).batch
    decreases |events|
  {
    if events == [] {
    } else {
      IssuedNeverReenters(Step(s, events[0]), events[1..], code);
    }
  }
}
