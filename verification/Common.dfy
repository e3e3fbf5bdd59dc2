/** Vocabulary shared by every component: optional values and the clock. */
module Common {

  datatype Option<+T> = None | Some(value: T)

  /** An instant, in microseconds: the resolution of the datetimes the database stores. */
  type Time = int

  const SECOND: Time := 1_000_000
  const MINUTE: Time := 60 * SECOND
  const DAY: Time := 24 * 60 * MINUTE

  /** The instant a signed token carries: signers write whole seconds. */
  function Stamp(t: Time): Time {
    t - t % SECOND
  }

  /** Whether a token stamped `stamp` is accepted at `now`; ages are compared in whole seconds. */
  predicate WithinMaxAge(stamp: Time, now: Time, maxAgeSeconds: nat) {
    stamp <= Stamp(now) <= stamp + maxAgeSeconds * SECOND
  }

  /**
   * A window of `maxAgeSeconds` opened at `opened` and still open at `now` cannot outlive a token
   * stamped when it opened, although the window is kept to the microsecond and the token to the second.
   */
  lemma OpenWindowKeepsToken(start: Time, now: Time, maxAgeSeconds: nat)
    requires start <= now <= start + maxAgeSeconds * SECOND
    ensures WithinMaxAge(Stamp(start), now, maxAgeSeconds)
  {
    var late := start + maxAgeSeconds * SECOND;
    assert late % SECOND == start % SECOND;
    StampMonotone(start, now);
    StampMonotone(now, late);
  }

  lemma StampMonotone(a: Time, b: Time)
    requires a <= b
    ensures Stamp(a) <= Stamp(b) <= b
  {
    var qa, qb := a / SECOND, b / SECOND;
    assert a == qa * SECOND + a % SECOND && b == qb * SECOND + b % SECOND;
    assert qa <= qb;
  }

  predicate Distinct<T(==)>(s: seq<T>) {
    forall i, j :: 0 <= i < j < |s| ==> s[i] != s[j]
  }

  ghost function Elements<T>(s: seq<T>): set<T> {
    set x | x in s
  }

  lemma {:induction false} DistinctCount<T>(s: seq<T>)
    requires Distinct(s)
    ensures |Elements(s)| == |s|
  {
    if s == [] {
    } else {
      DistinctCount(s[1..]);
      assert Elements(s) == Elements(s[1..]) + {s[0]};
    }
  }

  lemma SubsetCount<T>(a: set<T>, b: set<T>)
    requires a <= b
    ensures |a| <= |b|
    ensures |a| == |b| ==> a == b
  {
    assert b == a + (b - a);
  }
}
