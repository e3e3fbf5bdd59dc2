/** The precomputed version order of a project's releases (`_pypi_ordering`). */
module Releases {
  import opened Common

  /**
   * What orders a release: its parsed version, then its primary key. Parsed versions are only ever
   * compared; being countably many and totally preordered, they are represented by numbers.
   */
  datatype Key = Key(version: real, id: nat)

  predicate Before(a: Key, b: Key) {
    a.version < b.version || (a.version == b.version && a.id < b.id)
  }

  /** The number of releases that come before `key`. */
  function Rank(keys: set<Key>, key: Key): nat {
    |set k | k in keys && Before(k, key)|
  }

  // ---------- What ranks are ----------

  /** Ranks follow the version order, by primary key on ties, and tell releases apart. */
  lemma RankOrders(keys: set<Key>, a: Key, b: Key)
    requires a in keys && b in keys
    ensures Rank(keys, a) < Rank(keys, b) <==> a.version < b.version || (a.version == b.version && a.id < b.id)
    ensures a == b <==> Rank(keys, a) == Rank(keys, b)
    ensures Rank(keys, a) < |keys|
  {
    if Before(a, b) {
      BeforeRanksLower(keys, a, b);
    } else if Before(b, a) {
      BeforeRanksLower(keys, b, a);
    }
    var below := set k | k in keys && Before(k, a);
    SubsetCount(below + {a}, keys);
  }

  lemma BeforeRanksLower(keys: set<Key>, a: Key, b: Key)
    requires a in keys && Before(a, b)
    ensures Rank(keys, a) < Rank(keys, b)
  {
    var belowA := set k | k in keys && Before(k, a);
    var belowB := set k | k in keys && Before(k, b);
    SubsetCount(belowA + {a}, belowB);
  }

  /** Every position below the number of releases is the rank of exactly one of them. */
  lemma {:induction false} RankIsOnto(keys: set<Key>, i: nat)
    requires i < |keys|
    ensures exists k :: k in keys && Rank(keys, k) == i
    decreases |keys|
  {
    var last := Last(keys);
    var rest := keys - {last};
    if i == |rest| {
      assert (set k | k in keys && Before(k, last)) == rest;
    } else {
      RankIsOnto(rest, i);
      var k :| k in rest && Rank(rest, k) == i;
      assert (set j | j in keys && Before(j, k)) == (set j | j in rest && Before(j, k));
    }
  }

  ghost function Last(keys: set<Key>): (last: Key)
    requires keys != {}
    ensures last in keys && forall k :: k in keys && k != last ==> Before(k, last)
    decreases |keys|
  {
    var k :| k in keys;
    assert forall j :: j in keys ==> j == k || j in keys - {k};
    if keys - {k} == {} then k
    else
      var rest := Last(keys - {k});
      if Before(k, rest) then rest else k
  }

  // ---------- How few ranks change ----------

  /** Adding one release at rank `k` moves the releases that had rank `k` or more by exactly one, and no other. */
  lemma AddingShiftsTheTail(keys: set<Key>, added: Key, k: Key)
    requires added !in keys && k in keys
    ensures var at := Rank(keys + {added}, added);
      Rank(keys + {added}, k) == Rank(keys, k) + (if Rank(keys, k) >= at then 1 else 0)
  {
    var all := keys + {added};
    assert (set j | j in all && Before(j, added)) == (set j | j in keys && Before(j, added));
    RankAfterAdding(keys, added, k);
    RankOrders(all, added, k);
  }

  lemma RankAfterAdding(keys: set<Key>, added: Key, k: Key)
    requires added !in keys
    ensures Rank(keys + {added}, k) == Rank(keys, k) + (if Before(added, k) then 1 else 0)
  {
    var below := set j | j in keys && Before(j, k);
    var belowAll := set j | j in keys + {added} && Before(j, k);
    assert belowAll == if Before(added, k) then below + {added} else below;
  }

  // ---------- The sort itself ----------

  class Release {
    const key: Key
    var ordering: Option<nat>

    constructor (key: Key)
      ensures this.key == key && ordering == None
    {
      this.key := key;
      ordering := None;
    }
  }

  predicate SortedBy(releases: seq<Release>) {
    forall i, j :: 0 <= i < j < |releases| ==> Before(releases[i].key, releases[j].key)
  }

  ghost function Keys(releases: seq<Release>): set<Key> {
    set i | 0 <= i < |releases| :: releases[i].key
  }

  /** Places `r`, fetched after all of `sorted`, behind everything whose version is no greater. */
  method InsertByVersion(sorted: seq<Release>, r: Release) returns (inserted: seq<Release>)
    requires SortedBy(sorted)
    requires forall i :: 0 <= i < |sorted| ==> sorted[i].key.id < r.key.id
    ensures SortedBy(inserted) && |inserted| == |sorted| + 1
    ensures forall x :: x in inserted <==> x in sorted || x == r
  {
    var at := |sorted|;
    while at > 0 && r.key.version < sorted[at - 1].key.version
      invariant 0 <= at <= |sorted|
      invariant forall j :: at <= j < |sorted| ==> r.key.version < sorted[j].key.version
    {
      at := at - 1;
    }
    inserted := sorted[..at] + [r] + sorted[at..];
    InsertedReleases(sorted, at, r);
    InsertedKeepsOrder(sorted, at, r);
  }

  lemma InsertedReleases(sorted: seq<Release>, at: nat, r: Release)
    requires at <= |sorted|
    ensures forall x :: x in sorted[..at] + [r] + sorted[at..] <==> x in sorted || x == r
  {
    assert sorted == sorted[..at] + sorted[at..];
  }

  lemma InsertedKeepsOrder(sorted: seq<Release>, at: nat, r: Release)
    requires SortedBy(sorted) && at <= |sorted|
    requires forall i :: 0 <= i < |sorted| ==> sorted[i].key.id < r.key.id
    requires at > 0 ==> r.key.version >= sorted[at - 1].key.version
    requires forall j :: at <= j < |sorted| ==> r.key.version < sorted[j].key.version
    ensures SortedBy(sorted[..at] + [r] + sorted[at..])
  {
    var inserted := sorted[..at] + [r] + sorted[at..];
    assert forall i :: 0 <= i < at - 1 ==> Before(sorted[i].key, sorted[at - 1].key);
    forall i, j | 0 <= i < j < |inserted|
      ensures Before(inserted[i].key, inserted[j].key)
    {
      assert i != at && j != at ==> inserted[i] == sorted[if i < at then i else i - 1] && inserted[j] == sorted[if j < at then j else j - 1];
    }
  }

  /** A stable sort by parsed version of releases fetched in primary-key order. */
  method SortByVersion(releases: seq<Release>) returns (sorted: seq<Release>)
    requires forall i, j :: 0 <= i < j < |releases| ==> releases[i].key.id < releases[j].key.id
    ensures SortedBy(sorted) && |sorted| == |releases|
    ensures forall r :: r in sorted <==> r in releases
  {
    sorted := [];
    for i := 0 to |releases|
      invariant SortedBy(sorted) && |sorted| == i
      invariant forall r :: r in sorted <==> r in releases[..i]
    {
      forall j | 0 <= j < |sorted|
        ensures sorted[j].key.id < releases[i].key.id
      {
        assert sorted[j] in releases[..i];
      }
      sorted := InsertByVersion(sorted, releases[i]);
      assert releases[..i + 1] == releases[..i] + [releases[i]];
    }
    assert releases[..|releases|] == releases;
  }

  /** In a sorted listing of distinct releases, the index is the rank. */
  lemma IndexIsRank(sorted: seq<Release>, i: nat)
    requires SortedBy(sorted) && i < |sorted|
    ensures Rank(Keys(sorted), sorted[i].key) == i
  {
    var below := set k | k in Keys(sorted) && Before(k, sorted[i].key);
    var prefix := seq(i, j requires 0 <= j < i => sorted[j].key);
    forall k | k in below
      ensures k in Elements(prefix)
    {
      var j :| 0 <= j < |sorted| && sorted[j].key == k;
      assert j < i;
      assert prefix[j] == k;
    }
    forall k | k in Elements(prefix)
      ensures k in below
    {
      var j :| 0 <= j < i && prefix[j] == k;
      assert sorted[j].key in Keys(sorted);
    }
    assert below == Elements(prefix);
    DistinctCount(prefix);
  }

  /** Stores each release's index, touching only those whose stored one differs. */
  method WriteRanks(sorted: seq<Release>) returns (written: set<Release>)
    requires SortedBy(sorted)
    modifies sorted
    ensures forall i :: 0 <= i < |sorted| ==> sorted[i].ordering == Some(i)
    ensures written == set i | 0 <= i < |sorted| && old(sorted[i].ordering) != Some(i) :: sorted[i]
  {
    written := {};
    for i := 0 to |sorted|
      invariant forall j :: 0 <= j < i ==> sorted[j].ordering == Some(j)
      invariant forall j :: i <= j < |sorted| ==> sorted[j].ordering == old(sorted[j].ordering)
      invariant written == set j | 0 <= j < i && old(sorted[j].ordering) != Some(j) :: sorted[j]
    {
      if sorted[i].ordering != Some(i) {
        sorted[i].ordering := Some(i);
        written := written + {sorted[i]};
      }
    }
  }

  /**
   * `_sort_releases`: afterwards every release stores its rank, and `written` is exactly the releases
   * whose stored rank was missing or out of date.
   */
  method SortReleases(releases: seq<Release>) returns (written: set<Release>)
    requires forall i, j :: 0 <= i < j < |releases| ==> releases[i].key.id < releases[j].key.id
    modifies releases
    ensures forall r :: r in releases ==> r.ordering == Some(Rank(Keys(releases), r.key))
    ensures written == set r | r in releases && old(r.ordering) != Some(Rank(Keys(releases), r.key))
  {
    var sorted := SortByVersion(releases);
    SameKeys(sorted, releases);
    assert forall i :: 0 <= i < |sorted| ==> sorted[i] in sorted && sorted[i] in releases;
    forall i | 0 <= i < |sorted|
      ensures Rank(Keys(releases), sorted[i].key) == i
    {
      IndexIsRank(sorted, i);
    }
    written := WriteRanks(sorted);
    forall r | r in releases
      ensures exists i :: 0 <= i < |sorted| && sorted[i] == r
    {
      assert r in sorted;
    }
  }

  // ---------- Sorting again ----------

  /** A second sort writes nothing. */
  method SortTwice(releases: seq<Release>) returns (first: set<Release>, second: set<Release>)
    requires forall i, j :: 0 <= i < j < |releases| ==> releases[i].key.id < releases[j].key.id
    modifies releases
    ensures second == {}
    ensures forall r :: r in releases ==> r.ordering == Some(Rank(Keys(releases), r.key))
  {
    first := SortReleases(releases);
    second := SortReleases(releases);
  }

  /** The releases stored before `added` came. */
  ghost predicate IsSortedBut(releases: seq<Release>, added: Release)
    reads releases
  {
    forall r :: r in releases && r != added ==> r.ordering == Some(Rank(Keys(releases) - {added.key}, r.key))
  }

  /**
   * After one release is added to a sorted project, wherever its primary key falls, a sort writes that
   * release and those that had its rank or more, each moved by one.
   */
  method SortWithOneMore(releases: seq<Release>, added: Release) returns (written: set<Release>)
    requires forall i, j :: 0 <= i < j < |releases| ==> releases[i].key.id < releases[j].key.id
    requires added in releases && added.ordering.None? && IsSortedBut(releases, added)
    modifies releases
    ensures var at := Rank(Keys(releases), added.key);
      && added.ordering == Some(at)
      && written == {added} + set r | r in releases && r != added && old(r.ordering).Some? && old(r.ordering).value >= at
      && forall r :: r in releases && r != added ==>
           old(r.ordering).Some? && r.ordering == Some(old(r.ordering).value + (if r in written then 1 else 0))
  {
    hide Rank;
    OthersShift(releases, added);
    written := SortReleases(releases);
  }

  lemma OthersShift(releases: seq<Release>, added: Release)
    requires forall i, j :: 0 <= i < j < |releases| ==> releases[i].key.id < releases[j].key.id
    requires added in releases
    ensures var others, at := Keys(releases) - {added.key}, Rank(Keys(releases), added.key);
      forall r :: r in releases && r != added ==>
        Rank(Keys(releases), r.key) == Rank(others, r.key) + (if Rank(others, r.key) >= at then 1 else 0)
  {
    var others := Keys(releases) - {added.key};
    assert forall i :: 0 <= i < |releases| ==> releases[i].key in Keys(releases);
    assert others + {added.key} == Keys(releases);
    forall r | r in releases && r != added
      ensures Rank(Keys(releases), r.key) ==
        Rank(others, r.key) + (if Rank(others, r.key) >= Rank(Keys(releases), added.key) then 1 else 0)
    {
      AddingShiftsTheTail(others, added.key, r.key);
    }
  }

  lemma SameKeys(a: seq<Release>, b: seq<Release>)
    requires forall r :: r in a <==> r in b
    ensures Keys(a) == Keys(b)
  {
    forall k
      ensures k in Keys(a) <==> k in Keys(b)
    {
      if k in Keys(a) {
        var i :| 0 <= i < |a| && a[i].key == k;
        assert a[i] in b;
      }
      if k in Keys(b) {
        var i :| 0 <= i < |b| && b[i].key == k;
        assert b[i] in a;
      }
    }
  }
}
