/** The account export: capped sections, the merged timeline, and the names of deleted projects. */
module UserExport {
  import opened Common
  import opened IsoTime

  /** Most-recent rows fetched per section. */
  const SECTION_ROW_LIMIT: nat := 10_000

  // ---------- Caps ----------

  function Capped(n: nat): nat {
    if n < SECTION_ROW_LIMIT then n else SECTION_ROW_LIMIT
  }

  /** `_capped_total`: only a full page pays for the count query. */
  method CappedTotal(fetched: nat, count: nat) returns (total: nat, truncated: bool)
    requires fetched == Capped(count)
    ensures total == count && (truncated <==> count > SECTION_ROW_LIMIT)
  {
    if fetched < SECTION_ROW_LIMIT {
      return fetched, false;
    }
    return count, count > fetched;
  }

  // ---------- The timeline ----------

  /** A timeline entry; `content` stands for everything but its time. */
  datatype Entry = Entry(content: nat, time: Option<DateTime>)

  predicate ValidEntry(e: Entry) {
    e.time.Some? ==> Valid(e.time.value)
  }

  /** The text entries are sorted by. */
  function SortKey(e: Entry): string {
    if e.time.None? then "" else Iso(e.time.value)
  }

  /** `a` is after `b` in time; an entry without a time comes before every other. */
  predicate After(a: Entry, b: Entry) {
    a.time.Some? && (b.time.None? || Earlier(b.time.value, a.time.value))
  }

  predicate InTimeOrder(entries: seq<Entry>) {
    forall i, j :: 0 <= i < j < |entries| ==> !After(entries[i], entries[j])
  }

  predicate KeysSorted(entries: seq<Entry>) {
    forall i, j :: 0 <= i < j < |entries| ==> !TextLess(SortKey(entries[j]), SortKey(entries[i]))
  }

  lemma KeyOrderIsTimeOrder(a: Entry, b: Entry)
    requires ValidEntry(a) && ValidEntry(b)
    ensures TextLess(SortKey(b), SortKey(a)) <==> After(a, b)
  {
    if a.time.Some? && b.time.Some? {
      TextOrderIsChronological(b.time.value, a.time.value);
    }
  }

  lemma {:induction false} TextLessIsTransitive(a: string, b: string, c: string)
    requires !TextLess(b, a) && !TextLess(c, b)
    ensures !TextLess(c, a)
    decreases |a|
  {
    if a != [] && c != [] && b != [] && a[0] == b[0] == c[0] {
      TextLessIsTransitive(a[1..], b[1..], c[1..]);
    }
  }

  /** A sort by the text of the time. */
  method SortEntries(entries: seq<Entry>) returns (sorted: seq<Entry>)
    ensures KeysSorted(sorted) && multiset(sorted) == multiset(entries)
  {
    sorted := [];
    for i := 0 to |entries|
      invariant KeysSorted(sorted) && multiset(sorted) == multiset(entries[..i])
    {
      sorted := InsertEntry(sorted, entries[i]);
      assert entries[..i + 1] == entries[..i] + [entries[i]];
    }
    assert entries[..|entries|] == entries;
  }

  method InsertEntry(sorted: seq<Entry>, e: Entry) returns (inserted: seq<Entry>)
    requires KeysSorted(sorted)
    ensures KeysSorted(inserted) && multiset(inserted) == multiset(sorted) + multiset{e}
  {
    hide TextLess, SortKey;
    var at := |sorted|;
    while at > 0 && TextLess(SortKey(e), SortKey(sorted[at - 1]))
      invariant 0 <= at <= |sorted|
      invariant forall j :: at <= j < |sorted| ==> TextLess(SortKey(e), SortKey(sorted[j]))
    {
      at := at - 1;
    }
    inserted := sorted[..at] + [e] + sorted[at..];
    InsertionPoint(sorted, at, e);
    InsertKeepsSorted(sorted, at, e);
  }

  /** Nothing before the insertion point has a greater key, nothing from it on a smaller one. */
  lemma InsertionPoint(sorted: seq<Entry>, at: nat, e: Entry)
    requires KeysSorted(sorted) && at <= |sorted|
    requires at > 0 ==> !TextLess(SortKey(e), SortKey(sorted[at - 1]))
    requires forall j :: at <= j < |sorted| ==> TextLess(SortKey(e), SortKey(sorted[j]))
    ensures forall j :: 0 <= j < at ==> !TextLess(SortKey(e), SortKey(sorted[j]))
    ensures forall j :: at <= j < |sorted| ==> !TextLess(SortKey(sorted[j]), SortKey(e))
  {
    forall j | 0 <= j < at
      ensures !TextLess(SortKey(e), SortKey(sorted[j]))
    {
      if j < at - 1 {
        TextLessIsTransitive(SortKey(sorted[j]), SortKey(sorted[at - 1]), SortKey(e));
      }
    }
    forall j | at <= j < |sorted|
      ensures !TextLess(SortKey(sorted[j]), SortKey(e))
    {
      TextLessIsAsymmetric(SortKey(e), SortKey(sorted[j]));
    }
  }

  lemma InsertKeepsSorted(sorted: seq<Entry>, at: nat, e: Entry)
    requires KeysSorted(sorted) && at <= |sorted|
    requires forall j :: 0 <= j < at ==> !TextLess(SortKey(e), SortKey(sorted[j]))
    requires forall j :: at <= j < |sorted| ==> !TextLess(SortKey(sorted[j]), SortKey(e))
    ensures KeysSorted(sorted[..at] + [e] + sorted[at..])
    ensures multiset(sorted[..at] + [e] + sorted[at..]) == multiset(sorted) + multiset{e}
  {
    assert sorted == sorted[..at] + sorted[at..];
    InsertedKeys(sorted, at, e, sorted[..at] + [e] + sorted[at..]);
  }

  function EntryAt(sorted: seq<Entry>, at: nat, e: Entry, i: nat): Entry
    requires at <= |sorted| && i <= |sorted|
  {
    if i < at then sorted[i] else if i == at then e else sorted[i - 1]
  }

  lemma InsertedKeys(sorted: seq<Entry>, at: nat, e: Entry, inserted: seq<Entry>)
    requires KeysSorted(sorted) && at <= |sorted| && |inserted| == |sorted| + 1
    requires forall i :: 0 <= i < |inserted| ==> inserted[i] == EntryAt(sorted, at, e, i)
    requires forall j :: 0 <= j < at ==> !TextLess(SortKey(e), SortKey(sorted[j]))
    requires forall j :: at <= j < |sorted| ==> !TextLess(SortKey(sorted[j]), SortKey(e))
    ensures KeysSorted(inserted)
  {
    forall i, j | 0 <= i < j < |inserted|
      ensures !TextLess(SortKey(inserted[j]), SortKey(inserted[i]))
    {
      assert inserted[i] == EntryAt(sorted, at, e, i) && inserted[j] == EntryAt(sorted, at, e, j);
    }
  }

  lemma {:induction false} TextLessIsAsymmetric(a: string, b: string)
    requires TextLess(a, b)
    ensures !TextLess(b, a)
    decreases |a|
  {
    if a != [] && a[0] == b[0] {
      TextLessIsAsymmetric(a[1..], b[1..]);
    }
  }

  /** What the sources' queries return: of each, the most recent rows up to the cap. */
  function Page(source: seq<Entry>): seq<Entry> {
    source[..Capped(|source|)]
  }

  function Pages(sources: seq<seq<Entry>>): seq<Entry> {
    if sources == [] then [] else Pages(sources[..|sources| - 1]) + Page(sources[|sources| - 1])
  }

  function PageTotal(sources: seq<seq<Entry>>): nat {
    if sources == [] then 0 else PageTotal(sources[..|sources| - 1]) + Capped(|sources[|sources| - 1]|)
  }

  /**
   * `_timeline_section`, over sources listed most recent first: the pages merged in time
   * order, nothing lost or doubled, and for each source how many rows it has and if some were left out.
   */
  method TimelineSection(sources: seq<seq<Entry>>) returns (entries: seq<Entry>, counts: seq<nat>, truncated: seq<bool>)
    requires forall i, e :: 0 <= i < |sources| && e in sources[i] ==> ValidEntry(e)
    ensures multiset(entries) == multiset(Pages(sources)) && |entries| == PageTotal(sources)
    ensures InTimeOrder(entries)
    ensures |counts| == |truncated| == |sources|
    ensures forall i :: 0 <= i < |sources| ==> counts[i] == |sources[i]| && (truncated[i] <==> |sources[i]| > SECTION_ROW_LIMIT)
  {
    var merged: seq<Entry> := [];
    counts, truncated := [], [];
    for i := 0 to |sources|
      invariant merged == Pages(sources[..i]) && |merged| == PageTotal(sources[..i])
      invariant |counts| == |truncated| == i
      invariant forall j :: 0 <= j < i ==> counts[j] == |sources[j]| && (truncated[j] <==> |sources[j]| > SECTION_ROW_LIMIT)
      invariant forall e :: e in merged ==> ValidEntry(e)
    {
      assert sources[..i + 1][..i] == sources[..i];
      var page := Page(sources[i]);
      var total, cut := CappedTotal(|page|, |sources[i]|);
      counts, truncated := counts + [total], truncated + [cut];
      assert forall e :: e in page ==> e in sources[i];
      merged := merged + page;
    }
    assert sources[..|sources|] == sources;
    entries := SortEntries(merged);
    SortedInTime(merged, entries);
  }

  lemma SortedInTime(merged: seq<Entry>, entries: seq<Entry>)
    requires KeysSorted(entries) && multiset(entries) == multiset(merged)
    requires forall e :: e in merged ==> ValidEntry(e)
    ensures InTimeOrder(entries) && |entries| == |merged|
  {
    assert |entries| == |multiset(entries)| == |multiset(merged)| == |merged|;
    forall i, j | 0 <= i < j < |entries|
      ensures !After(entries[i], entries[j])
    {
      assert entries[i] in multiset(merged) && entries[j] in multiset(merged);
      KeyOrderIsTimeOrder(entries[i], entries[j]);
    }
  }

  /** With a source listed most recent first, no row the cap dropped is after one it kept. */
  lemma CapKeepsTheMostRecent(source: seq<Entry>, kept: nat, dropped: nat)
    requires forall i, j :: 0 <= i < j < |source| ==> !After(source[j], source[i])
    requires kept < |Page(source)| && Capped(|source|) <= dropped < |source|
    ensures !After(source[dropped], Page(source)[kept])
  {
  }

  // ---------- Deleted projects ----------

  /** A project name the user journaled, and when last. */
  datatype Journaled = Journaled(name: string, last: int)

  datatype Tombstone = Tombstone(spellings: set<string>, name: string, last: int)

  /** The tombstone of a canonical name, read off the rows from the most recent on. */
  function TombstoneOf(rows: seq<Journaled>, canonical: string -> string, key: string): Option<Tombstone> {
    if rows == [] then None
    else
      var older := TombstoneOf(rows[1..], canonical, key);
      if canonical(rows[0].name) == key then
        Some(Tombstone((if older.Some? then older.value.spellings else {}) + {rows[0].name}, rows[0].name, rows[0].last))
      else older
  }

  ghost predicate Collects(tombstones: map<string, Tombstone>, rows: seq<Journaled>, canonical: string -> string) {
    forall key :: TombstoneOf(rows, canonical, key) == if key in tombstones then Some(tombstones[key]) else None
  }

  /** Reading the fetched names from the oldest on, later ones overwrite. */
  method CollectTombstones(rows: seq<Journaled>, canonical: string -> string) returns (tombstones: map<string, Tombstone>)
    ensures Collects(tombstones, rows, canonical)
  {
    tombstones := map[];
    var i := |rows|;
    while i > 0
      invariant 0 <= i <= |rows|
      invariant Collects(tombstones, rows[i..], canonical)
    {
      i := i - 1;
      var key := canonical(rows[i].name);
      var spellings := if key in tombstones then tombstones[key].spellings else {};
      tombstones := tombstones[key := Tombstone(spellings + {rows[i].name}, rows[i].name, rows[i].last)];
      assert rows[i..][1..] == rows[i + 1..];
    }
    assert rows[0..] == rows;
  }

  /**
   * A tombstone holds exactly the fetched spellings of its canonical name, and the name and date of a
   * fetched row no older than any of them.
   */
  lemma {:induction false} TombstonesGroupSpellings(rows: seq<Journaled>, canonical: string -> string, key: string)
    requires forall i, j :: 0 <= i < j < |rows| ==> rows[j].last <= rows[i].last
    ensures var t := TombstoneOf(rows, canonical, key);
      && (forall i :: 0 <= i < |rows| && canonical(rows[i].name) == key ==>
            t.Some? && rows[i].name in t.value.spellings && rows[i].last <= t.value.last)
      && (t.Some? ==> Journaled(t.value.name, t.value.last) in rows && t.value.name in t.value.spellings)
      && (t.Some? ==> forall name :: name in t.value.spellings ==> canonical(name) == key && exists last :: Journaled(name, last) in rows)
  {
    if rows == [] {
    } else {
      TombstonesGroupSpellings(rows[1..], canonical, key);
      var older := TombstoneOf(rows[1..], canonical, key);
      assert forall i :: 0 < i < |rows| ==> rows[i] == rows[1..][i - 1];
      assert Journaled(rows[0].name, rows[0].last) in rows;
      if older.Some? {
        forall name | name in older.value.spellings
          ensures exists last :: Journaled(name, last) in rows
        {
          var last :| Journaled(name, last) in rows[1..];
          assert Journaled(name, last) in rows;
        }
      }
    }
  }

  /**
   * Reported deleted are exactly the fetched canonical names without a live project, each with its
   * tombstone.
   */
  method DeletedProjects(rows: seq<Journaled>, canonical: string -> string, live: set<string>) returns (deleted: map<string, Tombstone>)
    ensures forall key :: key in deleted ==> key !in live && TombstoneOf(rows, canonical, key) == Some(deleted[key])
    ensures forall key :: key !in deleted ==> key in live || TombstoneOf(rows, canonical, key) == None
  {
    var tombstones := CollectTombstones(rows, canonical);
    deleted := tombstones - live;
    forall key
      ensures key in tombstones ==> TombstoneOf(rows, canonical, key) == Some(tombstones[key])
      ensures key !in tombstones ==> TombstoneOf(rows, canonical, key) == None
    {
    }
  }

  /** There is a tombstone of a canonical name exactly when a row with that name was fetched. */
  lemma {:induction false} TombstoneIff(rows: seq<Journaled>, canonical: string -> string, key: string)
    ensures TombstoneOf(rows, canonical, key).Some? <==> exists i :: 0 <= i < |rows| && canonical(rows[i].name) == key
  {
    if rows == [] {
    } else {
      TombstoneIff(rows[1..], canonical, key);
      assert forall i :: 0 <= i < |rows| - 1 ==> rows[1..][i] == rows[i + 1];
      if i :| 0 < i < |rows| && canonical(rows[i].name) == key {
        assert rows[1..][i - 1] == rows[i];
      }
    }
  }

  /** So a name is reported with every fetched spelling of it, and with the name and date of its latest row. */
  lemma ReportedWithLatestRow(rows: seq<Journaled>, canonical: string -> string, live: set<string>, deleted: map<string, Tombstone>, i: nat)
    requires forall i, j :: 0 <= i < j < |rows| ==> rows[j].last <= rows[i].last
    requires forall key :: key in deleted ==> key !in live && TombstoneOf(rows, canonical, key) == Some(deleted[key])
    requires forall key :: key !in deleted ==> key in live || TombstoneOf(rows, canonical, key) == None
    requires i < |rows|
    ensures var key := canonical(rows[i].name);
      && (key in deleted <==> key !in live)
      && (key in deleted ==>
            && rows[i].name in deleted[key].spellings && rows[i].last <= deleted[key].last
            && Journaled(deleted[key].name, deleted[key].last) in rows && canonical(deleted[key].name) == key)
  {
    var key := canonical(rows[i].name);
    TombstoneIff(rows, canonical, key);
    TombstonesGroupSpellings(rows, canonical, key);
  }
}
