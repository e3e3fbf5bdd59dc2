/** Counting what a release's files attest to, and comparing two releases. */
module Provenance {
  import opened Common

  datatype Kind = GitHubKind | GitLabKind | GoogleKind

  datatype Publisher =
    | GitHub(repository: string, workflow: string)
    | GitLab(repository: string, workflowFilepath: string)
    | Google(email: string)

  /** What sources and workflows are compared by; the URLs the source also carries take no part. */
  datatype Source = Source(kind: Kind, identity: string)
  datatype Workflow = Workflow(kind: Kind, repository: string, workflow: string)

  /** One file's provenance: its bundles' publishers, unless the stored payload does not parse. */
  datatype Attested = Unparsable | Bundles(publishers: seq<Publisher>)

  function PublisherSource(p: Publisher): Source {
    match p
    case GitHub(repository, _) => Source(GitHubKind, repository)
    case GitLab(repository, _) => Source(GitLabKind, repository)
    case Google(email) => Source(GoogleKind, email)
  }

  function PublisherWorkflow(p: Publisher): Option<Workflow> {
    match p
    case GitHub(repository, workflow) => Some(Workflow(GitHubKind, repository, workflow))
    case GitLab(repository, path) => Some(Workflow(GitLabKind, repository, path))
    case Google(_) => None
  }

  function Publishers(a: Attested): set<Publisher> {
    if a.Unparsable? then {} else set p | p in a.publishers
  }

  function Sources(a: Attested): set<Source> {
    set p | p in Publishers(a) :: PublisherSource(p)
  }

  function Workflows(a: Attested): set<Workflow> {
    set p | p in Publishers(a) && PublisherWorkflow(p).Some? :: PublisherWorkflow(p).value
  }

  /** `get_provenance_sources`. */
  method GetProvenanceSources(a: Attested) returns (extracted: Option<(set<Source>, set<Workflow>)>)
    ensures extracted == if a.Unparsable? then None else Some((Sources(a), Workflows(a)))
  {
    if a.Unparsable? {
      return None;
    }
    var sources, workflows := {}, {};
    for i := 0 to |a.publishers|
      invariant sources == Sources(Bundles(a.publishers[..i]))
      invariant workflows == Workflows(Bundles(a.publishers[..i]))
    {
      var p := a.publishers[i];
      assert Publishers(Bundles(a.publishers[..i + 1])) == Publishers(Bundles(a.publishers[..i])) + {p};
      sources := sources + {PublisherSource(p)};
      var workflow := PublisherWorkflow(p);
      if workflow.Some? {
        workflows := workflows + {workflow.value};
      }
    }
    assert a.publishers[..|a.publishers|] == a.publishers;
    return Some((sources, workflows));
  }

  /** Which sources and workflows a file names, in terms of its publishers. */
  lemma NamedIff(a: Attested, source: Source, workflow: Workflow)
    ensures source in Sources(a) <==>
      exists p :: p in Publishers(a) && match p
                                        case GitHub(repository, _) => source == Source(GitHubKind, repository)
                                        case GitLab(repository, _) => source == Source(GitLabKind, repository)
                                        case Google(email) => source == Source(GoogleKind, email)
    ensures workflow in Workflows(a) <==>
      a.Bundles? && (|| (workflow.kind == GitHubKind && GitHub(workflow.repository, workflow.workflow) in a.publishers)
                     || (workflow.kind == GitLabKind && GitLab(workflow.repository, workflow.workflow) in a.publishers))
  {
    if workflow in Workflows(a) {
      var p :| p in Publishers(a) && PublisherWorkflow(p) == Some(workflow);
    }
    if a.Bundles? {
      var p, q := GitHub(workflow.repository, workflow.workflow), GitLab(workflow.repository, workflow.workflow);
      assert p in a.publishers ==> p in Publishers(a) && PublisherWorkflow(p).value in Workflows(a);
      assert q in a.publishers ==> q in Publishers(a) && PublisherWorkflow(q).value in Workflows(a);
    }
    if source in Sources(a) {
      var p :| p in Publishers(a) && PublisherSource(p) == source;
    }
  }

  // ---------- Counting ----------

  type Counter<!K> = map<K, nat>

  function Times<K>(counter: Counter<K>, key: K): nat {
    if key in counter then counter[key] else 0
  }

  /** `Counter.update` with a set: each of its keys counts once more. */
  function Counted<K>(counter: Counter<K>, keys: set<K>): Counter<K> {
    map k | k in counter.Keys + keys :: Times(counter, k) + (if k in keys then 1 else 0)
  }

  datatype Counts = Counts(
    totalFiles: nat,
    filesWithProvenance: nat,
    unreadableFiles: nat,
    sourceCounts: Counter<Source>,
    workflowCounts: Counter<Workflow>,
    filesWithSources: nat,
    filesWithWorkflows: nat)

  /** The number of elements with a property: what every count is by definition. */
  function Tally<T>(s: seq<T>, p: T -> bool): nat {
    if s == [] then 0 else Tally(s[..|s| - 1], p) + (if p(s[|s| - 1]) then 1 else 0)
  }

  function HasSource(k: Source): Attested -> bool {
    (a: Attested) => k in Sources(a)
  }

  function HasWorkflow(k: Workflow): Attested -> bool {
    (a: Attested) => k in Workflows(a)
  }

  function IsUnreadable(): Attested -> bool {
    (a: Attested) => a.Unparsable?
  }

  function HasSources(): Attested -> bool {
    (a: Attested) => Sources(a) != {}
  }

  function HasWorkflows(): Attested -> bool {
    (a: Attested) => Workflows(a) != {}
  }

  /** Every count is the number of files that name the thing counted; only things named are listed. */
  ghost predicate Tallies(c: Counts, files: seq<Attested>) {
    && c.filesWithProvenance == |files|
    && c.unreadableFiles == Tally(files, IsUnreadable())
    && c.filesWithSources == Tally(files, HasSources())
    && c.filesWithWorkflows == Tally(files, HasWorkflows())
    && (forall k :: Times(c.sourceCounts, k) == Tally(files, HasSource(k)))
    && (forall k :: Times(c.workflowCounts, k) == Tally(files, HasWorkflow(k)))
    && (forall k :: k in c.sourceCounts ==> c.sourceCounts[k] > 0)
    && (forall k :: k in c.workflowCounts ==> c.workflowCounts[k] > 0)
  }

  /** `counts_from_provenance`. */
  method CountsFromProvenance(totalFiles: nat, files: seq<Attested>) returns (c: Counts)
    ensures Tallies(c, files) && c.totalFiles == totalFiles
  {
    var sourceCounter: Counter<Source> := map[];
    var workflowCounter: Counter<Workflow> := map[];
    var unreadable, withSources, withWorkflows := 0, 0, 0;
    for i := 0 to |files|
      invariant Tallies(Counts(totalFiles, i, unreadable, sourceCounter, workflowCounter, withSources, withWorkflows), files[..i])
    {
      assert files[..i + 1][..i] == files[..i];
      var extracted := GetProvenanceSources(files[i]);
      if extracted.None? {
        unreadable := unreadable + 1;
      } else {
        var (sources, workflows) := extracted.value;
        withSources := withSources + (if sources != {} then 1 else 0);
        withWorkflows := withWorkflows + (if workflows != {} then 1 else 0);
        sourceCounter := Counted(sourceCounter, sources);
        workflowCounter := Counted(workflowCounter, workflows);
      }
    }
    assert files[..|files|] == files;
    return Counts(totalFiles, |files|, unreadable, sourceCounter, workflowCounter, withSources, withWorkflows);
  }

  // ---------- What the counts say ----------

  lemma {:induction false} TallyAppend<T>(a: seq<T>, b: seq<T>, p: T -> bool)
    ensures Tally(a + b, p) == Tally(a, p) + Tally(b, p)
  {
    if b == [] {
      assert a + b == a;
    } else {
      TallyAppend(a, b[..|b| - 1], p);
      assert (a + b)[..|a + b| - 1] == a + b[..|b| - 1];
    }
  }

  lemma {:induction false} TallyPermutation<T>(a: seq<T>, b: seq<T>, p: T -> bool)
    requires multiset(a) == multiset(b)
    ensures Tally(a, p) == Tally(b, p)
    decreases |a|
  {
    if a == [] {
      assert |multiset(b)| == |b| == 0;
    } else {
      var x, init := a[|a| - 1], a[..|a| - 1];
      var left, right := SplitAround(a, b);
      TallyPermutation(init, left + right, p);
      TallyAround(left, x, right, p);
    }
  }

  /** Where the last element of `a` stands in `b`. */
  lemma SplitAround<T>(a: seq<T>, b: seq<T>) returns (left: seq<T>, right: seq<T>)
    requires a != [] && multiset(a) == multiset(b)
    ensures b == left + ([a[|a| - 1]] + right)
    ensures multiset(a[..|a| - 1]) == multiset(left + right)
  {
    var x := a[|a| - 1];
    assert x in multiset(a);
    var i :| 0 <= i < |b| && b[i] == x;
    left, right := b[..i], b[i + 1..];
    assert b == left + ([x] + right);
    assert a == a[..|a| - 1] + [x];
    SameWithoutOne(a[..|a| - 1], x, left, right);
  }

  lemma SameWithoutOne<T>(init: seq<T>, x: T, left: seq<T>, right: seq<T>)
    requires multiset(init + [x]) == multiset(left + ([x] + right))
    ensures multiset(init) == multiset(left + right)
  {
    var l, r := multiset(left), multiset(right);
    assert multiset(init) == multiset(init + [x]) - multiset{x};
    assert multiset(left + ([x] + right)) == l + (multiset{x} + r);
    assert l + r == l + (multiset{x} + r) - multiset{x};
  }

  lemma TallyAround<T>(left: seq<T>, x: T, right: seq<T>, p: T -> bool)
    ensures Tally(left + ([x] + right), p) == Tally(left + right, p) + (if p(x) then 1 else 0)
  {
    TallyAppend(left, right, p);
    TallyAppend(left, [x] + right, p);
    TallyAppend([x], right, p);
    assert [x][..0] == [];
  }

  lemma {:induction false} TallyMonotone<T>(s: seq<T>, p: T -> bool, q: T -> bool)
    requires forall x :: x in s && p(x) ==> q(x)
    ensures Tally(s, p) <= Tally(s, q) <= |s|
  {
    if s == [] {
    } else {
      TallyMonotone(s[..|s| - 1], p, q);
    }
  }

  lemma {:induction false} TallyComplement<T>(s: seq<T>, p: T -> bool, q: T -> bool)
    requires forall x :: x in s ==> !(p(x) && q(x))
    ensures Tally(s, p) + Tally(s, q) <= |s|
  {
    if s == [] {
    } else {
      TallyComplement(s[..|s| - 1], p, q);
    }
  }

  /** Counting two batches of files separately and adding up is counting them together. */
  lemma CountsAreAdditive(a: seq<Attested>, b: seq<Attested>, ca: Counts, cb: Counts, c: Counts, source: Source, workflow: Workflow)
    requires Tallies(ca, a) && Tallies(cb, b) && Tallies(c, a + b)
    ensures c.unreadableFiles == ca.unreadableFiles + cb.unreadableFiles
    ensures c.filesWithSources == ca.filesWithSources + cb.filesWithSources
    ensures c.filesWithWorkflows == ca.filesWithWorkflows + cb.filesWithWorkflows
    ensures Times(c.sourceCounts, source) == Times(ca.sourceCounts, source) + Times(cb.sourceCounts, source)
    ensures Times(c.workflowCounts, workflow) == Times(ca.workflowCounts, workflow) + Times(cb.workflowCounts, workflow)
  {
    TallyAppend(a, b, IsUnreadable());
    TallyAppend(a, b, HasSources());
    TallyAppend(a, b, HasWorkflows());
    TallyAppend(a, b, HasSource(source));
    TallyAppend(a, b, HasWorkflow(workflow));
  }

  /** The counts do not depend on the order of the files; with that they are determined. */
  lemma CountsIgnoreOrder(a: seq<Attested>, b: seq<Attested>, ca: Counts, cb: Counts)
    requires multiset(a) == multiset(b) && Tallies(ca, a) && Tallies(cb, b) && ca.totalFiles == cb.totalFiles
    ensures ca == cb
  {
    assert |a| == |multiset(a)| == |multiset(b)| == |b|;
    TallyPermutation(a, b, IsUnreadable());
    TallyPermutation(a, b, HasSources());
    TallyPermutation(a, b, HasWorkflows());
    forall k: Source
      ensures Times(ca.sourceCounts, k) == Times(cb.sourceCounts, k)
    {
      TallyPermutation(a, b, HasSource(k));
    }
    forall k: Workflow
      ensures Times(ca.workflowCounts, k) == Times(cb.workflowCounts, k)
    {
      TallyPermutation(a, b, HasWorkflow(k));
    }
    SameTimes(ca.sourceCounts, cb.sourceCounts);
    SameTimes(ca.workflowCounts, cb.workflowCounts);
  }

  lemma SameTimes<K(!new)>(a: Counter<K>, b: Counter<K>)
    requires forall k :: Times(a, k) == Times(b, k)
    requires (forall k :: k in a ==> a[k] > 0) && (forall k :: k in b ==> b[k] > 0)
    ensures a == b
  {
    assert forall k :: k in a <==> Times(a, k) > 0;
    assert forall k :: k in b <==> Times(b, k) > 0;
    assert a.Keys == b.Keys;
    assert forall k :: k in a ==> a[k] == Times(a, k) && b[k] == Times(b, k);
  }

  /** A workflow is named by no more files than its repository, that by no more than name any source, and those are readable. */
  lemma CountsAreNested(files: seq<Attested>, c: Counts, w: Workflow)
    requires Tallies(c, files)
    ensures Times(c.workflowCounts, w) <= Times(c.sourceCounts, Source(w.kind, w.repository))
      <= c.filesWithSources <= c.filesWithProvenance - c.unreadableFiles
  {
    var source := Source(w.kind, w.repository);
    TallyMonotone(files, HasWorkflow(w), HasSource(source));
    TallyMonotone(files, HasSource(source), HasSources());
    TallyComplement(files, IsUnreadable(), HasSources());
  }

  // ---------- Status ----------

  datatype ProvenanceState = NoProvenance | FullProvenance | PartialProvenance | InconsistentProvenance | LostProvenance | ChangedProvenance

  /** A release's counts and, if there is one, those of the release it is compared with. */
  datatype Status = Status(counts: Counts, comparison: Option<Counts>) {

    function Comparable(): Option<Counts> {
      if comparison.None? || counts.unreadableFiles > 0 || comparison.value.unreadableFiles > 0 then None else comparison
    }

    function AddedSources(): set<Source> {
      if Comparable().None? then {} else counts.sourceCounts.Keys - Comparable().value.sourceCounts.Keys
    }

    function RemovedSources(): set<Source> {
      if Comparable().None? then {} else Comparable().value.sourceCounts.Keys - counts.sourceCounts.Keys
    }

    function AddedWorkflows(): set<Workflow> {
      if Comparable().None? then {} else counts.workflowCounts.Keys - Comparable().value.workflowCounts.Keys
    }

    function RemovedWorkflows(): set<Workflow> {
      if Comparable().None? then {} else Comparable().value.workflowCounts.Keys - counts.workflowCounts.Keys
    }

    function Coverage(): ProvenanceState {
      if counts.filesWithProvenance == 0 then NoProvenance
      else if counts.filesWithProvenance == counts.totalFiles then FullProvenance
      else PartialProvenance
    }

    function Delta(): set<ProvenanceState> {
      if comparison.None? then {}
      else if counts.filesWithProvenance == 0 && comparison.value.filesWithProvenance > 0 then {LostProvenance}
      else if AddedSources() != {} || RemovedSources() != {} || AddedWorkflows() != {} || RemovedWorkflows() != {} then {ChangedProvenance}
      else {}
    }

    function States(): set<ProvenanceState> {
      {Coverage()}
      + (if |counts.sourceCounts| > 1 || |counts.workflowCounts| > 1 then {InconsistentProvenance} else {})
      + Delta()
    }
  }

  lemma StateMembership(status: Status)
    ensures LostProvenance in status.States() <==> LostProvenance in status.Delta()
    ensures ChangedProvenance in status.States() <==> ChangedProvenance in status.Delta()
    ensures InconsistentProvenance in status.States() <==> |status.counts.sourceCounts| > 1 || |status.counts.workflowCounts| > 1
    ensures forall x :: x in {NoProvenance, FullProvenance, PartialProvenance} ==> (x in status.States() <==> x == status.Coverage())
  {
  }

  lemma NoFilesNoCounts(c: Counts)
    requires Tallies(c, [])
    ensures c.sourceCounts == map[] && c.workflowCounts == map[]
  {
    assert forall k :: k in c.sourceCounts ==> Times(c.sourceCounts, k) > 0;
    assert forall k :: k in c.workflowCounts ==> Times(c.workflowCounts, k) > 0;
  }

  /**
   * Exactly one of none, full and partial holds; a release has lost provenance exactly when it has none
   * and the release compared with had some; then it has not changed, and without provenance it is
   * neither inconsistent nor changed.
   */
  lemma WithoutProvenance(files: seq<Attested>, other: seq<Attested>, status: Status)
    requires Tallies(status.counts, files)
    requires status.comparison.Some? ==> Tallies(status.comparison.value, other)
    ensures NoProvenance in status.States() <==> files == []
    ensures FullProvenance in status.States() <==> files != [] && |files| == status.counts.totalFiles
    ensures PartialProvenance in status.States() <==> files != [] && |files| != status.counts.totalFiles
    ensures !(LostProvenance in status.States() && ChangedProvenance in status.States())
    ensures LostProvenance in status.States() <==> files == [] && status.comparison.Some? && other != []
    ensures files == [] ==> InconsistentProvenance !in status.States() && ChangedProvenance !in status.States()
  {
    StateMembership(status);
    if files == [] {
      NoFilesNoCounts(status.counts);
      if status.comparison.Some? && other == [] {
        NoFilesNoCounts(status.comparison.value);
      }
    }
  }

  /**
   * What one release added over another is what the other removed, so two releases that both attest
   * something agree on whether the publishers changed between them.
   */
  lemma ChangeIsSymmetric(a: Counts, b: Counts)
    ensures Status(a, Some(b)).AddedSources() == Status(b, Some(a)).RemovedSources()
    ensures Status(a, Some(b)).AddedWorkflows() == Status(b, Some(a)).RemovedWorkflows()
    ensures a.filesWithProvenance > 0 && b.filesWithProvenance > 0 ==>
      (ChangedProvenance in Status(a, Some(b)).States() <==> ChangedProvenance in Status(b, Some(a)).States())
  {
    DeltasMirror(a, b);
    DeltasMirror(b, a);
    StateMembership(Status(a, Some(b)));
    StateMembership(Status(b, Some(a)));
  }

  lemma DeltasMirror(a: Counts, b: Counts)
    ensures Status(a, Some(b)).AddedSources() == Status(b, Some(a)).RemovedSources()
    ensures Status(a, Some(b)).AddedWorkflows() == Status(b, Some(a)).RemovedWorkflows()
  {
  }

  predicate NamesSource(files: seq<Attested>, source: Source) {
    exists i :: 0 <= i < |files| && source in Sources(files[i])
  }

  predicate NamesWorkflow(files: seq<Attested>, workflow: Workflow) {
    exists i :: 0 <= i < |files| && workflow in Workflows(files[i])
  }

  lemma {:induction false} TallyIsPositiveIff<T>(s: seq<T>, p: T -> bool)
    ensures Tally(s, p) > 0 <==> exists i :: 0 <= i < |s| && p(s[i])
  {
    if s == [] {
    } else {
      var init := s[..|s| - 1];
      TallyIsPositiveIff(init, p);
      if i :| 0 <= i < |init| && p(init[i]) {
        assert p(s[i]);
      }
      if p(s[|s| - 1]) {
        assert 0 <= |s| - 1 < |s|;
      }
    }
  }

  /** The counters list exactly what some file names. */
  lemma ListedIffNamed(files: seq<Attested>, c: Counts, source: Source, workflow: Workflow)
    requires Tallies(c, files)
    ensures source in c.sourceCounts <==> NamesSource(files, source)
    ensures workflow in c.workflowCounts <==> NamesWorkflow(files, workflow)
  {
    TallyIsPositiveIff(files, HasSource(source));
    TallyIsPositiveIff(files, HasWorkflow(workflow));
    assert Times(c.sourceCounts, source) == Tally(files, HasSource(source));
    assert Times(c.workflowCounts, workflow) == Tally(files, HasWorkflow(workflow));
  }

  /**
   * Provenance changed, in terms of the files of both releases: this one attests something or the other
   * nothing, every file of both can be read, and some source or workflow is named by one only.
   */
  lemma ChangedIff(files: seq<Attested>, other: seq<Attested>, a: Counts, b: Counts)
    requires Tallies(a, files) && Tallies(b, other)
    ensures ChangedProvenance in Status(a, Some(b)).States() <==>
      && (files != [] || other == []) && Unparsable !in files && Unparsable !in other
      && ((exists source :: NamesSource(files, source) != NamesSource(other, source))
          || (exists workflow :: NamesWorkflow(files, workflow) != NamesWorkflow(other, workflow)))
  {
    hide Tallies, NamesSource, NamesWorkflow, Status.States;
    ChangedMeans(a, b);
    UnreadableIff(files, a);
    UnreadableIff(other, b);
    AttestingIff(files, a);
    AttestingIff(other, b);
    SourcesDifferIff(files, other, a, b);
    WorkflowsDifferIff(files, other, a, b);
  }

  lemma ChangedMeans(a: Counts, b: Counts)
    ensures ChangedProvenance in Status(a, Some(b)).States() <==>
      && !(a.filesWithProvenance == 0 && b.filesWithProvenance > 0) && a.unreadableFiles == 0 && b.unreadableFiles == 0
      && (|| a.sourceCounts.Keys - b.sourceCounts.Keys != {} || b.sourceCounts.Keys - a.sourceCounts.Keys != {}
          || a.workflowCounts.Keys - b.workflowCounts.Keys != {} || b.workflowCounts.Keys - a.workflowCounts.Keys != {})
  {
    hide Status.States, Status.Delta, Status.AddedSources, Status.RemovedSources, Status.AddedWorkflows, Status.RemovedWorkflows;
    var status := Status(a, Some(b));
    StateMembership(status);
    DeltaMeans(status);
    DifferencesMean(status);
  }

  lemma DeltaMeans(status: Status)
    requires status.comparison.Some?
    ensures ChangedProvenance in status.Delta() <==>
      && !(status.counts.filesWithProvenance == 0 && status.comparison.value.filesWithProvenance > 0)
      && (|| status.AddedSources() != {} || status.RemovedSources() != {}
          || status.AddedWorkflows() != {} || status.RemovedWorkflows() != {})
  {
    hide Status.AddedSources, Status.RemovedSources, Status.AddedWorkflows, Status.RemovedWorkflows;
  }

  lemma DifferencesMean(status: Status)
    requires status.comparison.Some?
    ensures var a, b := status.counts, status.comparison.value;
      var readable := a.unreadableFiles == 0 && b.unreadableFiles == 0;
      && status.AddedSources() == (if readable then a.sourceCounts.Keys - b.sourceCounts.Keys else {})
      && status.RemovedSources() == (if readable then b.sourceCounts.Keys - a.sourceCounts.Keys else {})
      && status.AddedWorkflows() == (if readable then a.workflowCounts.Keys - b.workflowCounts.Keys else {})
      && status.RemovedWorkflows() == (if readable then b.workflowCounts.Keys - a.workflowCounts.Keys else {})
  {
  }

  lemma AttestingIff(files: seq<Attested>, c: Counts)
    requires Tallies(c, files)
    ensures c.filesWithProvenance > 0 <==> files != []
  {
  }

  lemma UnreadableIff(files: seq<Attested>, c: Counts)
    requires Tallies(c, files)
    ensures c.unreadableFiles > 0 <==> Unparsable in files
  {
    TallyIsPositiveIff(files, IsUnreadable());
  }

  lemma SourcesDifferIff(files: seq<Attested>, other: seq<Attested>, a: Counts, b: Counts)
    requires Tallies(a, files) && Tallies(b, other)
    ensures a.sourceCounts.Keys - b.sourceCounts.Keys != {} || b.sourceCounts.Keys - a.sourceCounts.Keys != {} <==>
      exists source :: NamesSource(files, source) != NamesSource(other, source)
  {
    hide Tallies, NamesSource, NamesWorkflow;
    forall source
      ensures source in a.sourceCounts.Keys <==> NamesSource(files, source)
      ensures source in b.sourceCounts.Keys <==> NamesSource(other, source)
    {
      var any := Workflow(GitHubKind, "", "");
      ListedIffNamed(files, a, source, any);
      ListedIffNamed(other, b, source, any);
    }
    DifferIff(a.sourceCounts.Keys, b.sourceCounts.Keys);
  }

  lemma WorkflowsDifferIff(files: seq<Attested>, other: seq<Attested>, a: Counts, b: Counts)
    requires Tallies(a, files) && Tallies(b, other)
    ensures a.workflowCounts.Keys - b.workflowCounts.Keys != {} || b.workflowCounts.Keys - a.workflowCounts.Keys != {} <==>
      exists workflow :: NamesWorkflow(files, workflow) != NamesWorkflow(other, workflow)
  {
    hide Tallies, NamesSource, NamesWorkflow;
    forall workflow
      ensures workflow in a.workflowCounts.Keys <==> NamesWorkflow(files, workflow)
      ensures workflow in b.workflowCounts.Keys <==> NamesWorkflow(other, workflow)
    {
      var any := Source(GitHubKind, "");
      ListedIffNamed(files, a, any, workflow);
      ListedIffNamed(other, b, any, workflow);
    }
    DifferIff(a.workflowCounts.Keys, b.workflowCounts.Keys);
  }

  lemma DifferIff<K(!new)>(a: set<K>, b: set<K>)
    ensures a - b != {} || b - a != {} <==> exists k :: (k in a) != (k in b)
  {
    if a - b != {} {
      var k :| k in a - b;
      assert k in a && k !in b;
    }
    if b - a != {} {
      var k :| k in b - a;
      assert k in b && k !in a;
    }
    if k :| (k in a) != (k in b) {
      assert k in a - b || k in b - a;
    }
  }

  lemma MoreThanOneIff<K(!new)>(keys: set<K>)
    ensures |keys| > 1 <==> exists j, k :: j in keys && k in keys && j != k
  {
    if |keys| > 1 {
      var j :| j in keys;
      assert |keys - {j}| == |keys| - 1;
      var k :| k in keys - {j};
      assert j in keys && k in keys && j != k;
    }
    if j, k :| j in keys && k in keys && j != k {
      SubsetCount({j, k}, keys);
    }
  }

  /** Provenance is inconsistent exactly when the files name two different sources, or two different workflows. */
  lemma InconsistentIff(files: seq<Attested>, status: Status)
    requires Tallies(status.counts, files)
    ensures InconsistentProvenance in status.States() <==>
      || (exists j, k :: NamesSource(files, j) && NamesSource(files, k) && j != k)
      || (exists j, k :: NamesWorkflow(files, j) && NamesWorkflow(files, k) && j != k)
  {
    hide Tallies, NamesSource, NamesWorkflow, Status.States;
    StateMembership(status);
    SeveralSourcesIff(files, status.counts);
    SeveralWorkflowsIff(files, status.counts);
  }

  lemma SeveralSourcesIff(files: seq<Attested>, c: Counts)
    requires Tallies(c, files)
    ensures |c.sourceCounts| > 1 <==> exists j, k :: NamesSource(files, j) && NamesSource(files, k) && j != k
  {
    hide Tallies, NamesSource;
    forall source
      ensures source in c.sourceCounts.Keys <==> NamesSource(files, source)
    {
      ListedIffNamed(files, c, source, Workflow(GitHubKind, "", ""));
    }
    assert |c.sourceCounts| == |c.sourceCounts.Keys|;
    MoreThanOneIff(c.sourceCounts.Keys);
  }

  lemma SeveralWorkflowsIff(files: seq<Attested>, c: Counts)
    requires Tallies(c, files)
    ensures |c.workflowCounts| > 1 <==> exists j, k :: NamesWorkflow(files, j) && NamesWorkflow(files, k) && j != k
  {
    hide Tallies, NamesWorkflow;
    forall workflow
      ensures workflow in c.workflowCounts.Keys <==> NamesWorkflow(files, workflow)
    {
      ListedIffNamed(files, c, Source(GitHubKind, ""), workflow);
    }
    assert |c.workflowCounts| == |c.workflowCounts.Keys|;
    MoreThanOneIff(c.workflowCounts.Keys);
  }
}
