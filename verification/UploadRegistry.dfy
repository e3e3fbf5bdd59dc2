/** The tables a file upload reads and writes: releases, files, and the log of filenames ever used. */
module UploadRegistry {
  import opened Common
  import opened Text
  import opened Releases

  type ProjectId = nat
  type ReleaseId = nat

  const MAXIMUM_AGE_FOR_NEW_UPLOADS: Time := 14 * DAY

  datatype ReleaseRow = ReleaseRow(project: ProjectId, version: string, canonicalVersion: string, key: Key,
                                   ordering: nat, created: Time)

  datatype FileRow = FileRow(release: ReleaseId, filename: string, packagetype: string,
                             sha256: string, blake2: string, path: string)

  datatype State = State(releases: map<ReleaseId, ReleaseRow>, files: seq<FileRow>, usedNames: set<string>)

  /**
   * An upload whose archive and metadata were read. `contentAccepted` and `archiveAccepted` are the
   * verdicts of the checks made before and after the ones below that do not look at these tables.
   */
  datatype Upload = Upload(
    project: ProjectId, version: string, canonicalVersion: string, parsedVersion: real, newRelease: ReleaseId,
    filename: string, filetype: string, sha256: string, blake2: string, now: Time,
    contentAccepted: bool, archiveAccepted: bool)

  datatype Outcome = Stored | AlreadyUploaded | Rejected(reason: Reason)

  datatype Reason = AmbiguousRelease | BadFilename | BadContent | FileExists | FilenameReused | ReleaseClosed | SecondSdist | BadArchive

  // ---------- Filenames and storage paths ----------

  function AllowedExtensions(filetype: string): set<string> {
    if filetype == "sdist" then {".zip", ".tar.gz"}
    else if filetype == "bdist_wheel" then {".whl"}
    else {}
  }

  predicate EndsWith(s: string, suffix: string) {
    |suffix| <= |s| && s[|s| - |suffix|..] == suffix
  }

  /** `_validate_filename`: printable, no path separators, something before an extension the filetype allows. */
  predicate ValidFilename(filename: string, filetype: string) {
    && (forall c :: c in filename ==> 32 as char <= c && c != 127 as char)
    && '/' !in filename && '\\' !in filename
    && exists e :: e in AllowedExtensions(filetype) && EndsWith(filename, e) && |filename| > |e|
  }

  predicate IsHexDigest(digest: string) {
    |digest| == 64 && forall c :: c in digest ==> '0' <= c <= '9' || 'a' <= c <= 'f'
  }

  function StoragePath(digest: string, filename: string): string
    requires |digest| >= 4
  {
    Join([digest[..2], digest[2..4], digest[4..], filename], "/")
  }

  /** Reads a storage path back. */
  function DecodePath(path: string): Option<(string, string)> {
    var parts := Split(path, '/');
    if |parts| == 4 then Some((parts[0] + parts[1] + parts[2], parts[3])) else None
  }

  /** The digest and the name determine the path, and the path gives both back. */
  lemma PathDecodes(digest: string, filename: string)
    requires IsHexDigest(digest) && '/' !in filename
    ensures DecodePath(StoragePath(digest, filename)) == Some((digest, filename))
  {
    var parts := [digest[..2], digest[2..4], digest[4..], filename];
    forall i | 0 <= i < |parts|
      ensures '/' !in parts[i]
    {
      assert i < 3 ==> forall c :: c in parts[i] ==> c in digest;
    }
    SplitJoin(parts, '/');
    assert digest[..2] + digest[2..4] + digest[4..] == digest;
  }

  // ---------- Duplicates ----------

  predicate SameNameOrContent(f: FileRow, filename: string, blake2: string) {
    f.filename == filename || f.blake2 == blake2
  }

  predicate Identical(f: FileRow, filename: string, sha256: string, blake2: string) {
    f.filename == filename && f.sha256 == sha256 && f.blake2 == blake2
  }

  /** None: no such file; true: an identical one exists; false: only one that clashes. */
  function DuplicateVerdict(files: seq<FileRow>, filename: string, sha256: string, blake2: string): Option<bool> {
    if forall i :: 0 <= i < |files| ==> !SameNameOrContent(files[i], filename, blake2) then None
    else Some(exists i :: 0 <= i < |files| && Identical(files[i], filename, sha256, blake2))
  }

  // ---------- Releases ----------

  function Candidates(s: State, project: ProjectId, canonicalVersion: string): set<ReleaseId> {
    set id | id in s.releases && s.releases[id].project == project && s.releases[id].canonicalVersion == canonicalVersion
  }

  function ExactMatches(s: State, project: ProjectId, version: string): set<ReleaseId> {
    set id | id in s.releases && s.releases[id].project == project && s.releases[id].version == version
  }

  function ProjectKeys(releases: map<ReleaseId, ReleaseRow>, project: ProjectId): set<Key> {
    set id | id in releases && releases[id].project == project :: releases[id].key
  }

  function Resorted(releases: map<ReleaseId, ReleaseRow>, project: ProjectId): map<ReleaseId, ReleaseRow> {
    map id | id in releases ::
      if releases[id].project == project
      then releases[id].(ordering := Rank(ProjectKeys(releases, project), releases[id].key))
      else releases[id]
  }

  function NewRow(u: Upload): ReleaseRow {
    ReleaseRow(u.project, u.version, u.canonicalVersion, Key(u.parsedVersion, u.newRelease), 0, u.now)
  }

  function WithNewRelease(s: State, u: Upload): State {
    s.(releases := Resorted(s.releases[u.newRelease := NewRow(u)], u.project))
  }

  /** The release the upload belongs to: one match, else an exact version among several, else a new one. */
  ghost function FindRelease(s: State, u: Upload): (r: Option<(State, ReleaseId)>)
    ensures r.Some? ==> r.value.1 in r.value.0.releases
  {
    var candidates := Candidates(s, u.project, u.canonicalVersion);
    var exact := ExactMatches(s, u.project, u.version);
    if candidates == {} then Some((WithNewRelease(s, u), u.newRelease))
    else if |candidates| == 1 then
      var id :| id in candidates;
      Some((s, id))
    else if |exact| == 1 then
      var id :| id in exact;
      Some((s, id))
    else None
  }

  // ---------- The upload ----------

  /** Why an upload to `release` is turned down after the duplicate check, if it is. */
  function Objection(s: State, release: ReleaseId, u: Upload): Option<Reason>
    requires release in s.releases
  {
    if u.filename in s.usedNames then Some(FilenameReused)
    else if u.now - s.releases[release].created > MAXIMUM_AGE_FOR_NEW_UPLOADS then Some(ReleaseClosed)
    else if u.filetype == "sdist" && exists i :: 0 <= i < |s.files| && s.files[i].release == release && s.files[i].packagetype == "sdist" then
      Some(SecondSdist)
    else if !u.archiveAccepted then Some(BadArchive)
    else None
  }

  function NewFile(release: ReleaseId, u: Upload): FileRow
    requires IsHexDigest(u.blake2)
  {
    FileRow(release, u.filename, u.filetype, u.sha256, u.blake2, StoragePath(u.blake2, u.filename))
  }

  /** The checks on the file itself, in the order they are made, and the files afterwards. */
  function StoreIn(s: State, release: ReleaseId, u: Upload): (seq<FileRow>, Outcome)
    requires release in s.releases && IsHexDigest(u.blake2)
  {
    if !ValidFilename(u.filename, u.filetype) then (s.files, Rejected(BadFilename))
    else if !u.contentAccepted then (s.files, Rejected(BadContent))
    else
      var verdict := DuplicateVerdict(s.files, u.filename, u.sha256, u.blake2);
      if verdict == Some(true) then (s.files, AlreadyUploaded)
      else if verdict == Some(false) then (s.files, Rejected(FileExists))
      else if Objection(s, release, u).Some? then (s.files, Rejected(Objection(s, release, u).value))
      else (s.files + [NewFile(release, u)], Stored)
  }

  /** `file_upload` as a transaction: anything but success leaves the tables as they were. */
  ghost function Receive(s: State, u: Upload): (State, Outcome)
    requires IsHexDigest(u.blake2)
  {
    var found := FindRelease(s, u);
    if found.None? then (s, Rejected(AmbiguousRelease))
    else
      var (s1, release) := found.value;
      var (files, outcome) := StoreIn(s1, release, u);
      (if outcome.Stored? then s1.(files := files) else s, outcome)
  }

  // ---------- What every run keeps ----------

  ghost predicate FilesInv(s: State) {
    && (forall i, j :: 0 <= i < j < |s.files| ==> s.files[i].filename != s.files[j].filename)
    && (forall i, j :: 0 <= i < j < |s.files| ==> s.files[i].blake2 != s.files[j].blake2)
    && (forall i, j :: 0 <= i < j < |s.files| && s.files[i].release == s.files[j].release ==>
          !(s.files[i].packagetype == "sdist" && s.files[j].packagetype == "sdist"))
    && (forall i :: 0 <= i < |s.files| ==>
          s.files[i].release in s.releases && DecodePath(s.files[i].path) == Some((s.files[i].blake2, s.files[i].filename)))
  }

  predicate SameRelease(a: ReleaseRow, b: ReleaseRow) {
    a.project == b.project && a.canonicalVersion == b.canonicalVersion
  }

  ghost predicate ReleasesInv(s: State) {
    && (forall a, b :: a in s.releases && b in s.releases && SameRelease(s.releases[a], s.releases[b]) ==> a == b)
    && (forall a :: a in s.releases ==>
          s.releases[a].key.id == a && s.releases[a].ordering == Rank(ProjectKeys(s.releases, s.releases[a].project), s.releases[a].key))
  }

  ghost predicate Inv(s: State) {
    FilesInv(s) && ReleasesInv(s)
  }

  const INITIAL := State(map[], [], {})

  /** Digests are hexadecimal and primary keys fresh. */
  predicate Enabled(s: State, u: Upload) {
    IsHexDigest(u.blake2) && u.newRelease !in s.releases
  }

  ghost predicate ValidRun(s: State, uploads: seq<Upload>)
    decreases |uploads|
  {
    uploads != [] ==> Enabled(s, uploads[0]) && ValidRun(Receive(s, uploads[0]).0, uploads[1..])
  }

  ghost function Run(s: State, uploads: seq<Upload>): State
    requires ValidRun(s, uploads)
    decreases |uploads|
  {
    if uploads == [] then s else Run(Receive(s, uploads[0]).0, uploads[1..])
  }

  lemma ResortKeepsKeys(releases: map<ReleaseId, ReleaseRow>, sorted: ProjectId, project: ProjectId)
    ensures ProjectKeys(Resorted(releases, sorted), project) == ProjectKeys(releases, project)
  {
    var after := Resorted(releases, sorted);
    assert after.Keys == releases.Keys;
    assert forall id :: id in releases ==> after[id].project == releases[id].project && after[id].key == releases[id].key;
    forall k
      ensures k in ProjectKeys(after, project) <==> k in ProjectKeys(releases, project)
    {
      if k in ProjectKeys(releases, project) {
        var id :| id in releases && releases[id].project == project && releases[id].key == k;
        assert after[id].key == k;
      }
      if k in ProjectKeys(after, project) {
        var id :| id in after && after[id].project == project && after[id].key == k;
        assert releases[id].key == k;
      }
    }
  }

  lemma OtherProjectsKeepKeys(releases: map<ReleaseId, ReleaseRow>, id: ReleaseId, row: ReleaseRow, project: ProjectId)
    requires id !in releases && row.project != project
    ensures ProjectKeys(releases[id := row], project) == ProjectKeys(releases, project)
  {
    var after := releases[id := row];
    forall k | k in ProjectKeys(releases, project)
      ensures k in ProjectKeys(after, project)
    {
      var i :| i in releases && releases[i].project == project && releases[i].key == k;
      assert after[i] == releases[i];
    }
  }

  lemma NewReleaseKeepsInv(s: State, u: Upload)
    requires ReleasesInv(s) && Enabled(s, u) && Candidates(s, u.project, u.canonicalVersion) == {}
    ensures ReleasesInv(WithNewRelease(s, u))
  {
    var added := s.releases[u.newRelease := NewRow(u)];
    var t := WithNewRelease(s, u);
    assert forall id :: id in s.releases ==> !SameRelease(s.releases[id], NewRow(u)) by {
      assert forall id :: id in s.releases && SameRelease(s.releases[id], NewRow(u)) ==>
        id in Candidates(s, u.project, u.canonicalVersion);
    }
    forall a, b | a in t.releases && b in t.releases && SameRelease(t.releases[a], t.releases[b])
      ensures a == b
    {
      assert SameRelease(added[a], added[b]);
    }
    forall a | a in t.releases
      ensures t.releases[a].key.id == a
      ensures t.releases[a].ordering == Rank(ProjectKeys(t.releases, t.releases[a].project), t.releases[a].key)
    {
      var project := added[a].project;
      ResortKeepsKeys(added, u.project, project);
      if project != u.project {
        OtherProjectsKeepKeys(s.releases, u.newRelease, NewRow(u), project);
      }
    }
  }

  lemma FoundRelease(s: State, u: Upload)
    requires ReleasesInv(s) && Enabled(s, u)
    ensures FindRelease(s, u).Some?
    ensures var (t, release) := FindRelease(s, u).value;
      && ReleasesInv(t) && t.files == s.files && t.usedNames == s.usedNames
      && s.releases.Keys <= t.releases.Keys && release in t.releases
      && t.releases[release].project == u.project && t.releases[release].canonicalVersion == u.canonicalVersion
  {
    var candidates := Candidates(s, u.project, u.canonicalVersion);
    if candidates == {} {
      NewReleaseKeepsInv(s, u);
    } else {
      var id :| id in candidates;
      assert forall other :: other in candidates ==> SameRelease(s.releases[other], s.releases[id]);
      assert candidates == {id};
    }
  }

  lemma StoringKeepsFilesInv(s: State, t: State, release: ReleaseId, u: Upload)
    requires FilesInv(s) && t.files == s.files && s.releases.Keys <= t.releases.Keys && release in t.releases
    requires IsHexDigest(u.blake2) && StoreIn(t, release, u).1.Stored?
    ensures FilesInv(t.(files := StoreIn(t, release, u).0))
  {
    var f := NewFile(release, u);
    assert DecodePath(f.path) == Some((f.blake2, f.filename)) by {
      PathDecodes(u.blake2, u.filename);
    }
    NewFileIsNew(s.files, t, release, u);
    AddingFileKeepsInv(s, t, f);
  }

  lemma NewFileIsNew(files: seq<FileRow>, t: State, release: ReleaseId, u: Upload)
    requires t.files == files && release in t.releases && IsHexDigest(u.blake2) && StoreIn(t, release, u).1.Stored?
    ensures forall i :: 0 <= i < |files| ==>
      && files[i].filename != u.filename && files[i].blake2 != u.blake2
      && !(files[i].release == release && files[i].packagetype == "sdist" && u.filetype == "sdist")
  {
    assert forall i :: 0 <= i < |files| ==> !SameNameOrContent(files[i], u.filename, u.blake2);
  }

  lemma AddingFileKeepsInv(s: State, t: State, f: FileRow)
    requires FilesInv(s) && t.files == s.files && s.releases.Keys <= t.releases.Keys
    requires f.release in t.releases && DecodePath(f.path) == Some((f.blake2, f.filename))
    requires forall i :: 0 <= i < |s.files| ==>
      && s.files[i].filename != f.filename && s.files[i].blake2 != f.blake2
      && !(s.files[i].release == f.release && s.files[i].packagetype == "sdist" && f.packagetype == "sdist")
    ensures FilesInv(t.(files := t.files + [f]))
  {
  }

  lemma ReceiveKeepsInv(s: State, u: Upload)
    requires Inv(s) && Enabled(s, u)
    ensures Inv(Receive(s, u).0)
  {
    FoundRelease(s, u);
    if Receive(s, u).1.Stored? {
      var (t, release) := FindRelease(s, u).value;
      StoringKeepsFilesInv(s, t, release, u);
    }
  }

  lemma {:induction false} RunKeepsInv(s: State, uploads: seq<Upload>)
    requires Inv(s) && ValidRun(s, uploads)
    ensures Inv(Run(s, uploads))
    decreases |uploads|
  {
    if uploads == [] {
    } else {
      ReceiveKeepsInv(s, uploads[0]);
      RunKeepsInv(Receive(s, uploads[0]).0, uploads[1..]);
    }
  }

  // ---------- The promises ----------

  /**
   * After any run of uploads from empty tables: filenames and contents are unique, a release has one
   * sdist at most, and every stored path gives back the digest and the filename it was made of.
   */
  lemma FilesAreUnique(uploads: seq<Upload>, i: nat, j: nat)
    requires ValidRun(INITIAL, uploads)
    requires i < j < |Run(INITIAL, uploads).files|
    ensures var files := Run(INITIAL, uploads).files;
      && files[i].filename != files[j].filename && files[i].blake2 != files[j].blake2 && files[i].path != files[j].path
      && (files[i].packagetype == "sdist" && files[j].packagetype == "sdist" ==> files[i].release != files[j].release)
      && DecodePath(files[i].path) == Some((files[i].blake2, files[i].filename))
  {
    RunKeepsInv(INITIAL, uploads);
  }

  /**
   * After any run, a project has one release per canonical version, and its releases store their ranks:
   * distinct, below their number, in the order of their versions, and of their primary keys on ties.
   */
  lemma ReleasesAreUniqueAndRanked(uploads: seq<Upload>, a: ReleaseId, b: ReleaseId)
    requires ValidRun(INITIAL, uploads)
    requires a in Run(INITIAL, uploads).releases && b in Run(INITIAL, uploads).releases && a != b
    requires Run(INITIAL, uploads).releases[a].project == Run(INITIAL, uploads).releases[b].project
    ensures var s := Run(INITIAL, uploads);
      && s.releases[a].canonicalVersion != s.releases[b].canonicalVersion
      && s.releases[a].ordering != s.releases[b].ordering
      && (s.releases[a].key.version < s.releases[b].key.version ==> s.releases[a].ordering < s.releases[b].ordering)
      && (s.releases[a].key.version == s.releases[b].key.version ==> (s.releases[a].ordering < s.releases[b].ordering <==> a < b))
      && s.releases[a].ordering < |ProjectKeys(s.releases, s.releases[a].project)|
  {
    RunKeepsInv(INITIAL, uploads);
    var s := Run(INITIAL, uploads);
    RankOrders(ProjectKeys(s.releases, s.releases[a].project), s.releases[a].key, s.releases[b].key);
  }

  /** The duplicate check may look at any matching row (`first()`): all of them give the same verdict. */
  lemma AnyMatchGivesTheVerdict(s: State, i: nat, filename: string, sha256: string, blake2: string)
    requires FilesInv(s) && i < |s.files| && SameNameOrContent(s.files[i], filename, blake2)
    ensures DuplicateVerdict(s.files, filename, sha256, blake2) == Some(Identical(s.files[i], filename, sha256, blake2))
  {
    if j :| 0 <= j < |s.files| && Identical(s.files[j], filename, sha256, blake2) {
      assert i < j || j < i || i == j;
    }
  }

  lemma {:induction false} StoredFilesStay(s: State, uploads: seq<Upload>, f: FileRow)
    requires ValidRun(s, uploads) && f in s.files
    ensures f in Run(s, uploads).files
    decreases |uploads|
  {
    if uploads == [] {
    } else {
      ReceiveKeepsFiles(s, uploads[0]);
      StoredFilesStay(Receive(s, uploads[0]).0, uploads[1..], f);
    }
  }

  lemma ReceiveKeepsFiles(s: State, u: Upload)
    requires IsHexDigest(u.blake2)
    ensures s.files <= Receive(s, u).0.files
    ensures Receive(s, u).1.Stored? ==> exists release :: Receive(s, u).0.files == s.files + [NewFile(release, u)]
  {
    if Receive(s, u).1.Stored? {
      var (t, release) := FindRelease(s, u).value;
      assert t.files == s.files;
      assert Receive(s, u).0.files == s.files + [NewFile(release, u)];
    }
  }

  /** With an identical file in the table, an upload changes nothing. */
  lemma IdenticalUploadChangesNothing(s: State, f: FileRow, again: Upload)
    requires Inv(s) && f in s.files && Enabled(s, again) && Identical(f, again.filename, again.sha256, again.blake2)
    ensures Receive(s, again).0 == s
    ensures Receive(s, again).1 in {AlreadyUploaded, Rejected(BadFilename), Rejected(BadContent)}
  {
    var i :| 0 <= i < |s.files| && s.files[i] == f;
    AnyMatchGivesTheVerdict(s, i, again.filename, again.sha256, again.blake2);
    FoundRelease(s, again);
  }

  lemma StoredFileIsThere(s: State, u: Upload) returns (f: FileRow)
    requires IsHexDigest(u.blake2) && Receive(s, u).1.Stored?
    ensures f in Receive(s, u).0.files && Identical(f, u.filename, u.sha256, u.blake2)
  {
    ReceiveKeepsFiles(s, u);
    var release :| Receive(s, u).0.files == s.files + [NewFile(release, u)];
    f := NewFile(release, u);
  }

  /**
   * Sending an accepted file again, at any later time and with any release metadata, changes nothing;
   * if it gets as far as the duplicate check it is answered "already uploaded".
   */
  lemma ResendingChangesNothing(before: seq<Upload>, u: Upload, after: seq<Upload>, again: Upload)
    requires ValidRun(INITIAL, before) && Enabled(Run(INITIAL, before), u)
    requires Receive(Run(INITIAL, before), u).1.Stored?
    requires ValidRun(Receive(Run(INITIAL, before), u).0, after)
    requires Enabled(Run(Receive(Run(INITIAL, before), u).0, after), again)
    requires again.filename == u.filename && again.sha256 == u.sha256 && again.blake2 == u.blake2
    ensures var s := Run(Receive(Run(INITIAL, before), u).0, after);
      && Receive(s, again).0 == s
      && Receive(s, again).1 in {AlreadyUploaded, Rejected(BadFilename), Rejected(BadContent)}
  {
    var s0 := Run(INITIAL, before);
    RunKeepsInv(INITIAL, before);
    ReceiveKeepsInv(s0, u);
    var s1 := Receive(s0, u).0;
    RunKeepsInv(s1, after);
    var f := StoredFileIsThere(s0, u);
    StoredFilesStay(s1, after, f);
    IdenticalUploadChangesNothing(Run(s1, after), f, again);
  }
}
