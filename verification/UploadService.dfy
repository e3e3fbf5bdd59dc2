/** The upload handler carried out step by step, inside the transaction that wraps it. */
module UploadServices {
  import opened Common
  import opened Releases
  import opened UploadRegistry

  datatype Received = Complete(content: seq<bv8>) | FileTooLarge | ProjectTooLarge

  function Total(chunks: seq<seq<bv8>>): nat {
    if chunks == [] then 0 else |chunks[0]| + Total(chunks[1..])
  }

  function Concat(chunks: seq<seq<bv8>>): seq<bv8> {
    if chunks == [] then [] else chunks[0] + Concat(chunks[1..])
  }

  lemma {:induction false} ConcatSnoc(chunks: seq<seq<bv8>>, chunk: seq<bv8>)
    ensures Concat(chunks + [chunk]) == Concat(chunks) + chunk
    ensures Total(chunks + [chunk]) == Total(chunks) + |chunk|
  {
    if chunks == [] {
      assert [] + [chunk] == [chunk];
    } else {
      ConcatSnoc(chunks[1..], chunk);
      assert (chunks + [chunk])[1..] == chunks[1..] + [chunk];
    }
  }

  lemma {:induction false} TotalPrefix(chunks: seq<seq<bv8>>, i: nat)
    requires i <= |chunks|
    ensures Total(chunks[..i]) <= Total(chunks)
  {
    if i == 0 {
    } else {
      TotalPrefix(chunks[1..], i - 1);
      assert chunks[..i][1..] == chunks[1..][..i - 1];
    }
  }

  /**
   * Buffers the uploaded content chunk by chunk under both limits. An empty file has no chunk and is
   * not measured at all; otherwise the content is complete exactly when it fits both.
   */
  method BufferContent(chunks: seq<seq<bv8>>, fileSizeLimit: nat, projectTotal: nat, projectSizeLimit: nat) returns (r: Received)
    ensures r.Complete? <==> chunks == [] || (Total(chunks) <= fileSizeLimit && Total(chunks) + projectTotal <= projectSizeLimit)
    ensures r.Complete? ==> r.content == Concat(chunks)
    ensures r.FileTooLarge? ==> Total(chunks) > fileSizeLimit
    ensures r.ProjectTooLarge? ==> Total(chunks) + projectTotal > projectSizeLimit
  {
    var content: seq<bv8> := [];
    var fileSize := 0;
    for i := 0 to |chunks|
      invariant content == Concat(chunks[..i]) && fileSize == Total(chunks[..i])
      invariant i > 0 ==> fileSize <= fileSizeLimit && fileSize + projectTotal <= projectSizeLimit
    {
      ConcatSnoc(chunks[..i], chunks[i]);
      assert chunks[..i + 1] == chunks[..i] + [chunks[i]];
      TotalPrefix(chunks, i + 1);
      fileSize := fileSize + |chunks[i]|;
      if fileSize > fileSizeLimit {
        return FileTooLarge;
      }
      if fileSize + projectTotal > projectSizeLimit {
        return ProjectTooLarge;
      }
      content := content + chunks[i];
    }
    assert chunks[..|chunks|] == chunks;
    return Complete(content);
  }

  // ---------- The releases of one project, as rows and as objects ----------

  /** The project's releases, in primary-key order. */
  ghost predicate Lists(ids: seq<ReleaseId>, releases: map<ReleaseId, ReleaseRow>, project: ProjectId) {
    && (forall i, j :: 0 <= i < j < |ids| ==> ids[i] < ids[j])
    && (forall id :: id in ids <==> id in releases && releases[id].project == project)
  }

  predicate KeysAreIds(releases: map<ReleaseId, ReleaseRow>) {
    forall id :: id in releases ==> releases[id].key.id == id
  }

  /** The rows once the ranks of these releases are stored. */
  function WithRanks(releases: map<ReleaseId, ReleaseRow>, project: ProjectId, ids: seq<ReleaseId>): map<ReleaseId, ReleaseRow> {
    map id | id in releases ::
      if id in ids then releases[id].(ordering := Rank(ProjectKeys(releases, project), releases[id].key)) else releases[id]
  }

  ghost function Least(ids: set<nat>): (least: nat)
    requires ids != {}
    ensures least in ids && forall other :: other in ids ==> least <= other
    decreases |ids|
  {
    var id :| id in ids;
    assert forall other :: other in ids ==> other == id || other in ids - {id};
    if ids - {id} == {} then id
    else
      var rest := Least(ids - {id});
      if id < rest then id else rest
  }

  lemma SelectOneMore(ids: seq<ReleaseId>, id: ReleaseId)
    requires forall i, j :: 0 <= i < j < |ids| ==> ids[i] < ids[j]
    requires forall x :: x in ids ==> x < id
    ensures forall x :: x in ids + [id] <==> x in ids || x == id
    ensures forall i, j :: 0 <= i < j < |ids + [id]| ==> (ids + [id])[i] < (ids + [id])[j]
  {
    assert forall i :: 0 <= i < |ids| ==> ids[i] in ids;
  }

  lemma SameProjectKeys(releases: map<ReleaseId, ReleaseRow>, project: ProjectId, ids: seq<ReleaseId>, fetched: seq<Release>)
    requires Lists(ids, releases, project) && |fetched| == |ids|
    requires forall i :: 0 <= i < |ids| ==> ids[i] in releases && fetched[i].key == releases[ids[i]].key
    ensures Keys(fetched) == ProjectKeys(releases, project)
  {
    forall key
      ensures key in Keys(fetched) <==> key in ProjectKeys(releases, project)
    {
      if key in Keys(fetched) {
        var i :| 0 <= i < |fetched| && fetched[i].key == key;
        assert ids[i] in ids && releases[ids[i]].key == key;
      }
      if key in ProjectKeys(releases, project) {
        var id :| id in releases && releases[id].project == project && releases[id].key == key;
        var i :| 0 <= i < |ids| && ids[i] == id;
        assert fetched[i].key == key;
      }
    }
  }

  class UploadService {
    var releases: map<ReleaseId, ReleaseRow>
    var files: seq<FileRow>
    var usedNames: set<string>

    ghost function Snapshot(): State
      reads this
    {
      State(releases, files, usedNames)
    }

    constructor ()
      ensures Snapshot() == INITIAL
    {
      releases, files, usedNames := map[], [], {};
    }

    /** Looks at whichever matching row comes first. */
    method IsDuplicateFile(filename: string, sha256: string, blake2: string) returns (verdict: Option<bool>)
      requires FilesInv(Snapshot())
      ensures verdict == DuplicateVerdict(files, filename, sha256, blake2)
    {
      if i :| 0 <= i < |files| && SameNameOrContent(files[i], filename, blake2) {
        AnyMatchGivesTheVerdict(Snapshot(), i, filename, sha256, blake2);
        return Some(Identical(files[i], filename, sha256, blake2));
      }
      return None;
    }

    method SelectIds(project: ProjectId) returns (ids: seq<ReleaseId>)
      ensures Lists(ids, releases, project)
    {
      ids := [];
      var pending := set id | id in releases && releases[id].project == project;
      while pending != {}
        invariant forall i, j :: 0 <= i < j < |ids| ==> ids[i] < ids[j]
        invariant forall id, other :: id in ids && other in pending ==> id < other
        invariant forall id :: id in ids || id in pending <==> id in releases && releases[id].project == project
        decreases pending
      {
        assert Least(pending) in pending;
        var id :| id in pending && forall other :: other in pending ==> id <= other;
        SelectOneMore(ids, id);
        ids := ids + [id];
        pending := pending - {id};
      }
    }

    method FetchReleases(ids: seq<ReleaseId>) returns (fetched: seq<Release>)
      requires forall i :: 0 <= i < |ids| ==> ids[i] in releases
      ensures |fetched| == |ids| && fresh(fetched)
      ensures forall i :: 0 <= i < |ids| ==> fetched[i].key == releases[ids[i]].key && fetched[i].ordering == Some(releases[ids[i]].ordering)
    {
      fetched := [];
      for i := 0 to |ids|
        invariant |fetched| == i && fresh(fetched)
        invariant forall j :: 0 <= j < i ==> fetched[j].key == releases[ids[j]].key && fetched[j].ordering == Some(releases[ids[j]].ordering)
      {
        var r := new Release(releases[ids[i]].key);
        r.ordering := Some(releases[ids[i]].ordering);
        fetched := fetched + [r];
      }
    }

    /** `_sort_releases` on fetched releases: what the ones to be written get, and that the others have it. */
    method RankReleases(project: ProjectId, ids: seq<ReleaseId>) returns (fetched: seq<Release>, written: set<Release>)
      requires KeysAreIds(releases) && Lists(ids, releases, project)
      ensures |fetched| == |ids|
      ensures forall i :: 0 <= i < |ids| ==>
        && fetched[i].ordering == Some(Rank(ProjectKeys(releases, project), releases[ids[i]].key))
        && (fetched[i] !in written ==> Some(releases[ids[i]].ordering) == fetched[i].ordering)
    {
      hide Rank;
      assert forall i :: 0 <= i < |ids| ==> ids[i] in ids;
      fetched := FetchReleases(ids);
      SameProjectKeys(releases, project, ids, fetched);
      assert forall i :: 0 <= i < |ids| ==> fetched[i] in fetched;
      written := SortReleases(fetched);
    }

    /** `_sort_releases`: the ranks that changed are stored, and no other row is written. */
    method SortProject(project: ProjectId)
      requires KeysAreIds(releases)
      modifies this`releases
      ensures releases == Resorted(old(releases), project)
    {
      hide Rank, ProjectKeys;
      var ids := SelectIds(project);
      var fetched, written := RankReleases(project, ids);
      for i := 0 to |ids|
        modifies this`releases
        invariant releases == WithRanks(old(releases), project, ids[..i])
      {
        assert ids[i] in ids && ids[i] !in ids[..i];
        if fetched[i] in written {
          releases := releases[ids[i] := releases[ids[i]].(ordering := fetched[i].ordering.value)];
        }
        assert ids[..i + 1] == ids[..i] + [ids[i]];
      }
      assert ids[..|ids|] == ids;
    }

    /** Finds the release, or adds one and sorts the project's releases. */
    method GetRelease(u: Upload) returns (release: Option<ReleaseId>)
      requires Inv(Snapshot()) && Enabled(Snapshot(), u)
      modifies this`releases
      ensures release.Some? && FindRelease(old(Snapshot()), u) == Some((Snapshot(), release.value))
    {
      FoundRelease(Snapshot(), u);
      ghost var candidates := Candidates(Snapshot(), u.project, u.canonicalVersion);
      if id :| id in releases && releases[id].project == u.project && releases[id].canonicalVersion == u.canonicalVersion {
        assert forall other :: other in candidates ==> SameRelease(releases[other], releases[id]);
        assert id in candidates && candidates == {id};
        return Some(id);
      }
      assert candidates == {};
      releases := releases[u.newRelease := NewRow(u)];
      SortProject(u.project);
      return Some(u.newRelease);
    }

    /** The checks on the file itself, and the new row if all of them pass. */
    method StoreFile(release: ReleaseId, u: Upload) returns (outcome: Outcome)
      requires FilesInv(Snapshot()) && release in releases && IsHexDigest(u.blake2)
      modifies this`files
      ensures (files, outcome) == StoreIn(old(Snapshot()), release, u)
    {
      if !ValidFilename(u.filename, u.filetype) {
        return Rejected(BadFilename);
      }
      if !u.contentAccepted {
        return Rejected(BadContent);
      }
      var duplicate := IsDuplicateFile(u.filename, u.sha256, u.blake2);
      if duplicate == Some(true) {
        return AlreadyUploaded;
      }
      if duplicate.Some? {
        return Rejected(FileExists);
      }
      var objection := Objection(State(releases, files, usedNames), release, u);
      if objection.Some? {
        return Rejected(objection.value);
      }
      files := files + [NewFile(release, u)];
      return Stored;
    }

    /** `file_upload`: an error or a duplicate rolls everything back. */
    method FileUpload(u: Upload) returns (outcome: Outcome)
      requires Inv(Snapshot()) && Enabled(Snapshot(), u)
      modifies this
      ensures (Snapshot(), outcome) == Receive(old(Snapshot()), u) && Inv(Snapshot())
    {
      hide ReleasesInv, DuplicateVerdict, Objection, ValidFilename, FindRelease;
      ReceiveKeepsInv(Snapshot(), u);
      FoundRelease(Snapshot(), u);
      var saved := releases;
      var release := GetRelease(u);
      outcome := StoreFile(release.value, u);
      if !outcome.Stored? {
        releases := saved;
      }
    }
  }
}
