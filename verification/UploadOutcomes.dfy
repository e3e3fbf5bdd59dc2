/** Which uploads are stored, and as what, told from the tables and the upload alone. */
module UploadOutcomes {
  import opened Common
  import opened Text
  import opened Releases
  import opened UploadRegistry

  /** `name` is something followed by the extension. */
  ghost predicate Extends(name: string, extension: string) {
    exists stem :: stem != "" && name == stem + extension
  }

  /** A sdist is a .zip or .tar.gz, a wheel a .whl; no separators and no control characters. */
  ghost predicate GoodName(name: string, filetype: string) {
    && (|| (filetype == "sdist" && (Extends(name, ".zip") || Extends(name, ".tar.gz")))
        || (filetype == "bdist_wheel" && Extends(name, ".whl")))
    && forall i :: 0 <= i < |name| ==> name[i] as int >= 32 && name[i] as int != 127 && name[i] != '/' && name[i] != '\\'
  }

  predicate IsReleaseOf(row: ReleaseRow, u: Upload) {
    row.project == u.project && row.canonicalVersion == u.canonicalVersion
  }

  /** No file has the name or the content. */
  predicate IsNew(s: State, u: Upload) {
    forall i :: 0 <= i < |s.files| ==> s.files[i].filename != u.filename && s.files[i].blake2 != u.blake2
  }

  predicate IsThere(s: State, u: Upload) {
    exists i :: 0 <= i < |s.files| && s.files[i].filename == u.filename && s.files[i].sha256 == u.sha256 && s.files[i].blake2 == u.blake2
  }

  /** The release does not exist yet or is at most fourteen days old. */
  predicate IsOpen(s: State, u: Upload) {
    forall id :: id in s.releases && IsReleaseOf(s.releases[id], u) ==> u.now - s.releases[id].created <= 14 * 24 * 60 * MINUTE
  }

  predicate HasSdistOf(f: FileRow, s: State, u: Upload) {
    f.packagetype == "sdist" && f.release in s.releases && IsReleaseOf(s.releases[f.release], u)
  }

  predicate IsSecondSdist(s: State, u: Upload) {
    u.filetype == "sdist" && exists i :: 0 <= i < |s.files| && HasSdistOf(s.files[i], s, u)
  }

  /** What the uploader is told. */
  ghost function Verdict(s: State, u: Upload): Outcome {
    if !GoodName(u.filename, u.filetype) then Rejected(BadFilename)
    else if !u.contentAccepted then Rejected(BadContent)
    else if IsThere(s, u) then AlreadyUploaded
    else if !IsNew(s, u) then Rejected(FileExists)
    else if u.filename in s.usedNames then Rejected(FilenameReused)
    else if !IsOpen(s, u) then Rejected(ReleaseClosed)
    else if IsSecondSdist(s, u) then Rejected(SecondSdist)
    else if !u.archiveAccepted then Rejected(BadArchive)
    else Stored
  }

  // ---------- Filenames ----------

  lemma EndsWithIff(name: string, extension: string)
    ensures EndsWith(name, extension) && |name| > |extension| <==> Extends(name, extension)
  {
    if EndsWith(name, extension) && |name| > |extension| {
      assert name == name[..|name| - |extension|] + extension;
    }
    if stem :| stem != "" && name == stem + extension {
      assert name[|name| - |extension|..] == extension;
    }
  }

  lemma CharactersIff(name: string)
    ensures (forall c :: c in name ==> 32 as char <= c && c != 127 as char) && '/' !in name && '\\' !in name <==>
      forall i :: 0 <= i < |name| ==> name[i] as int >= 32 && name[i] as int != 127 && name[i] != '/' && name[i] != '\\'
  {
    if (forall c :: c in name ==> 32 as char <= c && c != 127 as char) && '/' !in name && '\\' !in name {
      forall i | 0 <= i < |name|
        ensures name[i] as int >= 32 && name[i] as int != 127 && name[i] != '/' && name[i] != '\\'
      {
        assert name[i] in name;
      }
    }
  }

  lemma ExtensionIff(name: string, filetype: string)
    ensures (exists e :: e in AllowedExtensions(filetype) && EndsWith(name, e) && |name| > |e|) <==>
      (|| (filetype == "sdist" && (Extends(name, ".zip") || Extends(name, ".tar.gz")))
       || (filetype == "bdist_wheel" && Extends(name, ".whl")))
  {
    hide EndsWith, Extends;
    EndsWithIff(name, ".zip");
    EndsWithIff(name, ".tar.gz");
    EndsWithIff(name, ".whl");
    assert "sdist" != "bdist_wheel";
    assert ".zip" in AllowedExtensions("sdist") && ".tar.gz" in AllowedExtensions("sdist") && ".whl" in AllowedExtensions("bdist_wheel");
  }

  lemma ValidIffGood(name: string, filetype: string)
    ensures ValidFilename(name, filetype) <==> GoodName(name, filetype)
  {
    hide EndsWith, Extends, AllowedExtensions;
    CharactersIff(name);
    ExtensionIff(name, filetype);
  }

  // ---------- The release of an upload ----------

  /** `t` is `s` with the upload's release, which is `release`; its files, if any, are those `s` has of such a release. */
  ghost predicate Places(s: State, u: Upload, t: State, release: ReleaseId) {
    && release in t.releases && t.files == s.files && t.usedNames == s.usedNames
    && IsReleaseOf(t.releases[release], u)
    && (IsOpen(s, u) <==> u.now - t.releases[release].created <= MAXIMUM_AGE_FOR_NEW_UPLOADS)
    && forall i :: 0 <= i < |s.files| ==>
         (s.files[i].release == release <==> s.files[i].release in s.releases && IsReleaseOf(s.releases[s.files[i].release], u))
  }

  lemma ReleaseOfUpload(s: State, u: Upload) returns (t: State, release: ReleaseId)
    requires Inv(s) && Enabled(s, u)
    ensures FindRelease(s, u) == Some((t, release)) && Places(s, u, t, release)
  {
    hide Places, Inv;
    if Candidates(s, u.project, u.canonicalVersion) == {} {
      NewReleaseIsPlaced(s, u);
      t, release := WithNewRelease(s, u), u.newRelease;
    } else {
      OldReleaseIsPlaced(s, u);
      t, release := s, FindRelease(s, u).value.1;
    }
  }

  lemma NewReleaseIsPlaced(s: State, u: Upload)
    requires Inv(s) && Enabled(s, u) && Candidates(s, u.project, u.canonicalVersion) == {}
    ensures Places(s, u, WithNewRelease(s, u), u.newRelease)
  {
    hide IsOpen, IsReleaseOf, ReleasesInv;
    NewReleaseIs(s, u);
  }

  lemma OldReleaseIsPlaced(s: State, u: Upload)
    requires Inv(s) && Candidates(s, u.project, u.canonicalVersion) != {}
    ensures FindRelease(s, u).Some? && FindRelease(s, u).value.0 == s && Places(s, u, s, FindRelease(s, u).value.1)
  {
    hide IsOpen, IsReleaseOf, ReleasesInv, FindRelease;
    OldReleaseIs(s, u);
  }

  lemma CandidatesAre(s: State, u: Upload, id: ReleaseId)
    ensures id in Candidates(s, u.project, u.canonicalVersion) <==> id in s.releases && IsReleaseOf(s.releases[id], u)
  {
  }

  lemma NewReleaseIs(s: State, u: Upload)
    requires Enabled(s, u) && Candidates(s, u.project, u.canonicalVersion) == {}
    ensures forall id :: id in s.releases ==> !IsReleaseOf(s.releases[id], u)
    ensures var t := WithNewRelease(s, u);
      u.newRelease in t.releases && IsReleaseOf(t.releases[u.newRelease], u) && t.releases[u.newRelease].created == u.now
    ensures IsOpen(s, u) && u.newRelease !in s.releases
  {
    forall id | id in s.releases
      ensures !IsReleaseOf(s.releases[id], u)
    {
      CandidatesAre(s, u, id);
    }
  }

  lemma OldReleaseIs(s: State, u: Upload)
    requires Inv(s) && Candidates(s, u.project, u.canonicalVersion) != {}
    ensures FindRelease(s, u).Some?
    ensures var (t, release) := FindRelease(s, u).value;
      && t == s && release in s.releases && IsReleaseOf(s.releases[release], u)
      && (forall id :: id in s.releases ==> (IsReleaseOf(s.releases[id], u) <==> id == release))
      && (IsOpen(s, u) <==> u.now - s.releases[release].created <= MAXIMUM_AGE_FOR_NEW_UPLOADS)
  {
    hide IsOpen;
    var release := OnlyCandidate(s, u);
    assert |Candidates(s, u.project, u.canonicalVersion)| == 1;
    assert FindRelease(s, u).value.1 in Candidates(s, u.project, u.canonicalVersion);
    OpenIff(s, u, release);
  }

  lemma OpenIff(s: State, u: Upload, release: ReleaseId)
    requires release in s.releases && forall id :: id in s.releases ==> (IsReleaseOf(s.releases[id], u) <==> id == release)
    ensures IsOpen(s, u) <==> u.now - s.releases[release].created <= MAXIMUM_AGE_FOR_NEW_UPLOADS
  {
  }

  lemma OnlyCandidate(s: State, u: Upload) returns (release: ReleaseId)
    requires Inv(s) && Candidates(s, u.project, u.canonicalVersion) != {}
    ensures Candidates(s, u.project, u.canonicalVersion) == {release} && release in s.releases
    ensures forall id :: id in s.releases ==> (IsReleaseOf(s.releases[id], u) <==> id == release)
  {
    hide FilesInv, Rank, ProjectKeys;
    release :| release in Candidates(s, u.project, u.canonicalVersion);
    forall id | id in s.releases
      ensures IsReleaseOf(s.releases[id], u) <==> id == release
    {
      assert IsReleaseOf(s.releases[id], u) ==> SameRelease(s.releases[id], s.releases[release]);
    }
    forall id
      ensures id in Candidates(s, u.project, u.canonicalVersion) <==> id == release
    {
      CandidatesAre(s, u, id);
    }
  }

  // ---------- The verdict ----------

  predicate HasSdist(s: State, release: ReleaseId) {
    exists i :: 0 <= i < |s.files| && s.files[i].release == release && s.files[i].packagetype == "sdist"
  }

  lemma DuplicateIff(s: State, u: Upload)
    ensures DuplicateVerdict(s.files, u.filename, u.sha256, u.blake2) ==
      if IsThere(s, u) then Some(true) else if IsNew(s, u) then None else Some(false)
  {
    assert forall i :: 0 <= i < |s.files| ==>
      (SameNameOrContent(s.files[i], u.filename, u.blake2) <==> s.files[i].filename == u.filename || s.files[i].blake2 == u.blake2);
    if i :| 0 <= i < |s.files| && s.files[i].filename == u.filename && s.files[i].sha256 == u.sha256 && s.files[i].blake2 == u.blake2 {
      assert Identical(s.files[i], u.filename, u.sha256, u.blake2) && SameNameOrContent(s.files[i], u.filename, u.blake2);
    }
  }

  lemma AnswerIn(t: State, release: ReleaseId, u: Upload)
    requires release in t.releases && IsHexDigest(u.blake2)
    ensures StoreIn(t, release, u).1 ==
      if !GoodName(u.filename, u.filetype) then Rejected(BadFilename)
      else if !u.contentAccepted then Rejected(BadContent)
      else if IsThere(t, u) then AlreadyUploaded
      else if !IsNew(t, u) then Rejected(FileExists)
      else if u.filename in t.usedNames then Rejected(FilenameReused)
      else if u.now - t.releases[release].created > MAXIMUM_AGE_FOR_NEW_UPLOADS then Rejected(ReleaseClosed)
      else if u.filetype == "sdist" && HasSdist(t, release) then Rejected(SecondSdist)
      else if !u.archiveAccepted then Rejected(BadArchive)
      else Stored
  {
    hide ValidFilename, GoodName, DuplicateVerdict, IsThere, IsNew;
    ValidIffGood(u.filename, u.filetype);
    DuplicateIff(t, u);
  }

  lemma SecondSdistIff(s: State, t: State, release: ReleaseId, u: Upload)
    requires t.files == s.files
    requires forall i :: 0 <= i < |s.files| ==>
      (s.files[i].release == release <==> s.files[i].release in s.releases && IsReleaseOf(s.releases[s.files[i].release], u))
    ensures IsSecondSdist(s, u) <==> u.filetype == "sdist" && HasSdist(t, release)
  {
    if i :| 0 <= i < |s.files| && s.files[i].release == release && s.files[i].packagetype == "sdist" {
      assert HasSdistOf(s.files[i], s, u);
    }
    if i :| 0 <= i < |s.files| && HasSdistOf(s.files[i], s, u) {
      assert t.files[i].release == release;
    }
  }

  /** The answer to an upload, checks in their order: an upload is stored if and only if nothing speaks against it. */
  lemma UploadAnswer(s: State, u: Upload)
    requires Inv(s) && Enabled(s, u)
    ensures Receive(s, u).1 == Verdict(s, u)
  {
    hide GoodName, IsOpen, Inv, FindRelease, StoreIn, IsSecondSdist, HasSdist, IsThere, IsNew;
    var t, release := ReleaseOfUpload(s, u);
    AnswerIn(t, release, u);
    SecondSdistIff(s, t, release, u);
    SameFilesSameVerdicts(s, t, u);
  }

  lemma SameFilesSameVerdicts(s: State, t: State, u: Upload)
    requires t.files == s.files
    ensures IsThere(s, u) == IsThere(t, u) && IsNew(s, u) == IsNew(t, u)
  {
  }

  /** The same in every reachable state. */
  lemma UploadAnswerAfterRun(uploads: seq<Upload>, u: Upload)
    requires ValidRun(INITIAL, uploads) && Enabled(Run(INITIAL, uploads), u)
    ensures Receive(Run(INITIAL, uploads), u).1 == Verdict(Run(INITIAL, uploads), u)
  {
    RunKeepsInv(INITIAL, uploads);
    UploadAnswer(Run(INITIAL, uploads), u);
  }

  /** The first good upload to an empty registry is stored. */
  lemma FirstUploadIsStored(u: Upload)
    requires IsHexDigest(u.blake2) && GoodName(u.filename, u.filetype) && u.contentAccepted && u.archiveAccepted
    ensures Receive(INITIAL, u).1 == Stored && |Receive(INITIAL, u).0.files| == 1
  {
    UploadAnswer(INITIAL, u);
    StoredAs(INITIAL, u);
  }

  /**
   * What is stored: one more file, as uploaded, in the release of its project and version, under its
   * digest cut at two and four; a release is added if it was missing, and the others change ranks at most.
   */
  lemma StoredAs(s: State, u: Upload)
    requires Inv(s) && Enabled(s, u) && Receive(s, u).1 == Stored
    ensures var t := Receive(s, u).0;
      && |t.files| == |s.files| + 1 && t.files[..|s.files|] == s.files && t.usedNames == s.usedNames
      && var f := t.files[|s.files|];
      && f.filename == u.filename && f.packagetype == u.filetype && f.sha256 == u.sha256 && f.blake2 == u.blake2
      && f.path == u.blake2[..2] + "/" + u.blake2[2..4] + "/" + u.blake2[4..] + "/" + u.filename
      && f.release in t.releases && IsReleaseOf(t.releases[f.release], u)
      && (f.release !in s.releases ==> t.releases[f.release].version == u.version && t.releases[f.release].created == u.now
                                       && t.releases[f.release].key.version == u.parsedVersion)
      && (forall id :: id in t.releases && id != f.release ==> id in s.releases)
      && forall id :: id in s.releases ==> id in t.releases && t.releases[id] == s.releases[id].(ordering := t.releases[id].ordering)
  {
    hide IsOpen, IsReleaseOf, ValidFilename, DuplicateVerdict, Objection, Inv, StoragePath;
    var t, release := ReleaseOfUpload(s, u);
    assert Receive(s, u).0.files == s.files + [NewFile(release, u)];
    ReleasesStay(s, u);
    PathIs(u.blake2, u.filename);
  }

  /** Finding the release adds it at most, and re-ranks. */
  lemma ReleasesStay(s: State, u: Upload)
    requires Enabled(s, u) && FindRelease(s, u).Some?
    ensures var (t, release) := FindRelease(s, u).value;
      && (release !in s.releases ==> t.releases[release].version == u.version && t.releases[release].created == u.now
                                     && t.releases[release].key.version == u.parsedVersion)
      && (forall id :: id in t.releases && id != release ==> id in s.releases)
      && forall id :: id in s.releases ==> id in t.releases && t.releases[id] == s.releases[id].(ordering := t.releases[id].ordering)
  {
    hide Rank, ProjectKeys;
  }

  lemma PathIs(digest: string, filename: string)
    requires |digest| >= 4
    ensures StoragePath(digest, filename) == digest[..2] + "/" + digest[2..4] + "/" + digest[4..] + "/" + filename
  {
    JoinFour(digest[..2], digest[2..4], digest[4..], filename);
  }

  lemma JoinFour(a: string, b: string, c: string, d: string)
    ensures Join([a, b, c, d], "/") == a + "/" + b + "/" + c + "/" + d
  {
    assert [a, b, c, d][1..] == [b, c, d] && [b, c, d][1..] == [c, d] && [c, d][1..] == [d];
    assert Join([c, d], "/") == c + "/" + d;
    assert Join([b, c, d], "/") == b + "/" + (c + "/" + d);
    assert a + "/" + (b + "/" + (c + "/" + d)) == a + "/" + b + "/" + c + "/" + d;
  }
}
