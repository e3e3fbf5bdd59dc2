/** The account export's project rows, and the address lookup its rows point into. */
module ExportSections {
  import opened Common

  // ---------- Projects ----------

  type ProjectId = nat

  /** A fetched row of the uploads query. */
  datatype Upload = Upload(project: ProjectId, created: int, version: string)

  /** Both ends of what the user uploaded to one project. */
  datatype Summary = Summary(count: nat, first: Option<Upload>, latest: Option<Upload>)

  function UploadedTo(uploads: seq<Upload>, project: ProjectId): seq<Upload> {
    if uploads == [] then []
    else UploadedTo(uploads[..|uploads| - 1], project)
         + (if uploads[|uploads| - 1].project == project then [uploads[|uploads| - 1]] else [])
  }

  /** `_release_summary`. */
  function ReleaseSummary(releases: seq<Upload>): Summary {
    if releases == [] then Summary(0, None, None)
    else Summary(|releases|, Some(releases[0]), Some(releases[|releases| - 1]))
  }

  function Touched(uploads: seq<Upload>): set<ProjectId> {
    set u | u in uploads :: u.project
  }

  type Section = map<ProjectId, Summary>

  /** The rows of `projects` (a role or an invitation) and of `past_projects` (only uploads). */
  method ProjectSections(roles: set<ProjectId>, invites: set<ProjectId>, uploads: seq<Upload>) returns (projects: Section, past: Section)
    ensures projects.Keys == roles + invites && past.Keys == Touched(uploads) - (roles + invites)
    ensures forall p :: p in projects ==> projects[p] == ReleaseSummary(UploadedTo(uploads, p))
    ensures forall p :: p in past ==> past[p] == ReleaseSummary(UploadedTo(uploads, p))
  {
    var memberIds := roles + invites;
    var pastIds := Touched(uploads) - memberIds;
    var allIds := memberIds + pastIds;
    var uploadsByProject: map<ProjectId, seq<Upload>> := map p | p in allIds :: [];
    for i := 0 to |uploads|
      invariant uploadsByProject.Keys == allIds
      invariant forall p :: p in allIds ==> uploadsByProject[p] == UploadedTo(uploads[..i], p)
    {
      var project := uploads[i].project;
      assert project in Touched(uploads);
      assert uploads[..i + 1][..i] == uploads[..i];
      uploadsByProject := uploadsByProject[project := uploadsByProject[project] + [uploads[i]]];
    }
    assert uploads[..|uploads|] == uploads;
    projects := map p | p in memberIds :: ReleaseSummary(uploadsByProject[p]);
    past := map p | p in pastIds :: ReleaseSummary(uploadsByProject[p]);
  }

  predicate Summarizes(s: Summary, uploads: seq<Upload>, project: ProjectId) {
    && (s.first.Some? <==> s.count > 0) && (s.latest.Some? <==> s.count > 0)
    && (s.count > 0 ==> s.first.value in uploads && s.first.value.project == project)
    && (s.count > 0 ==> s.latest.value in uploads && s.latest.value.project == project)
    && forall u :: u in uploads && u.project == project ==>
         s.count > 0 && s.first.value.created <= u.created <= s.latest.value.created
  }

  /** With the uploads of a project fetched oldest first, its summary names the oldest and the newest of them. */
  lemma {:induction false} SummaryNamesBothEnds(uploads: seq<Upload>, project: ProjectId)
    requires forall i, j :: 0 <= i < j < |uploads| && uploads[i].project == uploads[j].project ==> uploads[i].created <= uploads[j].created
    ensures Summarizes(ReleaseSummary(UploadedTo(uploads, project)), uploads, project)
  {
    if uploads == [] {
    } else {
      var init, last := uploads[..|uploads| - 1], uploads[|uploads| - 1];
      assert forall i :: 0 <= i < |init| ==> init[i] == uploads[i];
      SummaryNamesBothEnds(init, project);
      forall u | u in init && u.project == last.project
        ensures u.created <= last.created
      {
      }
      assert uploads == init + [last];
      SummaryOfOneMore(init, last, project);
    }
  }

  lemma SummaryOfOneMore(init: seq<Upload>, last: Upload, project: ProjectId)
    requires Summarizes(ReleaseSummary(UploadedTo(init, project)), init, project)
    requires forall u :: u in init && u.project == last.project ==> u.created <= last.created
    ensures Summarizes(ReleaseSummary(UploadedTo(init + [last], project)), init + [last], project)
  {
    var earlier, all := UploadedTo(init, project), init + [last];
    assert all[..|init|] == init && last in all;
    assert forall u :: u in all <==> u in init || u == last;
    if last.project == project {
      assert UploadedTo(all, project) == earlier + [last];
      assert ReleaseSummary(earlier + [last]).latest == Some(last);
    } else {
      assert UploadedTo(all, project) == earlier;
    }
  }

  /** The number of uploads to any of these projects. */
  function CountIn(uploads: seq<Upload>, ids: set<ProjectId>): nat {
    if uploads == [] then 0
    else CountIn(uploads[..|uploads| - 1], ids) + (if uploads[|uploads| - 1].project in ids then 1 else 0)
  }

  lemma {:induction false} CountWithOneMore(uploads: seq<Upload>, ids: set<ProjectId>, id: ProjectId)
    requires id !in ids
    ensures CountIn(uploads, ids + {id}) == CountIn(uploads, ids) + |UploadedTo(uploads, id)|
  {
    if uploads == [] {
    } else {
      CountWithOneMore(uploads[..|uploads| - 1], ids, id);
    }
  }

  lemma {:induction false} CountAll(uploads: seq<Upload>, ids: set<ProjectId>)
    requires Touched(uploads) <= ids
    ensures CountIn(uploads, ids) == |uploads|
  {
    if uploads == [] {
    } else {
      var init, last := uploads[..|uploads| - 1], uploads[|uploads| - 1];
      assert last in uploads && last.project in Touched(uploads);
      assert forall u :: u in init ==> u in uploads && u.project in Touched(uploads);
      CountAll(init, ids);
    }
  }

  /** The sum of the counts of a section's rows. */
  ghost function SectionTotal(section: Section): nat
    decreases |section|
  {
    if section == map[] then 0
    else
      var p :| p in section;
      section[p].count + SectionTotal(section - {p})
  }

  lemma {:induction false} SectionTotalCounts(section: Section, uploads: seq<Upload>)
    requires forall p :: p in section ==> section[p].count == |UploadedTo(uploads, p)|
    ensures SectionTotal(section) == CountIn(uploads, section.Keys)
    decreases |section|
  {
    if section == map[] {
      CountNone(uploads);
    } else {
      var p :| p in section && SectionTotal(section) == section[p].count + SectionTotal(section - {p});
      SectionTotalCounts(section - {p}, uploads);
      CountWithOneMore(uploads, (section - {p}).Keys, p);
      assert (section - {p}).Keys + {p} == section.Keys;
    }
  }

  lemma {:induction false} CountNone(uploads: seq<Upload>)
    ensures CountIn(uploads, {}) == 0
  {
    if uploads == [] {
    } else {
      CountNone(uploads[..|uploads| - 1]);
    }
  }

  lemma {:induction false} CountDisjoint(uploads: seq<Upload>, a: set<ProjectId>, b: set<ProjectId>)
    requires a !! b
    ensures CountIn(uploads, a + b) == CountIn(uploads, a) + CountIn(uploads, b)
  {
    if uploads == [] {
    } else {
      CountDisjoint(uploads[..|uploads| - 1], a, b);
    }
  }

  /** Every fetched upload is counted in exactly one row of exactly one of the two sections. */
  lemma EveryUploadIsCountedOnce(members: set<ProjectId>, uploads: seq<Upload>, projects: Section, past: Section)
    requires projects.Keys == members && past.Keys == Touched(uploads) - members
    requires forall p :: p in projects ==> projects[p] == ReleaseSummary(UploadedTo(uploads, p))
    requires forall p :: p in past ==> past[p] == ReleaseSummary(UploadedTo(uploads, p))
    ensures SectionTotal(projects) + SectionTotal(past) == |uploads|
    ensures forall p :: p in Touched(uploads) ==> (p in projects <==> p !in past)
    ensures forall p :: p in past ==> past[p].count > 0
  {
    SummariesCount(projects, uploads);
    SummariesCount(past, uploads);
    SectionsAddUp(members, uploads, past.Keys);
    forall p | p in past
      ensures past[p].count > 0
    {
      TouchedIsListed(uploads, p);
    }
  }

  lemma SummariesCount(section: Section, uploads: seq<Upload>)
    requires forall p :: p in section ==> section[p] == ReleaseSummary(UploadedTo(uploads, p))
    ensures SectionTotal(section) == CountIn(uploads, section.Keys)
  {
    SectionTotalCounts(section, uploads);
  }

  lemma SectionsAddUp(members: set<ProjectId>, uploads: seq<Upload>, past: set<ProjectId>)
    requires past == Touched(uploads) - members
    ensures CountIn(uploads, members) + CountIn(uploads, past) == |uploads|
  {
    CountDisjoint(uploads, members, past);
    CountAll(uploads, members + past);
  }

  lemma {:induction false} TouchedIsListed(uploads: seq<Upload>, project: ProjectId)
    requires project in Touched(uploads)
    ensures UploadedTo(uploads, project) != []
  {
    var init, last := uploads[..|uploads| - 1], uploads[|uploads| - 1];
    if project != last.project {
      assert uploads == init + [last];
      assert project in Touched(init);
      TouchedIsListed(init, project);
    }
  }

  // ---------- Addresses ----------

  /** A row of `ip_addresses`; `details` is the rest of what the document says about it. */
  datatype IpAddress = IpAddress(id: string, details: string)

  /** The document-wide lookup. */
  class IpLookup {
    var seen: map<string, IpAddress>

    constructor ()
      ensures seen == map[]
    {
      seen := map[];
    }

    /** Rows come from one database: two with the same primary key are the same row. */
    ghost predicate Agrees(rows: seq<Option<IpAddress>>)
      reads this
    {
      && (forall i :: 0 <= i < |rows| && rows[i].Some? && rows[i].value.id in seen ==> seen[rows[i].value.id] == rows[i].value)
      && (forall i, j :: 0 <= i < |rows| && 0 <= j < |rows| && rows[i].Some? && rows[j].Some? && rows[i].value.id == rows[j].value.id ==>
            rows[i] == rows[j])
    }

    /** `_ip_ref`. */
    method IpRef(ip: Option<IpAddress>) returns (key: Option<string>)
      modifies this
      ensures key == if ip.Some? then Some(ip.value.id) else None
      ensures seen == if ip.None? || ip.value.id in old(seen) then old(seen) else old(seen)[ip.value.id := ip.value]
    {
      if ip.None? {
        return None;
      }
      if ip.value.id !in seen {
        seen := seen[ip.value.id := ip.value];
      }
      return Some(ip.value.id);
    }

    /** The references of a section's rows: each leads to its own address, earlier ones still do, nothing else is added. */
    method IpRefs(rows: seq<Option<IpAddress>>) returns (keys: seq<Option<string>>)
      requires Agrees(rows)
      modifies this
      ensures |keys| == |rows|
      ensures forall i :: 0 <= i < |rows| ==> (keys[i].Some? <==> rows[i].Some?)
      ensures forall i :: 0 <= i < |rows| && keys[i].Some? ==> keys[i].value in seen && seen[keys[i].value] == rows[i].value
      ensures forall k :: k in old(seen) ==> k in seen && seen[k] == old(seen)[k]
      ensures forall k :: k in seen && k !in old(seen) ==> Some(k) in keys
    {
      keys := [];
      for i := 0 to |rows|
        invariant |keys| == i
        invariant forall j :: 0 <= j < i ==> keys[j] == if rows[j].Some? then Some(rows[j].value.id) else None
        invariant forall j :: 0 <= j < i && rows[j].Some? ==> rows[j].value.id in seen
        invariant forall k :: k in old(seen) ==> k in seen && seen[k] == old(seen)[k]
        invariant forall k :: k in seen && k !in old(seen) ==> Some(k) in keys
        invariant Agrees(rows)
      {
        var key := IpRef(rows[i]);
        keys := keys + [key];
      }
    }
  }
}
