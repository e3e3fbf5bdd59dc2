/** The check that no archive member's path changes when an installer normalizes it. */
module MemberPaths {
  import opened Common
  import opened Text

  // ---------- posixpath.normpath ----------

  /** One component: dropped, appended, or taken back by "..". */
  function Push(stack: seq<string>, comp: string, absolute: bool): seq<string> {
    if comp == "" || comp == "." then stack
    else if comp != ".." || (!absolute && stack == []) || (stack != [] && stack[|stack| - 1] == "..") then stack + [comp]
    else if stack != [] then stack[..|stack| - 1]
    else stack
  }

  function Normalize(stack: seq<string>, comps: seq<string>, absolute: bool): seq<string>
    decreases |comps|
  {
    if comps == [] then stack else Normalize(Push(stack, comps[0], absolute), comps[1..], absolute)
  }

  /** POSIX keeps one or two leading slashes and reads three or more as one. */
  function InitialSlashes(path: string): string {
    if path == "" || path[0] != '/' then ""
    else if "//" <= path && !("///" <= path) then "//"
    else "/"
  }

  function NormPath(path: string): string {
    if path == "" then "."
    else
      var initial := InitialSlashes(path);
      var normal := initial + Join(Normalize([], Split(path, '/'), initial != ""), "/");
      if normal == "" then "." else normal
  }

  function StripTrailing(name: string): string {
    if name != "" && name[|name| - 1] == '/' then StripTrailing(name[..|name| - 1]) else name
  }

  predicate Canonical(name: string) {
    !("/" <= name) && NormPath(name) == StripTrailing(name)
  }

  /** The first name that is not plain. */
  predicate FirstDetour(names: seq<string>, i: nat)
    requires i < |names|
  {
    !IsPlain(StripTrailing(names[i])) && forall j :: 0 <= j < i ==> IsPlain(StripTrailing(names[j]))
  }

  /** Goes through an archive's names until one is not canonical. */
  method NonCanonicalMemberPath(names: seq<string>) returns (found: Option<string>)
    ensures found.None? <==> forall i :: 0 <= i < |names| ==> IsPlain(StripTrailing(names[i]))
    ensures found.Some? ==> exists i :: 0 <= i < |names| && names[i] == found.value && FirstDetour(names, i)
  {
    for i := 0 to |names|
      invariant forall j :: 0 <= j < i ==> IsPlain(StripTrailing(names[j]))
    {
      CanonicalIffPlain(names[i]);
      if "/" <= names[i] || NormPath(names[i]) != StripTrailing(names[i]) {
        assert FirstDetour(names, i);
        return Some(names[i]);
      }
    }
    return None;
  }

  // ---------- Plain paths ----------

  /** Segments that say where to go without detours: ".." only as a leading run, nothing empty, no ".". */
  predicate PlainSegments(segs: seq<string>) {
    && (forall i :: 0 <= i < |segs| ==> segs[i] != "" && segs[i] != "." && '/' !in segs[i])
    && (forall i, j :: 0 <= i < j < |segs| && segs[j] == ".." ==> segs[i] == "..")
  }

  /** "." or a non-empty relative path of plain segments. */
  predicate IsPlain(path: string) {
    path == "." || PlainSegments(Split(path, '/'))
  }

  /** What normalization produces: plain segments, without ".." below the root. */
  predicate Stable(segs: seq<string>, absolute: bool) {
    PlainSegments(segs) && (absolute ==> forall i :: 0 <= i < |segs| ==> segs[i] != "..")
  }

  lemma {:induction false} NormalizeIsStable(stack: seq<string>, comps: seq<string>, absolute: bool)
    requires Stable(stack, absolute) && forall i :: 0 <= i < |comps| ==> '/' !in comps[i]
    ensures Stable(Normalize(stack, comps, absolute), absolute)
    decreases |comps|
  {
    if comps == [] {
    } else {
      NormalizeIsStable(Push(stack, comps[0], absolute), comps[1..], absolute);
    }
  }

  lemma {:induction false} StableIsFixed(stack: seq<string>, comps: seq<string>, absolute: bool)
    requires Stable(stack + comps, absolute)
    ensures Normalize(stack, comps, absolute) == stack + comps
    decreases |comps|
  {
    if comps != [] {
      assert (stack + comps)[|stack|] == comps[0];
      assert stack != [] ==> (stack + comps)[|stack| - 1] == stack[|stack| - 1];
      assert Push(stack, comps[0], absolute) == stack + [comps[0]];
      assert stack + [comps[0]] + comps[1..] == stack + comps;
      StableIsFixed(stack + [comps[0]], comps[1..], absolute);
    } else {
      assert stack + comps == stack;
    }
  }

  lemma {:induction false} NormalizeAppendEmpty(stack: seq<string>, comps: seq<string>, absolute: bool)
    ensures Normalize(stack, comps + [""], absolute) == Normalize(stack, comps, absolute)
    decreases |comps|
  {
    if comps == [] {
      assert comps + [""] == [""] && [""][1..] == [];
    } else {
      NormalizeAppendEmpty(Push(stack, comps[0], absolute), comps[1..], absolute);
      assert (comps + [""])[1..] == comps[1..] + [""];
    }
  }

  /** Trailing slashes do not matter to normalization. */
  lemma {:induction false} NormalizeStripped(name: string, absolute: bool)
    ensures Normalize([], Split(name, '/'), absolute) == Normalize([], Split(StripTrailing(name), '/'), absolute)
    decreases |name|
  {
    if name != "" && name[|name| - 1] == '/' {
      var shorter := name[..|name| - 1];
      assert name == shorter + ['/'];
      SplitAppendSeparator(shorter, '/');
      NormalizeAppendEmpty([], Split(shorter, '/'), absolute);
      NormalizeStripped(shorter, absolute);
    }
  }

  lemma {:induction false} StripKeepsHead(name: string)
    ensures StripTrailing(name) <= name
  {
    if name != "" && name[|name| - 1] == '/' {
      StripKeepsHead(name[..|name| - 1]);
    }
  }

  /** Splitting a path with a leading slash starts with an empty segment. */
  lemma SlashFirstIsNotPlain(path: string)
    requires path == "" || path[0] == '/'
    ensures !IsPlain(path)
  {
    assert Split(path, '/')[0] == "";
  }

  /** A member path passes exactly when, without its trailing slashes, it is "." or plain. */
  lemma CanonicalIffPlain(name: string)
    ensures Canonical(name) <==> IsPlain(StripTrailing(name))
  {
    var stripped := StripTrailing(name);
    var normal := Normalize([], Split(name, '/'), false);
    NormalizeStripped(name, false);
    StripKeepsHead(name);
    if IsPlain(stripped) {
      if stripped == "" || stripped[0] == '/' {
        SlashFirstIsNotPlain(stripped);
      }
      JoinSplit(stripped, '/');
      if stripped != "." {
        StableIsFixed([], Split(stripped, '/'), false);
        assert [] + Split(stripped, '/') == Split(stripped, '/');
      } else {
        SplitFree(".", '/');
      }
    }
    if Canonical(name) && name != "" && normal != [] {
      NormalizeIsStable([], Split(name, '/'), false);
      SplitJoin(normal, '/');
      assert InitialSlashes(name) == "" && "" + Join(normal, "/") == Join(normal, "/");
    }
  }

  function Slashes(n: nat): string {
    if n == 0 then "" else Slashes(n - 1) + "/"
  }

  /** Stripping takes all slashes off the end, and nothing else. */
  lemma {:induction false} StripTakesTrailingSlashes(name: string) returns (n: nat)
    ensures name == StripTrailing(name) + Slashes(n)
    ensures StripTrailing(name) != "" ==> StripTrailing(name)[|StripTrailing(name)| - 1] != '/'
  {
    if name != "" && name[|name| - 1] == '/' {
      var m := StripTakesTrailingSlashes(name[..|name| - 1]);
      n := m + 1;
      assert name == name[..|name| - 1] + "/";
      assert StripTrailing(name) + Slashes(m) + "/" == StripTrailing(name) + (Slashes(m) + "/");
    } else {
      n := 0;
      assert name + "" == name;
    }
  }

  /** A directory's entry passes exactly when its name without the slash does. */
  lemma DirectoryEntriesPass(name: string)
    ensures Canonical(name + "/") <==> Canonical(name)
  {
    assert (name + "/")[..|name|] == name;
    CanonicalIffPlain(name);
    CanonicalIffPlain(name + "/");
  }

  // ---------- Where a path leads ----------

  /** A place relative to the extraction root: so many levels up, then down. */
  datatype Place = Place(ups: nat, downs: seq<string>)

  function Walk(from: Place, comps: seq<string>): Place
    decreases |comps|
  {
    if comps == [] then from
    else if comps[0] == "" || comps[0] == "." then Walk(from, comps[1..])
    else if comps[0] != ".." then Walk(from.(downs := from.downs + [comps[0]]), comps[1..])
    else if from.downs != [] then Walk(from.(downs := from.downs[..|from.downs| - 1]), comps[1..])
    else Walk(from.(ups := from.ups + 1), comps[1..])
  }

  function Resolve(name: string): Place {
    Walk(Place(0, []), Split(name, '/'))
  }

  function Ups(n: nat): seq<string> {
    seq(n, i => "..")
  }

  /** Plain segments are the place spelled out. */
  lemma {:induction false} PlainSpellsPlace(segs: seq<string>, from: Place)
    requires PlainSegments(segs) && (from.downs != [] ==> forall i :: 0 <= i < |segs| ==> segs[i] != "..")
    ensures var to := Walk(from, segs); Ups(to.ups) + to.downs == Ups(from.ups) + from.downs + segs
    decreases |segs|
  {
    if segs == [] {
    } else {
      var next := if segs[0] != ".." then from.(downs := from.downs + [segs[0]]) else from.(ups := from.ups + 1);
      assert forall i :: 0 <= i < |segs[1..]| ==> segs[1..][i] == segs[i + 1];
      PlainSpellsPlace(segs[1..], next);
      assert Ups(next.ups) + next.downs + segs[1..] == Ups(from.ups) + from.downs + segs;
    }
  }

  lemma {:induction false} WalkAppendEmpty(from: Place, comps: seq<string>)
    ensures Walk(from, comps + [""]) == Walk(from, comps)
    decreases |comps|
  {
    if comps == [] {
      assert comps + [""] == [""];
    } else {
      assert (comps + [""])[1..] == comps[1..] + [""];
      WalkAppendEmpty(if comps[0] == "" || comps[0] == "." then from
                      else if comps[0] != ".." then from.(downs := from.downs + [comps[0]])
                      else if from.downs != [] then from.(downs := from.downs[..|from.downs| - 1])
                      else from.(ups := from.ups + 1), comps[1..]);
    }
  }

  lemma {:induction false} ResolveStripped(name: string)
    ensures Resolve(name) == Resolve(StripTrailing(name))
    decreases |name|
  {
    if name != "" && name[|name| - 1] == '/' {
      var shorter := name[..|name| - 1];
      assert name == shorter + ['/'];
      SplitAppendSeparator(shorter, '/');
      WalkAppendEmpty(Place(0, []), Split(shorter, '/'));
      ResolveStripped(shorter);
    }
  }

  /** Two accepted members that differ, trailing slashes aside, never land on the same path. */
  lemma AcceptedNamesDoNotCollide(a: string, b: string)
    requires Canonical(a) && Canonical(b) && StripTrailing(a) != StripTrailing(b)
    ensures Resolve(a) != Resolve(b)
  {
    ResolveStripped(a);
    ResolveStripped(b);
    var pa := Spelled(a);
    var pb := Spelled(b);
    JoinSplit(StripTrailing(a), '/');
    JoinSplit(StripTrailing(b), '/');
  }

  /** The place of an accepted name, spelled out, is its segments; "." is the root itself. */
  lemma Spelled(name: string) returns (segs: seq<string>)
    requires Canonical(name)
    ensures segs == if StripTrailing(name) == "." then [] else Split(StripTrailing(name), '/')
    ensures var to := Resolve(StripTrailing(name)); Ups(to.ups) + to.downs == segs
  {
    var stripped := StripTrailing(name);
    CanonicalIffPlain(name);
    if stripped == "." {
      segs := [];
      SplitFree(".", '/');
    } else {
      segs := Split(stripped, '/');
      PlainSpellsPlace(segs, Place(0, []));
      assert Ups(0) + [] + segs == segs;
    }
  }

  // ---------- Normalizing twice ----------

  lemma NormPathIsIdempotent(path: string)
    ensures NormPath(NormPath(path)) == NormPath(path)
  {
    if path != "" {
      var initial := InitialSlashes(path);
      var segs := Normalize([], Split(path, '/'), initial != "");
      NormalizeIsStable([], Split(path, '/'), initial != "");
      NormPathOfNormal(initial, segs);
    }
    SplitFree(".", '/');
  }

  lemma NormPathOfNormal(initial: string, segs: seq<string>)
    requires initial in {"", "/", "//"} && Stable(segs, initial != "")
    ensures var path := initial + Join(segs, "/"); path != "" ==> NormPath(path) == path
  {
    var body := Join(segs, "/");
    var path := initial + body;
    if path != "" {
      if segs != [] {
        SplitJoin(segs, '/');
        BodyStartsWithSegment(segs);
      }
      assert InitialSlashes(path) == initial by {
        assert body != "" ==> path[|initial|] == body[0];
      }
      NormalizeBehindSlashes(initial, body);
      StableIsFixed([], segs, initial != "");
      assert [] + segs == segs;
      if segs == [] {
        SplitFree("", '/');
      }
    }
  }

  lemma BodyStartsWithSegment(segs: seq<string>)
    requires segs != [] && PlainSegments(segs)
    ensures Join(segs, "/") != "" && Join(segs, "/")[0] != '/'
  {
    assert Join(segs, "/")[0] == segs[0][0];
    assert segs[0][0] in segs[0];
  }

  lemma NormalizeBehindSlashes(initial: string, body: string)
    requires initial in {"", "/", "//"}
    ensures Normalize([], Split(initial + body, '/'), initial != "") == Normalize([], Split(body, '/'), initial != "")
  {
    assert "" + body == body;
    SplitFirst("", body, '/');
    assert "" + "/" + body == "/" + body;
    SplitFirst("", "/" + body, '/');
    assert "" + "/" + ("/" + body) == "//" + body;
    assert ([""] + Split(body, '/'))[1..] == Split(body, '/');
    assert ([""] + Split("/" + body, '/'))[1..] == Split("/" + body, '/');
  }
}
