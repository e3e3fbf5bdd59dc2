/** The tree of classifiers shown as search filters, built by walking and growing nested dictionaries. */
module FilterTree {
  import opened Common

  type Path = seq<string>

  /** A dictionary from names to sub-dictionaries; dictionaries remember insertion order. */
  class Level {
    var names: seq<string>
    var children: map<string, Level>

    constructor ()
      ensures names == [] && children == map[]
    {
      names := [];
      children := map[];
    }
  }

  // ---------- The simple description ----------

  /** A path belongs to the tree when it is a prefix of an input list. */
  predicate Covered(lists: seq<Path>, p: Path) {
    p == [] || exists i :: 0 <= i < |lists| && p <= lists[i]
  }

  /** The name `list` contributes below `p`, if any. */
  function NameBelow(list: Path, p: Path): Option<string> {
    if p <= list && |p| < |list| then Some(list[|p|]) else None
  }

  /** The names below `p`, in order of first occurrence. */
  function NamesBelow(lists: seq<Path>, p: Path): seq<string> {
    if lists == [] then []
    else
      var earlier := NamesBelow(lists[..|lists| - 1], p);
      var name := NameBelow(lists[|lists| - 1], p);
      if name.Some? && name.value !in earlier then earlier + [name.value] else earlier
  }

  /** Which names stand below `p`: those that extend `p` to a covered path, each once. */
  lemma {:induction false} NamesBelowAreTheExtensions(lists: seq<Path>, p: Path, name: string)
    ensures name in NamesBelow(lists, p) <==> Covered(lists, p + [name])
    ensures Distinct(NamesBelow(lists, p))
  {
    if lists == [] {
    } else {
      var earlier := lists[..|lists| - 1];
      var last := lists[|lists| - 1];
      NamesBelowAreTheExtensions(earlier, p, name);
      assert p + [name] <= last <==> NameBelow(last, p) == Some(name) by {
        if NameBelow(last, p) == Some(name) {
          assert last[..|p| + 1] == p + [name];
        }
        if p + [name] <= last {
          assert last[..|p|] == (p + [name])[..|p|] == p && last[|p|] == (p + [name])[|p|];
        }
      }
      CoveredSnoc(earlier, last, p + [name]);
      assert earlier + [last] == lists;
    }
  }

  lemma CoveredSnoc(lists: seq<Path>, list: Path, p: Path)
    ensures Covered(lists + [list], p) <==> Covered(lists, p) || p <= list
  {
    var all := lists + [list];
    if Covered(lists, p) && p != [] {
      var i :| 0 <= i < |lists| && p <= lists[i];
      assert all[i] == lists[i];
    }
    if p <= list {
      assert all[|lists|] == list;
    }
    if Covered(all, p) && p != [] {
      var i :| 0 <= i < |all| && p <= all[i];
      assert i < |lists| ==> all[i] == lists[i];
    }
  }

  lemma NamesBelowSnoc(lists: seq<Path>, list: Path, p: Path)
    ensures NamesBelow(lists + [list], p) ==
      var name := NameBelow(list, p);
      if name.Some? && name.value !in NamesBelow(lists, p) then NamesBelow(lists, p) + [name.value] else NamesBelow(lists, p)
  {
    assert (lists + [list])[..|lists|] == lists;
  }

  /** Names keep the place of their first occurrence when more lists arrive. */
  lemma {:induction false} NamesBelowGrow(lists: seq<Path>, more: seq<Path>, p: Path)
    ensures NamesBelow(lists, p) <= NamesBelow(lists + more, p)
    decreases |more|
  {
    if more == [] {
      assert lists + more == lists;
    } else {
      var init := more[..|more| - 1];
      NamesBelowGrow(lists, init, p);
      NamesBelowSnoc(lists + init, more[|more| - 1], p);
      assert lists + init + [more[|more| - 1]] == lists + more;
    }
  }

  /** Inserting a list again, or a prefix of one, changes nothing. */
  lemma ReinsertingChangesNothing(lists: seq<Path>, again: Path, p: Path)
    requires Covered(lists, again)
    ensures Covered(lists + [again], p) <==> Covered(lists, p)
    ensures NamesBelow(lists + [again], p) == NamesBelow(lists, p)
  {
    CoveredSnoc(lists, again, p);
    NamesBelowSnoc(lists, again, p);
    if p <= again {
      PrefixCovered(lists, again, p);
    }
    var name := NameBelow(again, p);
    if name.Some? {
      assert again[..|p| + 1] == p + [name.value];
      PrefixCovered(lists, again, p + [name.value]);
      NamesBelowAreTheExtensions(lists, p, name.value);
    }
  }

  lemma PrefixCovered(lists: seq<Path>, q: Path, p: Path)
    requires Covered(lists, q) && p <= q
    ensures Covered(lists, p)
  {
    if q != [] {
      var i :| 0 <= i < |lists| && q <= lists[i];
      assert p == q[..|p|] == lists[i][..|p|];
    }
  }

  lemma NothingBelowUncovered(lists: seq<Path>, p: Path)
    requires !Covered(lists, p)
    ensures NamesBelow(lists, p) == []
  {
    if NamesBelow(lists, p) != [] {
      var name := NamesBelow(lists, p)[0];
      NamesBelowAreTheExtensions(lists, p, name);
      PrefixCovered(lists, p + [name], p);
    }
  }

  // ---------- The tree on the heap ----------

  /** A position in the tree. */
  datatype Node = Root | Child(parent: Node, name: string)

  /** The names on the way from the root. */
  function Parts(n: Node): Path {
    match n
    case Root => []
    case Child(parent, name) => Parts(parent) + [name]
  }

  /** The node the first `i` parts of a list lead to. */
  function NodeOf(list: Path, i: nat): (n: Node)
    requires i <= |list|
    ensures Parts(n) == list[..i]
  {
    if i == 0 then Root else Child(NodeOf(list, i - 1), list[i - 1])
  }

  lemma {:induction false} PartsAreInjective(a: Node, b: Node)
    requires Parts(a) == Parts(b)
    ensures a == b
  {
    if a.Child? && b.Child? {
      assert Parts(a)[..|Parts(a)| - 1] == Parts(a.parent) && Parts(b)[..|Parts(b)| - 1] == Parts(b.parent);
      assert Parts(a)[|Parts(a)| - 1] == a.name && Parts(b)[|Parts(b)| - 1] == b.name;
      PartsAreInjective(a.parent, b.parent);
    }
  }

  /** The child names, and the sub-dictionaries, at every node. */
  type Listing = map<Node, seq<string>>
  type Links = map<Node, map<string, Level>>

  ghost function ListingOf(at: map<Node, Level>): Listing
    reads at.Values
  {
    map n | n in at :: at[n].names
  }

  ghost function LinksOf(at: map<Node, Level>): Links
    reads at.Values
  {
    map n | n in at :: at[n].children
  }

  /** `at` gives the dictionary at every node; no two nodes share one. */
  ghost predicate IsTree(root: Level, at: map<Node, Level>, links: Links) {
    && Root in at && at[Root] == root
    && (forall n :: n in at <==> n in links)
    && Unshared(at) && LeadsDown(at, links) && LeadsUp(at, links)
  }

  ghost predicate Unshared(at: map<Node, Level>) {
    forall m, n :: m in at && n in at && at[m] == at[n] ==> m == n
  }

  ghost predicate LeadsDown(at: map<Node, Level>, links: Links) {
    forall n, name :: n in links && name in links[n] ==> Child(n, name) in at && links[n][name] == at[Child(n, name)]
  }

  ghost predicate LeadsUp(at: map<Node, Level>, links: Links) {
    forall n, name :: Child(n, name) in at ==> n in links && name in links[n]
  }

  /** The tree holds exactly the covered paths, children in order of first occurrence. */
  ghost predicate Represents(names: Listing, lists: seq<Path>) {
    && (forall n :: n in names <==> Covered(lists, Parts(n)))
    && (forall n :: n in names ==> names[n] == NamesBelow(lists, Parts(n)))
  }

  /** The first `i` parts of a list lead to `p`, or past it. */
  predicate Reached(list: Path, i: nat, p: Path)
    requires i <= |list|
  {
    |p| <= i && p == list[..|p|]
  }

  predicate Passed(list: Path, i: nat, p: Path)
    requires i <= |list|
  {
    |p| < i && p == list[..|p|]
  }

  /** While a list is being inserted: its first `i` parts are done. */
  ghost predicate Inserting(names: Listing, lists: seq<Path>, list: Path, i: nat)
    requires i <= |list|
  {
    && (forall n :: n in names <==> Covered(lists, Parts(n)) || Reached(list, i, Parts(n)))
    && (forall n :: n in names ==> names[n] == NamesBelow(if Passed(list, i, Parts(n)) then lists + [list] else lists, Parts(n)))
  }

  /** Entering `name` below `n`: an empty child is added if there is none. */
  function Entered(names: Listing, n: Node, name: string): Listing
    requires n in names
  {
    if Child(n, name) in names then names else names[n := names[n] + [name]][Child(n, name) := []]
  }

  lemma OneMorePart(list: Path, i: nat, n: Node)
    requires i < |list|
    ensures NodeOf(list, i + 1) == Child(NodeOf(list, i), list[i])
    ensures Reached(list, i + 1, Parts(n)) <==> Reached(list, i, Parts(n)) || n == NodeOf(list, i + 1)
    ensures Passed(list, i + 1, Parts(n)) <==> Passed(list, i, Parts(n)) || n == NodeOf(list, i)
  {
    if Parts(n) == list[..i] {
      PartsAreInjective(n, NodeOf(list, i));
    }
    if Parts(n) == list[..i + 1] {
      PartsAreInjective(n, NodeOf(list, i + 1));
    }
  }

  /** A child of the name being entered is there exactly when an earlier list covers it. */
  lemma EnteringKeepsInserting(names: Listing, lists: seq<Path>, list: Path, i: nat)
    requires i < |list| && Inserting(names, lists, list, i)
    ensures NodeOf(list, i) in names && Inserting(Entered(names, NodeOf(list, i), list[i]), lists, list, i + 1)
  {
    var n, name := NodeOf(list, i), list[i];
    var p, next := Parts(n), Child(n, name);
    OneMorePart(list, i, n);
    OneMorePart(list, i, next);
    assert Reached(list, i, p) && !Reached(list, i, Parts(next));
    assert NameBelow(list, p) == Some(name);
    NamesBelowSnoc(lists, list, p);
    NamesBelowAreTheExtensions(lists, p, name);
    if !Covered(lists, Parts(next)) {
      NothingBelowUncovered(lists, Parts(next));
    }
    var names' := Entered(names, n, name);
    forall m
      ensures m in names' <==> Covered(lists, Parts(m)) || Reached(list, i + 1, Parts(m))
      ensures m in names' ==> names'[m] == NamesBelow(if Passed(list, i + 1, Parts(m)) then lists + [list] else lists, Parts(m))
    {
      OneMorePart(list, i, m);
    }
  }

  lemma InsertedWhole(names: Listing, lists: seq<Path>, list: Path)
    requires Inserting(names, lists, list, |list|)
    ensures Represents(names, lists + [list])
  {
    forall n
      ensures n in names <==> Covered(lists + [list], Parts(n))
      ensures n in names ==> names[n] == NamesBelow(lists + [list], Parts(n))
    {
      CoveredSnoc(lists, list, Parts(n));
      NamesBelowSnoc(lists, list, Parts(n));
    }
  }

  lemma StartInserting(names: Listing, lists: seq<Path>, list: Path)
    requires Represents(names, lists)
    ensures Inserting(names, lists, list, 0)
  {
  }

  lemma AddingKeepsLinks(at: map<Node, Level>, links: Links, n: Node, name: string, child: Level)
    requires LeadsDown(at, links) && LeadsUp(at, links)
    requires n in at && n in links && Child(n, name) !in at && Child(n, name) !in links
    ensures var at', links' := at[Child(n, name) := child], links[n := links[n][name := child]][Child(n, name) := map[]];
      LeadsDown(at', links') && LeadsUp(at', links')
  {
  }

  /** The tree after one more dictionary, in terms of what the dictionaries hold. */
  lemma AddingKeepsTree(root: Level, at: map<Node, Level>, links: Links, n: Node, name: string, child: Level, at': map<Node, Level>, links': Links)
    requires IsTree(root, at, links) && n in at && Child(n, name) !in at
    requires forall m :: m in at ==> at[m] != child
    requires at' == at[Child(n, name) := child] && links' == links[n := links[n][name := child]][Child(n, name) := map[]]
    ensures IsTree(root, at', links')
  {
    AddingKeepsLinks(at, links, n, name, child);
  }

  /** Writes a new entry into one dictionary of the tree. */
  method Link(ghost at: map<Node, Level>, ghost n: Node, level: Level, name: string, child: Level)
    requires Unshared(at) && n in at && at[n] == level
    modifies level
    ensures LinksOf(at) == old(LinksOf(at))[n := old(level.children)[name := child]]
    ensures ListingOf(at) == old(ListingOf(at))[n := old(level.names) + [name]]
  {
    level.names := level.names + [name];
    level.children := level.children[name := child];
  }

  lemma ListingWith(at: map<Node, Level>, n: Node, level: Level)
    ensures ListingOf(at[n := level]) == ListingOf(at)[n := level.names]
    ensures LinksOf(at[n := level]) == LinksOf(at)[n := level.children]
  {
  }

  lemma OneMoreLevel(at: map<Node, Level>, n: Node, level: Level)
    ensures at[n := level].Values <= at.Values + {level}
  {
  }

  /** Adds one empty dictionary below node `n`. */
  method AddChild(root: Level, ghost at: map<Node, Level>, ghost n: Node, level: Level, name: string)
    returns (child: Level, ghost at': map<Node, Level>)
    requires IsTree(root, at, LinksOf(at)) && n in at && at[n] == level && Child(n, name) !in at
    modifies level
    ensures at' == at[Child(n, name) := child] && IsTree(root, at', LinksOf(at'))
    ensures fresh(at'.Values - at.Values)
    ensures ListingOf(at') == Entered(old(ListingOf(at)), n, name)
  {
    hide LeadsDown, LeadsUp;
    child := new Level();
    at' := at[Child(n, name) := child];
    ghost var links := LinksOf(at);
    Link(at, n, level, name, child);
    ListingWith(at, Child(n, name), child);
    AddingKeepsTree(root, at, links, n, name, child, at', LinksOf(at'));
    OneMoreLevel(at, Child(n, name), child);
  }

  /** One step of the walk: `current` moves to the child for the next part, which is created if missing. */
  method Enter(root: Level, ghost at: map<Node, Level>, ghost lists: seq<Path>, list: Path, i: nat, current: Level)
    returns (next: Level, ghost at': map<Node, Level>)
    requires i < |list| && IsTree(root, at, LinksOf(at)) && Inserting(ListingOf(at), lists, list, i)
    requires NodeOf(list, i) in at && at[NodeOf(list, i)] == current
    modifies current
    ensures IsTree(root, at', LinksOf(at')) && Inserting(ListingOf(at'), lists, list, i + 1)
    ensures NodeOf(list, i + 1) in at' && at'[NodeOf(list, i + 1)] == next
    ensures fresh(at'.Values - at.Values)
  {
    ghost var n := NodeOf(list, i);
    EnteringKeepsInserting(ListingOf(at), lists, list, i);
    assert list[i] in LinksOf(at)[n] <==> Child(n, list[i]) in at;
    if list[i] !in current.children {
      next, at' := AddChild(root, at, n, current, list[i]);
    } else {
      next, at' := current.children[list[i]], at;
    }
  }

  /** The tree under `root`, with `at` giving its dictionaries, is that of the lists. */
  ghost predicate HoldsTree(root: Level, at: map<Node, Level>, lists: seq<Path>)
    reads at.Values
  {
    IsTree(root, at, LinksOf(at)) && Represents(ListingOf(at), lists)
  }

  /** The inner loop of `form_filters_tree`: walks one list down the tree, growing it where needed. */
  method InsertList(root: Level, ghost at: map<Node, Level>, ghost lists: seq<Path>, list: Path) returns (ghost at': map<Node, Level>)
    requires HoldsTree(root, at, lists)
    modifies at.Values
    ensures HoldsTree(root, at', lists + [list])
    ensures fresh(at'.Values - at.Values)
  {
    var current := root;
    at' := at;
    StartInserting(ListingOf(at), lists, list);
    for i := 0 to |list|
      invariant IsTree(root, at', LinksOf(at')) && Inserting(ListingOf(at'), lists, list, i)
      invariant NodeOf(list, i) in at' && at'[NodeOf(list, i)] == current
      invariant fresh(at'.Values - at.Values)
    {
      current, at' := Enter(root, at', lists, list, i, current);
    }
    InsertedWhole(ListingOf(at'), lists, list);
  }

  lemma EmptyTree(root: Level, at: map<Node, Level>, links: Links, names: Listing)
    requires at == map[Root := root] && links == map[Root := map[]] && names == map[Root := []]
    ensures IsTree(root, at, links) && Represents(names, [])
  {
    assert forall n :: Parts(n) == [] <==> n == Root;
  }

  method NewTree() returns (root: Level, ghost at: map<Node, Level>)
    ensures HoldsTree(root, at, []) && fresh(at.Values)
  {
    root := new Level();
    at := map[Root := root];
    EmptyTree(root, at, LinksOf(at), ListingOf(at));
  }

  /** The outer loop of `form_filters_tree`. */
  method GrowTree(lists: seq<Path>) returns (root: Level, ghost at: map<Node, Level>)
    ensures HoldsTree(root, at, lists)
  {
    hide HoldsTree;
    root, at := NewTree();
    for k := 0 to |lists|
      invariant HoldsTree(root, at, lists[..k]) && fresh(at.Values)
    {
      at := InsertList(root, at, lists[..k], lists[k]);
      assert lists[..k + 1] == lists[..k] + [lists[k]];
    }
    assert lists[..|lists|] == lists;
  }

  // ---------- Walking the result ----------

  /** Whether following `path` from `level`, one dictionary lookup per name, leads anywhere. */
  ghost predicate Walks(level: Level, path: Path)
    reads *
  {
    path == [] || (path[0] in level.children && Walks(level.children[path[0]], path[1..]))
  }

  /** Where it leads. */
  ghost function End(level: Level, path: Path): Level
    requires Walks(level, path)
    reads *
  {
    if path == [] then level else End(level.children[path[0]], path[1..])
  }

  function Below(n: Node, path: Path): Node
    decreases |path|
  {
    if path == [] then n else Below(Child(n, path[0]), path[1..])
  }

  lemma {:induction false} PartsBelow(n: Node, path: Path)
    ensures Parts(Below(n, path)) == Parts(n) + path
    decreases |path|
  {
    if path != [] {
      PartsBelow(Child(n, path[0]), path[1..]);
      assert Parts(n) + [path[0]] + path[1..] == Parts(n) + path;
    } else {
      assert Parts(n) + [] == Parts(n);
    }
  }

  lemma {:induction false} AncestorIsThere(at: map<Node, Level>, n: Node, path: Path)
    requires LeadsUp(at, LinksOf(at)) && Below(n, path) in at
    ensures n in at
    decreases |path|
  {
    if path == [] {
    } else {
      AncestorIsThere(at, Child(n, path[0]), path[1..]);
    }
  }

  /** Looking up one name leads to the child node's dictionary. */
  lemma LookupFollowsNodes(at: map<Node, Level>, n: Node, name: string)
    requires LeadsDown(at, LinksOf(at)) && LeadsUp(at, LinksOf(at)) && n in at
    ensures name in at[n].children <==> Child(n, name) in at
    ensures name in at[n].children ==> at[n].children[name] == at[Child(n, name)]
  {
    assert LinksOf(at)[n] == at[n].children;
  }

  /** Lookups go where the nodes say. */
  lemma {:induction false} WalkFollowsNodes(at: map<Node, Level>, n: Node, path: Path)
    requires LeadsDown(at, LinksOf(at)) && LeadsUp(at, LinksOf(at)) && n in at
    ensures Walks(at[n], path) <==> Below(n, path) in at
    ensures Walks(at[n], path) ==> End(at[n], path) == at[Below(n, path)]
    decreases |path|
  {
    hide LeadsDown, LeadsUp, LinksOf;
    if path == [] {
    } else {
      LookupFollowsNodes(at, n, path[0]);
      if path[0] in at[n].children {
        WalkFollowsNodes(at, Child(n, path[0]), path[1..]);
      } else if Below(n, path) in at {
        AncestorIsThere(at, Child(n, path[0]), path[1..]);
      }
    }
  }

  lemma WalksAreCoveredPaths(root: Level, at: map<Node, Level>, lists: seq<Path>, path: Path)
    requires HoldsTree(root, at, lists)
    ensures Walks(root, path) <==> Covered(lists, path)
    ensures Walks(root, path) ==> End(root, path).names == NamesBelow(lists, path)
  {
    WalkFollowsNodes(at, Root, path);
    PartsBelow(Root, path);
    assert Parts(Root) + path == path;
    assert Below(Root, path) in at ==> ListingOf(at)[Below(Root, path)] == at[Below(Root, path)].names;
  }

  /**
   * `form_filters_tree`: a path can be walked from the root exactly when it is a prefix of a list, and
   * the children at its end are listed in order of first occurrence.
   */
  method FormFiltersTree(lists: seq<Path>) returns (root: Level)
    ensures forall path :: Walks(root, path) <==> Covered(lists, path)
    ensures forall path :: Walks(root, path) ==> End(root, path).names == NamesBelow(lists, path)
  {
    ghost var at: map<Node, Level>;
    root, at := GrowTree(lists);
    forall path
      ensures Walks(root, path) <==> Covered(lists, path)
      ensures Walks(root, path) ==> End(root, path).names == NamesBelow(lists, path)
    {
      WalksAreCoveredPaths(root, at, lists, path);
    }
  }
}
