/** Content security policies: merging them, and writing them into the header. */
module Csp {
  import opened Common
  import opened Text

  const NONE := "'none'"

  /** A source expression; deployments without a setting leave holes, which are not written. */
  type Source = Option<string>

  /** From directive names to source lists. */
  type Policy = map<string, seq<Source>>

  const NONE_SOURCE: Source := Some(NONE)

  function Sources(p: Policy, key: string): seq<Source> {
    if key in p then p[key] else []
  }

  /** Removes the first 'none'. */
  function RemoveNone(v: seq<Source>): seq<Source> {
    if v == [] then [] else if v[0] == NONE_SOURCE then v[1..] else [v[0]] + RemoveNone(v[1..])
  }

  function MergeSources(own: seq<Source>, attrs: seq<Source>): seq<Source> {
    var all := own + attrs;
    if NONE_SOURCE in all && |all| > 1 then RemoveNone(all) else all
  }

  function Merge(p: Policy, q: Policy): Policy {
    map k | k in p.Keys + q.Keys :: if k in q then MergeSources(Sources(p, k), q[k]) else p[k]
  }

  /** Merging one more directive, on top of those already merged. */
  lemma MergeOneMore(p: Policy, other: Policy, pending: set<string>, key: string)
    requires key in pending && pending <= other.Keys
    ensures Sources(Merge(p, other - pending), key) == Sources(p, key)
    ensures Merge(p, other - (pending - {key})) == Merge(p, other - pending)[key := MergeSources(Sources(p, key), other[key])]
  {
  }

  class CSPPolicy {
    var policy: Policy

    constructor (policy: Policy)
      ensures this.policy == policy
    {
      this.policy := policy;
    }

    /** Extends and tidies one directive after another; their order makes no difference. */
    method MergePolicy(other: Policy)
      modifies this
      ensures policy == Merge(old(policy), other)
    {
      var pending := other.Keys;
      while pending != {}
        invariant pending <= other.Keys
        invariant policy == Merge(old(policy), other - pending)
        decreases pending
      {
        var key :| key in pending;
        MergeOneMore(old(policy), other, pending, key);
        policy := policy[key := Sources(policy, key) + other[key]];
        if NONE_SOURCE in policy[key] && |policy[key]| > 1 {
          policy := policy[key := RemoveNone(policy[key])];
        }
        pending := pending - {key};
      }
      assert other - pending == other;
    }
  }

  // ---------- Merging ----------

  /** 'none' stands alone or not at all (section 2.3.1 of CSP Level 3). */
  predicate Disciplined(v: seq<Source>) {
    NONE_SOURCE !in v || v == [NONE_SOURCE]
  }

  predicate DisciplinedPolicy(p: Policy) {
    forall k :: k in p ==> Disciplined(p[k])
  }

  function Others(v: seq<Source>): seq<Source> {
    if v == [] then [] else (if v[0] == NONE_SOURCE then [] else [v[0]]) + Others(v[1..])
  }

  function Nones(v: seq<Source>): nat {
    if v == [] then 0 else (if v[0] == NONE_SOURCE then 1 else 0) + Nones(v[1..])
  }

  lemma {:induction false} CountingSources(v: seq<Source>)
    ensures |Others(v)| + Nones(v) == |v|
    ensures NONE_SOURCE in v <==> Nones(v) > 0
    ensures Nones(v) == 0 ==> Others(v) == v
  {
    if v == [] {
    } else {
      CountingSources(v[1..]);
      assert v == [v[0]] + v[1..];
    }
  }

  lemma {:induction false} RemovingNone(v: seq<Source>)
    ensures Others(RemoveNone(v)) == Others(v)
    ensures Nones(RemoveNone(v)) == if Nones(v) > 0 then Nones(v) - 1 else 0
  {
    if v == [] {
    } else if v[0] == NONE_SOURCE {
      assert [] + Others(v[1..]) == Others(v[1..]);
    } else {
      RemovingNone(v[1..]);
      OthersCons(v[0], RemoveNone(v[1..]));
    }
  }

  lemma {:induction false} OthersAppend(a: seq<Source>, b: seq<Source>)
    ensures Others(a + b) == Others(a) + Others(b)
    ensures Nones(a + b) == Nones(a) + Nones(b)
  {
    if a == [] {
      assert a + b == b;
    } else {
      var rest := a[1..];
      assert a + b == [a[0]] + (rest + b);
      OthersAppend(rest, b);
      OthersCons(a[0], rest + b);
      OthersCons(a[0], rest);
      assert a == [a[0]] + rest;
    }
  }

  lemma OthersCons(x: Source, v: seq<Source>)
    ensures Others([x] + v) == (if x == NONE_SOURCE then [] else [x]) + Others(v)
    ensures Nones([x] + v) == (if x == NONE_SOURCE then 1 else 0) + Nones(v)
  {
    assert ([x] + v)[1..] == v;
  }

  /** Disciplined lists merge into the other sources of both, in order, or into 'none' if that is all there was. */
  lemma MergedSources(own: seq<Source>, attrs: seq<Source>)
    requires Disciplined(own) && Disciplined(attrs)
    ensures MergeSources(own, attrs) ==
      if Others(own) + Others(attrs) != [] then Others(own) + Others(attrs)
      else if NONE_SOURCE in own || NONE_SOURCE in attrs then [NONE_SOURCE] else []
    ensures Disciplined(MergeSources(own, attrs))
  {
    var all := own + attrs;
    OthersAppend(own, attrs);
    CountingSources(own);
    CountingSources(attrs);
    CountingSources(all);
    CountingSources(RemoveNone(all));
    RemovingNone(all);
    assert Others([NONE_SOURCE]) == [] && Nones([NONE_SOURCE]) == 1;
    if own == [NONE_SOURCE] && attrs == [NONE_SOURCE] {
      assert all == [NONE_SOURCE, NONE_SOURCE];
    }
  }

  /**
   * In general the code keeps the discipline exactly when the extended list has at most one 'none', or
   * is 'none' twice: only one is ever removed.
   */
  lemma MergeDisciplinedIff(own: seq<Source>, attrs: seq<Source>)
    ensures Disciplined(MergeSources(own, attrs)) <==>
      Nones(own + attrs) <= 1 || own + attrs == [NONE_SOURCE, NONE_SOURCE]
  {
    var all := own + attrs;
    CountingSources(all);
    CountingSources(RemoveNone(all));
    RemovingNone(all);
    assert Nones([NONE_SOURCE]) == 1 && Others([NONE_SOURCE]) == [];
    if NONE_SOURCE in all && |all| > 1 && RemoveNone(all) == [NONE_SOURCE] {
      assert |all| == 2 && Nones(all) == 2;
      assert all == [all[0], all[1]];
      assert Nones(all[1..]) == Nones([all[1]]);
    }
  }

  lemma MergeKeepsDiscipline(p: Policy, q: Policy)
    requires DisciplinedPolicy(p) && DisciplinedPolicy(q)
    ensures DisciplinedPolicy(Merge(p, q))
  {
    forall k | k in Merge(p, q)
      ensures Disciplined(Merge(p, q)[k])
    {
      if k in q {
        MergedSources(Sources(p, k), q[k]);
      }
    }
  }

  /** A directive missing from one side merges like an empty one. */
  lemma MergedAt(p: Policy, q: Policy, key: string)
    requires DisciplinedPolicy(p)
    ensures Sources(Merge(p, q), key) == MergeSources(Sources(p, key), Sources(q, key))
  {
    assert Sources(p, key) + [] == Sources(p, key);
  }

  /** Merging two policies one after the other is merging their combination. */
  lemma MergeIsAssociative(p: Policy, a: Policy, b: Policy)
    requires DisciplinedPolicy(p) && DisciplinedPolicy(a) && DisciplinedPolicy(b)
    ensures Merge(Merge(p, a), b) == Merge(p, Merge(a, b))
  {
    var left, right := Merge(Merge(p, a), b), Merge(p, Merge(a, b));
    assert left.Keys == right.Keys;
    forall k | k in left
      ensures left[k] == right[k]
    {
      SameSourcesEitherWay(p, a, b, k);
    }
  }

  lemma SameSourcesEitherWay(p: Policy, a: Policy, b: Policy, key: string)
    requires DisciplinedPolicy(p) && DisciplinedPolicy(a) && DisciplinedPolicy(b)
    ensures Sources(Merge(Merge(p, a), b), key) == Sources(Merge(p, Merge(a, b)), key)
  {
    MergeKeepsDiscipline(p, a);
    MergedAt(p, a, key);
    MergedAt(Merge(p, a), b, key);
    MergedAt(a, b, key);
    MergedAt(p, Merge(a, b), key);
    DirectiveAssociative(Sources(p, key), Sources(a, key), Sources(b, key));
  }

  /** A disciplined list is determined by its other sources and whether it is 'none'. */
  lemma DisciplinedAreEqual(v: seq<Source>, w: seq<Source>)
    requires Disciplined(v) && Disciplined(w)
    requires Others(v) == Others(w) && (NONE_SOURCE in v <==> NONE_SOURCE in w)
    ensures v == w
  {
    CountingSources(v);
    CountingSources(w);
  }

  lemma MergedParts(own: seq<Source>, attrs: seq<Source>)
    requires Disciplined(own) && Disciplined(attrs)
    ensures var v := MergeSources(own, attrs);
      && Disciplined(v) && Others(v) == Others(own) + Others(attrs)
      && (NONE_SOURCE in v <==> (NONE_SOURCE in own || NONE_SOURCE in attrs) && Others(own) + Others(attrs) == [])
  {
    MergedSources(own, attrs);
    OthersTwice(own);
    OthersTwice(attrs);
    OthersAppend(Others(own), Others(attrs));
    OthersOfNone();
  }

  lemma DirectiveAssociative(p: seq<Source>, a: seq<Source>, b: seq<Source>)
    requires Disciplined(p) && Disciplined(a) && Disciplined(b)
    ensures MergeSources(MergeSources(p, a), b) == MergeSources(p, MergeSources(a, b))
  {
    var pa, ab := MergeSources(p, a), MergeSources(a, b);
    MergedParts(p, a);
    MergedParts(a, b);
    MergedParts(pa, b);
    MergedParts(p, ab);
    EitherGrouping(Others(p), Others(a), Others(b), NONE_SOURCE in p, NONE_SOURCE in a, NONE_SOURCE in b);
    DisciplinedAreEqual(MergeSources(pa, b), MergeSources(p, ab));
  }

  /** Grouping decides neither the other sources nor whether a 'none' is left over. */
  lemma EitherGrouping(p: seq<Source>, a: seq<Source>, b: seq<Source>, noP: bool, noA: bool, noB: bool)
    ensures (p + a) + b == p + (a + b)
    ensures (((noP || noA) && p + a == []) || noB) && p + a + b == [] <==>
      (noP || ((noA || noB) && a + b == [])) && p + a + b == []
  {
    assert p + a + b == [] <==> p == [] && a == [] && b == [];
  }

  lemma MergeIntoEmpty(v: seq<Source>)
    requires Disciplined(v)
    ensures MergeSources([], v) == v
  {
    MergedParts([], v);
    DisciplinedAreEqual(MergeSources([], v), v);
  }

  lemma OthersOfNone()
    ensures Others([NONE_SOURCE]) == []
    ensures forall v :: v == [] ==> Others(v) == []
  {
  }

  lemma {:induction false} OthersTwice(v: seq<Source>)
    ensures Others(Others(v)) == Others(v) && NONE_SOURCE !in Others(v)
  {
    if v == [] {
    } else {
      OthersTwice(v[1..]);
      if v[0] == NONE_SOURCE {
        assert [] + Others(v[1..]) == Others(v[1..]);
      } else {
        assert ([v[0]] + Others(v[1..]))[1..] == Others(v[1..]);
      }
    }
  }

  function MergeAll(p: Policy, policies: seq<Policy>): Policy
    decreases |policies|
  {
    if policies == [] then p else MergeAll(Merge(p, policies[0]), policies[1..])
  }

  /** However many components contribute, their policies can be combined first and merged once. */
  lemma {:induction false} MergeAllAtOnce(p: Policy, policies: seq<Policy>)
    requires DisciplinedPolicy(p) && forall i :: 0 <= i < |policies| ==> DisciplinedPolicy(policies[i])
    ensures MergeAll(p, policies) == Merge(p, MergeAll(map[], policies))
    ensures DisciplinedPolicy(MergeAll(p, policies))
    decreases |policies|
  {
    if policies == [] {
      assert Merge(p, map[]) == p;
    } else {
      var q, rest := policies[0], policies[1..];
      MergeKeepsDiscipline(p, q);
      MergeAllAtOnce(Merge(p, q), rest);
      MergeKeepsDiscipline(map[], q);
      MergeAllAtOnce(Merge(map[], q), rest);
      MergeAllAtOnce(map[], rest);
      var combined := MergeAll(map[], rest);
      MergeIsAssociative(p, q, combined);
      MergeIsAssociative(map[], q, combined);
      MergeIntoNothing(q, combined);
    }
  }

  lemma MergeIntoNothing(q: Policy, combined: Policy)
    requires DisciplinedPolicy(q) && DisciplinedPolicy(combined)
    ensures Merge(map[], q) == q && Merge(map[], Merge(q, combined)) == Merge(q, combined)
  {
    MergeKeepsDiscipline(q, combined);
    forall k | k in q
      ensures Merge(map[], q)[k] == q[k]
    {
      MergeIntoEmpty(q[k]);
    }
    forall k | k in Merge(q, combined)
      ensures Merge(map[], Merge(q, combined))[k] == Merge(q, combined)[k]
    {
      MergeIntoEmpty(Merge(q, combined)[k]);
    }
  }

  // ---------- The header ----------

  /** A directive as written: its name and the sources that are there. */
  datatype Directive = Directive(name: string, sources: seq<Source>)

  function Present(v: seq<Source>): seq<string> {
    if v == [] then [] else (if v[0].Some? then [v[0].value] else []) + Present(v[1..])
  }

  function Written(d: Directive): string {
    Join([d.name] + Present(d.sources), " ")
  }

  function WrittenAll(items: seq<Directive>): seq<string> {
    if items == [] then [] else [Written(items[0])] + WrittenAll(items[1..])
  }

  /** `_serialize`, given the policy's directives in the order in which they are written. */
  function Serialize(items: seq<Directive>): string {
    Join(WrittenAll(items), "; ")
  }

  predicate IsSpace(c: char) {
    c in {' ', '\t', '\n', '\r', 12 as char}
  }

  function LeadingWord(s: string): (w: string)
    ensures |w| <= |s|
    ensures s != "" && !IsSpace(s[0]) ==> w != ""
  {
    if s == "" || IsSpace(s[0]) then "" else [s[0]] + LeadingWord(s[1..])
  }

  /** The pieces between runs of whitespace. */
  function Words(s: string): seq<string>
    decreases |s|
  {
    if s == "" then []
    else if IsSpace(s[0]) then Words(s[1..])
    else [LeadingWord(s)] + Words(s[|LeadingWord(s)|..])
  }

  function Lower(s: string): string {
    if s == "" then "" else [if 'A' <= s[0] <= 'Z' then s[0] + 32 as char else s[0]] + Lower(s[1..])
  }

  /**
   * Parsing a serialized policy (section 2.2.1 of CSP Level 3): split strictly on ';', strip whitespace,
   * skip empty pieces, lowercase the name, ignore a directive whose name was seen before.
   */
  function ParsePieces(pieces: seq<string>, soFar: map<string, seq<string>>): map<string, seq<string>>
    decreases |pieces|
  {
    if pieces == [] then soFar
    else
      var words := Words(pieces[0]);
      ParsePieces(pieces[1..],
                  if words == [] || Lower(words[0]) in soFar then soFar else soFar[Lower(words[0]) := words[1..]])
  }

  function Parse(header: string): map<string, seq<string>> {
    ParsePieces(Split(header, ';'), map[])
  }

  predicate IsToken(s: string) {
    s != "" && forall c :: c in s ==> !IsSpace(c) && c != ';'
  }

  predicate IsLowercase(s: string) {
    forall c :: c in s ==> !('A' <= c <= 'Z')
  }

  predicate WellFormed(d: Directive) {
    IsToken(d.name) && IsLowercase(d.name) && forall t :: t in Present(d.sources) ==> IsToken(t)
  }

  /** What the directives say, holes aside. */
  function Meaning(items: seq<Directive>): map<string, seq<string>> {
    if items == [] then map[]
    else
      var last := items[|items| - 1];
      Meaning(items[..|items| - 1])[last.name := Present(last.sources)]
  }

  lemma {:induction false} LowerIsIdentity(s: string)
    requires IsLowercase(s)
    ensures Lower(s) == s
  {
    if s == "" {
    } else {
      assert s[0] in s && forall c :: c in s[1..] ==> c in s;
      LowerIsIdentity(s[1..]);
      assert s == [s[0]] + s[1..];
    }
  }

  lemma {:induction false} LeadingToken(token: string, rest: string)
    requires forall c :: c in token ==> !IsSpace(c)
    requires rest == "" || IsSpace(rest[0])
    ensures LeadingWord(token + rest) == token
  {
    if token == "" {
      assert token + rest == rest;
    } else {
      assert token[0] in token;
      LeadingToken(token[1..], rest);
      assert (token + rest)[1..] == token[1..] + rest;
      assert token == [token[0]] + token[1..];
    }
  }

  lemma TokenThenRest(token: string, rest: string)
    requires IsToken(token) && (rest == "" || IsSpace(rest[0]))
    ensures Words(token + rest) == [token] + Words(rest)
  {
    LeadingToken(token, rest);
    assert token[0] in token;
    assert (token + rest)[|token|..] == rest;
  }

  lemma {:induction false} WordsOfJoin(tokens: seq<string>)
    requires tokens != [] && forall t :: t in tokens ==> IsToken(t)
    ensures Words(Join(tokens, " ")) == tokens
  {
    assert tokens[0] in tokens;
    if |tokens| == 1 {
      TokenThenRest(tokens[0], "");
      assert tokens[0] + "" == tokens[0];
    } else {
      WordsOfJoin(tokens[1..]);
      TokenThenSpaced(tokens[0], Join(tokens[1..], " "));
      assert tokens == [tokens[0]] + tokens[1..];
    }
  }

  lemma TokenThenSpaced(token: string, text: string)
    requires IsToken(token)
    ensures Words(token + " " + text) == [token] + Words(text)
  {
    TokenThenRest(token, " " + text);
    assert (" " + text)[1..] == text;
    assert token + (" " + text) == token + " " + text;
  }

  lemma {:induction false} JoinIsFree(tokens: seq<string>)
    requires forall t :: t in tokens ==> IsToken(t)
    ensures ';' !in Join(tokens, " ")
  {
    if tokens == [] {
    } else {
      assert tokens[0] in tokens;
      JoinIsFree(tokens[1..]);
    }
  }

  /** Joining with "; " and splitting on ';' leaves each piece, all but the first behind a space. */
  function Indented(pieces: seq<string>): seq<string> {
    if pieces == [] then [] else [" " + pieces[0]] + Indented(pieces[1..])
  }

  lemma {:induction false} SplitSerialized(pieces: seq<string>)
    requires pieces != [] && forall p :: p in pieces ==> ';' !in p
    ensures Split(Join(pieces, "; "), ';') == [pieces[0]] + Indented(pieces[1..])
  {
    assert pieces[0] in pieces;
    if |pieces| == 1 {
      SplitFree(pieces[0], ';');
    } else {
      var rest := pieces[1..];
      SplitSerialized(rest);
      var tail := Join(rest, "; ");
      assert Join(pieces, "; ") == pieces[0] + [';'] + (" " + tail);
      SplitFirst(pieces[0], " " + tail, ';');
      assert (" " + tail)[1..] == tail;
      assert Split(" " + tail, ';') == [" " + rest[0]] + Indented(rest[1..]);
    }
  }

  lemma {:induction false} ParseAppend(a: seq<string>, piece: string, soFar: map<string, seq<string>>)
    ensures ParsePieces(a + [piece], soFar) == ParsePieces([piece], ParsePieces(a, soFar))
    decreases |a|
  {
    if a == [] {
      assert a + [piece] == [piece];
    } else {
      assert (a + [piece])[1..] == a[1..] + [piece];
      var words := Words(a[0]);
      ParseAppend(a[1..], piece, if words == [] || Lower(words[0]) in soFar then soFar else soFar[Lower(words[0]) := words[1..]]);
    }
  }

  predicate DistinctNames(items: seq<Directive>) {
    forall i, j :: 0 <= i < j < |items| ==> items[i].name != items[j].name
  }

  lemma {:induction false} MeaningNames(items: seq<Directive>, name: string)
    ensures name in Meaning(items) <==> exists i :: 0 <= i < |items| && items[i].name == name
  {
    if items == [] {
    } else {
      var init := items[..|items| - 1];
      MeaningNames(init, name);
      if name in Meaning(init) {
        var i :| 0 <= i < |init| && init[i].name == name;
        assert items[i].name == name;
      }
    }
  }

  /** One directive's text, with or without the space the join leaves before it. */
  lemma ParseOne(d: Directive, piece: string, soFar: map<string, seq<string>>)
    requires WellFormed(d) && d.name !in soFar && (piece == Written(d) || piece == " " + Written(d))
    ensures ParsePieces([piece], soFar) == soFar[d.name := Present(d.sources)]
  {
    var tokens := [d.name] + Present(d.sources);
    WordsOfJoin(tokens);
    assert (" " + Written(d))[1..] == Written(d);
    assert Words(piece) == tokens;
    LowerIsIdentity(d.name);
    assert tokens[1..] == Present(d.sources);
    assert [piece][1..] == [];
  }

  /** The pieces the header splits into. */
  function Pieces(items: seq<Directive>): seq<string> {
    var written := WrittenAll(items);
    if written == [] then [] else [written[0]] + Indented(written[1..])
  }

  lemma {:induction false} WrittenAllSnoc(items: seq<Directive>, d: Directive)
    ensures WrittenAll(items + [d]) == WrittenAll(items) + [Written(d)]
  {
    if items == [] {
      assert items + [d] == [d];
    } else {
      WrittenAllSnoc(items[1..], d);
      assert (items + [d])[1..] == items[1..] + [d];
    }
  }

  lemma {:induction false} IndentedSnoc(pieces: seq<string>, piece: string)
    ensures Indented(pieces + [piece]) == Indented(pieces) + [" " + piece]
  {
    if pieces == [] {
      assert pieces + [piece] == [piece];
    } else {
      IndentedSnoc(pieces[1..], piece);
      assert (pieces + [piece])[1..] == pieces[1..] + [piece];
    }
  }

  lemma PiecesSnoc(items: seq<Directive>, d: Directive)
    ensures Pieces(items + [d]) == Pieces(items) + [if items == [] then Written(d) else " " + Written(d)]
  {
    WrittenAllSnoc(items, d);
    var written := WrittenAll(items);
    if items != [] {
      assert (written + [Written(d)])[1..] == written[1..] + [Written(d)];
      IndentedSnoc(written[1..], Written(d));
    }
  }

  lemma {:induction false} ParsesToMeaning(items: seq<Directive>)
    requires DistinctNames(items) && forall d :: d in items ==> WellFormed(d)
    ensures ParsePieces(Pieces(items), map[]) == Meaning(items)
  {
    if items == [] {
    } else {
      var init, last := items[..|items| - 1], items[|items| - 1];
      assert items == init + [last];
      assert last in items && forall d :: d in init ==> d in items;
      ParsesToMeaning(init);
      NameIsNew(init, last);
      ParsesOneMore(init, last);
    }
  }

  lemma NameIsNew(init: seq<Directive>, last: Directive)
    requires DistinctNames(init + [last])
    ensures last.name !in Meaning(init)
  {
    MeaningNames(init, last.name);
    assert (init + [last])[|init|] == last && forall i :: 0 <= i < |init| ==> (init + [last])[i] == init[i];
  }

  lemma ParsesOneMore(init: seq<Directive>, last: Directive)
    requires WellFormed(last) && last.name !in Meaning(init) && ParsePieces(Pieces(init), map[]) == Meaning(init)
    ensures ParsePieces(Pieces(init + [last]), map[]) == Meaning(init + [last])
  {
    var piece := if init == [] then Written(last) else " " + Written(last);
    PiecesSnoc(init, last);
    ParseAppend(Pieces(init), piece, map[]);
    ParseOne(last, piece, Meaning(init));
    assert (init + [last])[..|init|] == init;
  }

  lemma {:induction false} WrittenIsFree(items: seq<Directive>)
    requires forall d :: d in items ==> WellFormed(d)
    ensures forall p :: p in WrittenAll(items) ==> ';' !in p
  {
    if items == [] {
    } else {
      assert items[0] in items;
      JoinIsFree([items[0].name] + Present(items[0].sources));
      WrittenIsFree(items[1..]);
    }
  }

  /** Parsing gives every directive back, holes aside, in whichever order they were written. */
  lemma DirectivesParseBack(items: seq<Directive>)
    requires DistinctNames(items) && forall d :: d in items ==> WellFormed(d)
    ensures Parse(Serialize(items)) == Meaning(items)
  {
    ParsesToMeaning(items);
    if items == [] {
      assert Words("") == [] && [""][1..] == [];
    } else {
      WrittenIsFree(items);
      SplitSerialized(WrittenAll(items));
    }
  }

  /** The directives of a policy, each once; `_serialize` takes the listing that is sorted by name. */
  predicate IsListing(items: seq<Directive>, p: Policy) {
    && DistinctNames(items)
    && (forall d :: d in items ==> d.name in p && d.sources == p[d.name])
    && (forall k :: k in p ==> Directive(k, p[k]) in items)
  }

  /** Names are lowercase tokens, and the sources that are there are tokens. */
  predicate WellFormedPolicy(p: Policy) {
    forall k :: k in p ==> WellFormed(Directive(k, p[k]))
  }

  lemma {:induction false} MeaningSources(items: seq<Directive>, d: Directive)
    requires DistinctNames(items) && d in items
    ensures d.name in Meaning(items) && Meaning(items)[d.name] == Present(d.sources)
  {
    var init, last := items[..|items| - 1], items[|items| - 1];
    assert items == init + [last];
    if d != last {
      MeaningSources(init, d);
      var i :| 0 <= i < |init| && init[i] == d;
      assert items[i].name != items[|items| - 1].name;
    }
  }

  /**
   * A browser parsing the header gets the policy back, minus the holes: every directive, no other, each
   * with its sources in order, whichever order the directives were written in.
   */
  lemma SerializedPolicyParsesBack(p: Policy, items: seq<Directive>)
    requires WellFormedPolicy(p) && IsListing(items, p)
    ensures Parse(Serialize(items)) == map k | k in p :: Present(p[k])
  {
    forall d | d in items
      ensures WellFormed(d)
    {
      assert d == Directive(d.name, p[d.name]);
    }
    DirectivesParseBack(items);
    var meaning := Meaning(items);
    forall k
      ensures k in meaning <==> k in p
      ensures k in p ==> meaning[k] == Present(p[k])
    {
      MeaningNames(items, k);
      if k in p {
        MeaningSources(items, Directive(k, p[k]));
      }
    }
  }

  /** Every policy can be listed. */
  lemma {:induction false} ListingExists(p: Policy) returns (items: seq<Directive>)
    ensures IsListing(items, p)
    decreases |p|
  {
    if p == map[] {
      items := [];
    } else {
      var k :| k in p;
      var rest := ListingExists(p - {k});
      items := [Directive(k, p[k])] + rest;
      ListOneMore(p, k, rest);
    }
  }

  lemma ListOneMore(p: Policy, k: string, rest: seq<Directive>)
    requires k in p && IsListing(rest, p - {k})
    ensures IsListing([Directive(k, p[k])] + rest, p)
  {
    var items := [Directive(k, p[k])] + rest;
    assert forall i :: 0 <= i < |rest| ==> rest[i] in rest && rest[i].name != k;
    assert forall d :: d in items <==> d == Directive(k, p[k]) || d in rest;
    assert forall other :: other in p && other != k ==> Directive(other, (p - {k})[other]) in rest;
  }
}
