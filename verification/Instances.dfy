/** The instances a field table describes, how each is spelled as a sequence of states, and the proof
    that the final state graph spells exactly those. */
module Instances {
  import opened Schema
  import opened Traversal
  import opened Concretize
  import opened LinearGraph
  import opened Language

  /** An instance of a field: one entry per repetition, each holding the instances of the children.
      A leaf has no entry, a record exactly one, a list as many as it has elements. */
  datatype Value = Value(rounds: seq<seq<Value>>)

  ghost predicate ValidRounds(fs: seq<Field>, f: nat, k: int, rs: seq<seq<Value>>)
    requires f < |fs|
    decreases |fs| - f, 0, |rs|
  {
    && fs[f].MinReps() <= k + |rs| <= fs[f].Reps()
    && (rs != [] ==> ValidRound(fs, f, rs[0]) && ValidRounds(fs, f, k + 1, rs[1..]))
  }

  ghost predicate ValidRound(fs: seq<Field>, f: nat, r: seq<Value>)
    requires f < |fs|
    decreases |fs| - f - 1, 2
  {
    if HasChild(fs, f) then ValidSiblings(fs, f + 1, r) else r == []
  }

  /** Instances of f and of all its later siblings. */
  ghost predicate ValidSiblings(fs: seq<Field>, f: nat, vs: seq<Value>)
    requires f < |fs|
    decreases |fs| - f, 1
  {
    && vs != [] && ValidRounds(fs, f, 0, vs[0].rounds)
    && (if HasSibling(fs, f) then ValidSiblings(fs, End(fs, f), vs[1..]) else |vs| == 1)
  }

  /** The states an instance goes through from its k-th repetition on. A list leaves nothing behind,
      a leaf and a record are visited once more at the end. */
  ghost function SpellRounds(fs: seq<Field>, f: nat, p: seq<int>, k: int, rs: seq<seq<Value>>): seq<Tag>
    requires f < |fs|
    decreases |fs| - f, 0, |rs|
  {
    if rs == [] then (if fs[f].IsList() then [] else [Tag(f, p + [k])])
    else [Tag(f, p + [k])] + (SpellRound(fs, f, p + [k], rs[0]) + SpellRounds(fs, f, p, k + 1, rs[1..]))
  }

  ghost function SpellRound(fs: seq<Field>, f: nat, q: seq<int>, r: seq<Value>): seq<Tag>
    requires f < |fs|
    decreases |fs| - f - 1, 2
  {
    if HasChild(fs, f) then SpellSiblings(fs, f + 1, q, r) else []
  }

  ghost function SpellSiblings(fs: seq<Field>, f: nat, q: seq<int>, vs: seq<Value>): seq<Tag>
    requires f < |fs|
    decreases |fs| - f, 1
  {
    if vs == [] then []
    else SpellRounds(fs, f, q, 0, vs[0].rounds) +
         (if HasSibling(fs, f) then SpellSiblings(fs, End(fs, f), q, vs[1..]) else [])
  }

  ghost predicate ValidInstance(fs: seq<Field>, vs: seq<Value>) {
    if |fs| == 0 then vs == [] else ValidSiblings(fs, 0, vs)
  }

  ghost function Spell(fs: seq<Field>, vs: seq<Value>): seq<Tag> {
    [ROOT] + (if |fs| == 0 then [] else SpellSiblings(fs, 0, [], vs))
  }

  // ---- Blocks of the longest run ---------------------------------------------------------------

  /** b stands in the longest run at position a. */
  ghost predicate BlockAt(fs: seq<Field>, a: nat, b: seq<Tag>) {
    a + |b| <= |Traverse(fs)| && Traverse(fs)[a..a+|b|] == b
  }

  lemma BlockSplit(fs: seq<Field>, a: nat, b: seq<Tag>, c: seq<Tag>)
    requires BlockAt(fs, a, b + c)
    ensures BlockAt(fs, a, b) && BlockAt(fs, a + |b|, c)
  {
    hide Traverse;
    var s := Traverse(fs);
    assert s[a..a+|b|] == s[a..a+|b+c|][..|b|];
    assert s[a+|b|..a+|b|+|c|] == s[a..a+|b+c|][|b|..];
  }

  lemma BlockHead(fs: seq<Field>, a: nat, b: seq<Tag>)
    requires BlockAt(fs, a, b) && |b| > 0
    ensures a < |Traverse(fs)| && Traverse(fs)[a] == b[0]
  {
    hide Traverse;
  }

  /** Where the block of a visit ends, the run stands at the exit of the field. */
  lemma BlockExit(fs: seq<Field>, f: nat, p: seq<int>, k: int, a: nat)
    requires WellFormed(fs) && f < |fs| && |p| == fs[f].depth - 1 && 0 <= k <= fs[f].Reps()
    requires BlockAt(fs, a, Visit(fs, f, p, k))
    ensures ExitTo(fs, f, p) == At(Traverse(fs), ROOT, a + |Visit(fs, f, p, k)|)
  {
    var s := Traverse(fs);
    var b := Visit(fs, f, p, k);
    TraverseForward(fs);
    VisitForward(fs, f, p, k);
    hide Traverse, Visit, ExitTo, Next, TagOf;
    assert StepsOn(fs, s, ROOT, a + |b| - 1);
    assert StepsOn(fs, b, ExitTo(fs, f, p), |b| - 1);
    assert b[|b|-1] == s[a..a+|b|][|b|-1] == s[a + |b| - 1];
  }

  /** The raw graph of fs, the only one there is. */
  ghost function Raw(fs: seq<Field>): (g: Graph)
    requires WellFormed(fs)
    ensures Linear(fs, g, Traverse(fs))
  {
    RawExists(fs);
    map t | t in Traverse(fs) :: (TraverseIndexOk(fs); RawState(fs, t))
  }

  lemma RawExists(fs: seq<Field>)
    requires WellFormed(fs)
    ensures AllOk(fs, Traverse(fs))
    ensures var g := map t | t in Traverse(fs) :: RawState(fs, t);
      RawGraph(fs, g) && Linear(fs, g, Traverse(fs))
  {
    TraverseIndexOk(fs);
    var g := map t | t in Traverse(fs) :: RawState(fs, t);
    forall t | t in g ensures CompleteIn(fs, g, t) { EdgesStay(fs, t); }
    RawIsLinear(fs, g);
  }

  lemma RawIs(fs: seq<Field>)
    requires WellFormed(fs)
    ensures RawGraph(fs, Raw(fs))
  {
    RawExists(fs);
  }

  lemma RawUnique(fs: seq<Field>, g: Graph)
    requires WellFormed(fs) && RawGraph(fs, g)
    ensures g == Raw(fs)
  {
    RawIs(fs);
    hide Traverse, RawState, FlowTarget, ExitTarget, Raw, Linear;
    assert g.Keys == Raw(fs).Keys;
    forall t | t in g ensures g[t] == Raw(fs)[t] {
      assert CompleteIn(fs, g, t) && CompleteIn(fs, Raw(fs), t);
    }
  }

  /** The raw state of the k-th visit to f below p. */
  lemma VisitState(fs: seq<Field>, f: nat, p: seq<int>, k: int, t: Tag)
    requires WellFormed(fs) && f < |fs| && |p| == fs[f].depth - 1 && 0 <= k <= fs[f].Reps()
    requires t == Tag(f, p + [k]) && t in Traverse(fs)
    ensures t in Raw(fs) && Raw(fs)[t].field == f
    ensures IsTail(fs, Raw(fs)[t]) <==> fs[f].IsList() && k == fs[f].Reps()
    ensures Raw(fs)[t].flows != [] <==> k < fs[f].Reps()
    ensures Raw(fs)[t].exits == if k < fs[f].MinReps() then [] else [ExitTo(fs, f, p)]
    ensures ExitTo(fs, f, p) == ROOT && k >= fs[f].MinReps() ==> !fs[f].IsList()
    ensures !fs[f].IsList() ==> fs[f].MinReps() == fs[f].Reps()
  {
    RawIs(fs);
    assert CompleteIn(fs, Raw(fs), t);
    VisitEdges(fs, f, p, k);
    EdgeCases(fs, t);
    hide Traverse, ExitTo, FlowTarget, ExitTarget, Linear, Raw, RawGraph, HasChild, HasSibling;
    assert Prefix(t) == p;
  }

  /** What the run can do at the k-th visit to f below p. */
  lemma VisitChoices(fs: seq<Field>, f: nat, p: seq<int>, k: int, a: nat)
    requires WellFormed(fs) && f < |fs| && |p| == fs[f].depth - 1 && 0 <= k <= fs[f].Reps()
    requires BlockAt(fs, a, Visit(fs, f, p, k))
    ensures var g := Raw(fs); var s := Traverse(fs); var e := a + |Visit(fs, f, p, k)|;
      && a < e <= |s| && s[a] == Tag(f, p + [k])
      && (TailAt(fs, g, s, a) <==> fs[f].IsList() && k == fs[f].Reps())
      && (SkipsAt(fs, g, s, a) <==> fs[f].IsList() && k >= fs[f].MinReps())
      && (SkipsAt(fs, g, s, a) ==> ExitPos(fs, g, s, a) == e)
  {
    hide Traverse, Visit, ExitTo, Linear, NoDup, Raw, IsTail, LinearAt, WellFormed;
    var g, s := Raw(fs), Traverse(fs);
    VisitUnfold(fs, f, p, k);
    BlockHead(fs, a, Visit(fs, f, p, k));
    BlockExit(fs, f, p, k, a);
    SeqNoDup(fs, g, s);
    VisitState(fs, f, p, k, s[a]);
    if SkipsAt(fs, g, s, a) {
      var e := a + |Visit(fs, f, p, k)|;
      PosUnique(s, ExitPos(fs, g, s, a));
      if e < |s| { PosUnique(s, e); }
    }
  }

  ghost predicate AccAt(fs: seq<Field>, i: nat, w: seq<Tag>)
    requires WellFormed(fs) && i <= |Traverse(fs)|
  {
    Acc(fs, Raw(fs), Traverse(fs), i, w)
  }

  /** Acceptance at the k-th visit, in terms of the field table. */
  lemma AccVisit(fs: seq<Field>, f: nat, p: seq<int>, k: int, a: nat, w: seq<Tag>)
    requires WellFormed(fs) && f < |fs| && |p| == fs[f].depth - 1 && 0 <= k <= fs[f].Reps()
    requires BlockAt(fs, a, Visit(fs, f, p, k))
    ensures a + 1 <= a + |Visit(fs, f, p, k)| <= |Traverse(fs)|
    ensures AccAt(fs, a, w) <==>
      || (!(fs[f].IsList() && k == fs[f].Reps()) && |w| > 0 && w[0] == Tag(f, p + [k]) && AccAt(fs, a + 1, w[1..]))
      || (fs[f].IsList() && k >= fs[f].MinReps() && AccAt(fs, a + |Visit(fs, f, p, k)|, w))
  {
    hide Traverse, Raw, Visit, TailAt, SkipsAt, Linear, ExitPos, Acc, BlockAt, WellFormed;
    VisitChoices(fs, f, p, k, a);
    AccUnfold(fs, Raw(fs), Traverse(fs), a, w);
    var g, s, e := Raw(fs), Traverse(fs), a + |Visit(fs, f, p, k)|;
    if SkipsAt(fs, g, s, a) {
      assert Acc(fs, g, s, ExitPos(fs, g, s, a), w) == Acc(fs, g, s, e, w);
    }
  }

  // ---- From accepted words to instances and back -------------------------------------------------

  lemma VisitBlocks(fs: seq<Field>, f: nat, p: seq<int>, k: int, a: nat)
    requires f < |fs| && k < fs[f].Reps() && BlockAt(fs, a, Visit(fs, f, p, k))
    ensures BlockAt(fs, a + 1, Body(fs, f, p + [k]))
    ensures BlockAt(fs, a + 1 + |Body(fs, f, p + [k])|, Visit(fs, f, p, k + 1))
    ensures |Visit(fs, f, p, k)| == 1 + |Body(fs, f, p + [k])| + |Visit(fs, f, p, k + 1)|
  {
    hide Traverse, Body;
    var h, b, r := [Tag(f, p + [k])], Body(fs, f, p + [k]), Visit(fs, f, p, k + 1);
    assert Visit(fs, f, p, k) == h + (b + r);
    BlockSplit(fs, a, h, b + r);
    BlockSplit(fs, a + 1, b, r);
  }

  lemma SiblingBlocks(fs: seq<Field>, f: nat, q: seq<int>, a: nat)
    requires f < |fs| && BlockAt(fs, a, Siblings(fs, f, q))
    ensures BlockAt(fs, a, Visit(fs, f, q, 0))
    ensures HasSibling(fs, f) ==>
      && BlockAt(fs, a + |Visit(fs, f, q, 0)|, Siblings(fs, End(fs, f), q))
      && |Siblings(fs, f, q)| == |Visit(fs, f, q, 0)| + |Siblings(fs, End(fs, f), q)|
    ensures !HasSibling(fs, f) ==> |Siblings(fs, f, q)| == |Visit(fs, f, q, 0)|
  {
    hide Traverse, Visit, BlockAt;
    var v := Visit(fs, f, q, 0);
    var r := if HasSibling(fs, f) then Siblings(fs, End(fs, f), q) else [];
    assert Siblings(fs, f, q) == v + r;
    BlockSplit(fs, a, v, r);
  }

  lemma {:induction false} ParseRounds(fs: seq<Field>, f: nat, p: seq<int>, k: int, a: nat, w: seq<Tag>)
    returns (rs: seq<seq<Value>>, rest: seq<Tag>)
    requires WellFormed(fs) && f < |fs| && |p| == fs[f].depth - 1 && 0 <= k <= fs[f].Reps()
    requires BlockAt(fs, a, Visit(fs, f, p, k)) && AccAt(fs, a, w)
    ensures ValidRounds(fs, f, k, rs) && w == SpellRounds(fs, f, p, k, rs) + rest
    ensures AccAt(fs, a + |Visit(fs, f, p, k)|, rest)
    decreases |fs| - f, 0, fs[f].Reps() - k
  {
    hide Traverse, Raw, AccAt, BlockAt, SpellSiblings, ValidSiblings, Siblings, HasSibling, End;
    AccVisit(fs, f, p, k, a, w);
    assert FieldOk(fs, f);
    if fs[f].IsList() && k >= fs[f].MinReps() && AccAt(fs, a + |Visit(fs, f, p, k)|, w) {
      rs, rest := [], w;
    } else if k == fs[f].Reps() {
      rs, rest := [], w[1..];
      VisitUnfold(fs, f, p, k);
      assert w == [w[0]] + rest;
    } else {
      VisitBlocks(fs, f, p, k, a);
      var r, rest1 := ParseBody(fs, f, p + [k], a + 1, w[1..]);
      var rs2;
      rs2, rest := ParseRounds(fs, f, p, k + 1, a + 1 + |Body(fs, f, p + [k])|, rest1);
      rs := [r] + rs2;
      SpellCons(fs, f, p, k, r, rs2);
      assert w == [w[0]] + w[1..];
    }
  }

  lemma SpellCons(fs: seq<Field>, f: nat, p: seq<int>, k: int, r: seq<Value>, rs: seq<seq<Value>>)
    requires f < |fs|
    ensures SpellRounds(fs, f, p, k, [r] + rs) ==
      [Tag(f, p + [k])] + (SpellRound(fs, f, p + [k], r) + SpellRounds(fs, f, p, k + 1, rs))
    ensures fs[f].MinReps() <= k + 1 + |rs| <= fs[f].Reps() && ValidRound(fs, f, r) && ValidRounds(fs, f, k + 1, rs)
      ==> ValidRounds(fs, f, k, [r] + rs)
  {
    assert ([r] + rs)[1..] == rs;
  }

  lemma {:induction false} ParseBody(fs: seq<Field>, f: nat, q: seq<int>, a: nat, w: seq<Tag>)
    returns (r: seq<Value>, rest: seq<Tag>)
    requires WellFormed(fs) && f < |fs| && |q| == fs[f].depth
    requires BlockAt(fs, a, Body(fs, f, q)) && AccAt(fs, a, w)
    ensures ValidRound(fs, f, r) && w == SpellRound(fs, f, q, r) + rest
    ensures AccAt(fs, a + |Body(fs, f, q)|, rest)
    decreases |fs| - f - 1, 2
  {
    hide Traverse, Raw, AccAt, BlockAt;
    if HasChild(fs, f) {
      assert NoJump(fs, f + 1);
      r, rest := ParseSiblings(fs, f + 1, q, a, w);
    } else {
      r, rest := [], w;
    }
  }

  lemma {:induction false} ParseSiblings(fs: seq<Field>, f: nat, q: seq<int>, a: nat, w: seq<Tag>)
    returns (vs: seq<Value>, rest: seq<Tag>)
    requires WellFormed(fs) && f < |fs| && |q| == fs[f].depth - 1
    requires BlockAt(fs, a, Siblings(fs, f, q)) && AccAt(fs, a, w)
    ensures ValidSiblings(fs, f, vs) && w == SpellSiblings(fs, f, q, vs) + rest
    ensures AccAt(fs, a + |Siblings(fs, f, q)|, rest)
    decreases |fs| - f, 1
  {
    hide Traverse, Raw, AccAt, BlockAt;
    SiblingBlocks(fs, f, q, a);
    assert FieldOk(fs, f);
    var rs, rest1 := ParseRounds(fs, f, q, 0, a, w);
    if HasSibling(fs, f) {
      var vs2;
      vs2, rest := ParseSiblings(fs, End(fs, f), q, a + |Visit(fs, f, q, 0)|, rest1);
      vs := [Value(rs)] + vs2;
      assert vs[1..] == vs2;
    } else {
      vs, rest := [Value(rs)], rest1;
    }
  }

  lemma {:induction false} AcceptRounds(fs: seq<Field>, f: nat, p: seq<int>, k: int, a: nat, rs: seq<seq<Value>>, rest: seq<Tag>)
    requires WellFormed(fs) && f < |fs| && |p| == fs[f].depth - 1 && 0 <= k <= fs[f].Reps()
    requires BlockAt(fs, a, Visit(fs, f, p, k)) && ValidRounds(fs, f, k, rs)
    requires AccAt(fs, a + |Visit(fs, f, p, k)|, rest)
    ensures AccAt(fs, a, SpellRounds(fs, f, p, k, rs) + rest)
    decreases |fs| - f, 0, |rs|
  {
    hide Traverse, Raw, AccAt, BlockAt, SpellSiblings, ValidSiblings, Siblings, HasSibling, End, Body, Visit;
    var w := SpellRounds(fs, f, p, k, rs) + rest;
    AccVisit(fs, f, p, k, a, w);
    assert FieldOk(fs, f);
    if rs == [] {
      VisitUnfold(fs, f, p, k);
      if fs[f].IsList() {
        assert w == rest;
      } else {
        assert w[1..] == rest;
      }
    } else {
      VisitBlocks(fs, f, p, k, a);
      var w2 := SpellRounds(fs, f, p, k + 1, rs[1..]) + rest;
      AcceptRounds(fs, f, p, k + 1, a + 1 + |Body(fs, f, p + [k])|, rs[1..], rest);
      AcceptBody(fs, f, p + [k], a + 1, rs[0], w2);
      assert rs == [rs[0]] + rs[1..];
      SpellCons(fs, f, p, k, rs[0], rs[1..]);
      assert w[1..] == SpellRound(fs, f, p + [k], rs[0]) + w2;
    }
  }

  lemma {:induction false} AcceptBody(fs: seq<Field>, f: nat, q: seq<int>, a: nat, r: seq<Value>, rest: seq<Tag>)
    requires WellFormed(fs) && f < |fs| && |q| == fs[f].depth
    requires BlockAt(fs, a, Body(fs, f, q)) && ValidRound(fs, f, r) && AccAt(fs, a + |Body(fs, f, q)|, rest)
    ensures AccAt(fs, a, SpellRound(fs, f, q, r) + rest)
    decreases |fs| - f - 1, 2
  {
    hide Traverse, Raw, AccAt, BlockAt;
    if HasChild(fs, f) {
      assert NoJump(fs, f + 1);
      AcceptSiblings(fs, f + 1, q, a, r, rest);
    } else {
      assert [] + rest == rest;
    }
  }

  lemma {:induction false} AcceptSiblings(fs: seq<Field>, f: nat, q: seq<int>, a: nat, vs: seq<Value>, rest: seq<Tag>)
    requires WellFormed(fs) && f < |fs| && |q| == fs[f].depth - 1
    requires BlockAt(fs, a, Siblings(fs, f, q)) && ValidSiblings(fs, f, vs) && AccAt(fs, a + |Siblings(fs, f, q)|, rest)
    ensures AccAt(fs, a, SpellSiblings(fs, f, q, vs) + rest)
    decreases |fs| - f, 1
  {
    hide Traverse, Raw, AccAt, BlockAt, SpellRounds, ValidRounds;
    SiblingBlocks(fs, f, q, a);
    assert FieldOk(fs, f);
    var tail := if HasSibling(fs, f) then SpellSiblings(fs, End(fs, f), q, vs[1..]) else [];
    if HasSibling(fs, f) {
      AcceptSiblings(fs, End(fs, f), q, a + |Visit(fs, f, q, 0)|, vs[1..], rest);
    } else {
      assert tail + rest == rest;
    }
    AcceptRounds(fs, f, q, 0, a, vs[0].rounds, tail + rest);
    assert SpellRounds(fs, f, q, 0, vs[0].rounds) + (tail + rest) == SpellSiblings(fs, f, q, vs) + rest;
  }

  /** Words accepted from the start are exactly the spellings of the instances. */
  lemma AcceptedAreInstances(fs: seq<Field>, w: seq<Tag>)
    requires WellFormed(fs)
    ensures AccAt(fs, 0, w) <==> exists vs :: ValidInstance(fs, vs) && w == Spell(fs, vs)
  {
    if AccAt(fs, 0, w) {
      var vs := ParseInstance(fs, w);
    }
    if vs :| ValidInstance(fs, vs) && w == Spell(fs, vs) {
      AcceptInstance(fs, vs);
    }
  }

  /** At the root nothing can be passed over. */
  lemma AccRoot(fs: seq<Field>, w: seq<Tag>)
    requires WellFormed(fs)
    ensures 1 <= |Traverse(fs)|
    ensures AccAt(fs, 0, w) <==> |w| > 0 && w[0] == ROOT && AccAt(fs, 1, w[1..])
  {
    AccUnfold(fs, Raw(fs), Traverse(fs), 0, w);
    assert LinearAt(fs, Raw(fs), Traverse(fs), 0);
    hide Raw, Traverse, Acc, Linear;
  }

  lemma RootBlock(fs: seq<Field>)
    requires |fs| > 0
    ensures BlockAt(fs, 1, Siblings(fs, 0, [])) && |Traverse(fs)| == 1 + |Siblings(fs, 0, [])|
  {
  }

  lemma RootAlone(fs: seq<Field>)
    requires |fs| == 0
    ensures |Traverse(fs)| == 1
  {
  }

  lemma AccEnd(fs: seq<Field>, w: seq<Tag>)
    requires WellFormed(fs)
    ensures AccAt(fs, |Traverse(fs)|, w) <==> w == []
  {
    hide Raw, Traverse, Linear;
  }

  lemma ParseInstance(fs: seq<Field>, w: seq<Tag>) returns (vs: seq<Value>)
    requires WellFormed(fs) && AccAt(fs, 0, w)
    ensures ValidInstance(fs, vs) && w == Spell(fs, vs)
  {
    hide AccAt, BlockAt, Traverse, Raw, SpellSiblings, ValidSiblings, Siblings, Parent;
    AccRoot(fs, w);
    if |fs| == 0 {
      RootAlone(fs);
      AccEnd(fs, w[1..]);
      vs := [];
      assert w == [w[0]] + w[1..];
    } else {
      RootBlock(fs);
      ParentDepth(fs, 0);
      var rest;
      vs, rest := ParseSiblings(fs, 0, [], 1, w[1..]);
      AccEnd(fs, rest);
      assert w == [w[0]] + w[1..];
      assert w[1..] == SpellSiblings(fs, 0, [], vs) + [];
    }
  }

  lemma AcceptInstance(fs: seq<Field>, vs: seq<Value>)
    requires WellFormed(fs) && ValidInstance(fs, vs)
    ensures AccAt(fs, 0, Spell(fs, vs))
  {
    hide AccAt, BlockAt, Traverse, Raw, SpellSiblings, ValidSiblings, Siblings, Parent;
    var w := Spell(fs, vs);
    AccRoot(fs, w);
    AccEnd(fs, []);
    if |fs| == 0 {
      RootAlone(fs);
      assert w[1..] == [];
    } else {
      RootBlock(fs);
      ParentDepth(fs, 0);
      AcceptSiblings(fs, 0, [], 1, vs, []);
      assert w[1..] == SpellSiblings(fs, 0, [], vs) + [];
    }
  }

  /** The main theorem of the state graph: from the root, the final graph walks through exactly the
      spellings of the instances of the field table, so a list contributes between lo and hi
      elements, and every such number of elements is possible. */
  lemma PathsAreInstances(fs: seq<Field>, final: Graph, w: seq<Tag>)
    requires WellFormed(fs) && Cleaned(fs, Raw(fs), Traverse(fs), final)
    ensures RootPath(final, w) <==> exists vs :: ValidInstance(fs, vs) && w == Spell(fs, vs)
  {
    hide Raw, Traverse, Cleaned, Acc, Path, ValidInstance, Spell;
    PathWord(fs, Raw(fs), Traverse(fs), final, w);
    AcceptedAreInstances(fs, w);
  }

  // ---- Every choice of counts is possible --------------------------------------------------------

  /** A choice, for every field f and every place p it can stand at, of how often f is repeated there. */
  type Counts = (nat, seq<int>) -> nat

  ghost predicate Allowed(fs: seq<Field>, c: Counts) {
    forall f: nat, p: seq<int> :: f < |fs| ==> fs[f].MinReps() <= c(f, p) <= fs[f].Reps()
  }

  /** From the k-th repetition on, rs repeats every field exactly as often as c says. */
  ghost predicate CountRounds(fs: seq<Field>, c: Counts, f: nat, p: seq<int>, k: int, rs: seq<seq<Value>>)
    requires f < |fs|
    decreases |fs| - f, 0, |rs|
  {
    && k + |rs| == c(f, p)
    && (rs != [] ==> CountRound(fs, c, f, p + [k], rs[0]) && CountRounds(fs, c, f, p, k + 1, rs[1..]))
  }

  ghost predicate CountRound(fs: seq<Field>, c: Counts, f: nat, q: seq<int>, r: seq<Value>)
    requires f < |fs|
    decreases |fs| - f - 1, 2
  {
    HasChild(fs, f) ==> CountSiblings(fs, c, f + 1, q, r)
  }

  ghost predicate CountSiblings(fs: seq<Field>, c: Counts, f: nat, q: seq<int>, vs: seq<Value>)
    requires f < |fs|
    decreases |fs| - f, 1
  {
    && vs != [] && CountRounds(fs, c, f, q, 0, vs[0].rounds)
    && (HasSibling(fs, f) ==> CountSiblings(fs, c, End(fs, f), q, vs[1..]))
  }

  lemma {:induction false} CountedRounds(fs: seq<Field>, c: Counts, f: nat, p: seq<int>, k: int) returns (rs: seq<seq<Value>>)
    requires Allowed(fs, c) && f < |fs| && 0 <= k <= c(f, p)
    ensures ValidRounds(fs, f, k, rs) && CountRounds(fs, c, f, p, k, rs)
    decreases |fs| - f, 0, c(f, p) - k
  {
    hide ValidSiblings, CountSiblings, HasSibling, End;
    if k == c(f, p) {
      rs := [];
    } else {
      var r := CountedRound(fs, c, f, p + [k]);
      var rest := CountedRounds(fs, c, f, p, k + 1);
      rs := [r] + rest;
      assert rs[1..] == rest;
    }
  }

  lemma {:induction false} CountedRound(fs: seq<Field>, c: Counts, f: nat, q: seq<int>) returns (r: seq<Value>)
    requires Allowed(fs, c) && f < |fs|
    ensures ValidRound(fs, f, r) && CountRound(fs, c, f, q, r)
    decreases |fs| - f - 1, 2
  {
    hide ValidSiblings, CountSiblings;
    r := [];
    if HasChild(fs, f) { r := CountedSiblings(fs, c, f + 1, q); }
  }

  lemma {:induction false} CountedSiblings(fs: seq<Field>, c: Counts, f: nat, q: seq<int>) returns (vs: seq<Value>)
    requires Allowed(fs, c) && f < |fs|
    ensures ValidSiblings(fs, f, vs) && CountSiblings(fs, c, f, q, vs)
    decreases |fs| - f, 1
  {
    hide ValidRounds, CountRounds;
    assert fs[f].MinReps() <= c(f, q);
    var rs := CountedRounds(fs, c, f, q, 0);
    vs := [Value(rs)];
    if HasSibling(fs, f) {
      var rest := CountedSiblings(fs, c, End(fs, f), q);
      vs := [Value(rs)] + rest;
      assert vs[1..] == rest;
    }
  }

  ghost predicate CountInstance(fs: seq<Field>, c: Counts, vs: seq<Value>) {
    |fs| > 0 ==> CountSiblings(fs, c, 0, [], vs)
  }

  /** Whatever counts between the bounds are asked for, at every place independently, the final
      graph has a path from the root through an instance with exactly those counts. */
  lemma AnyCounts(fs: seq<Field>, final: Graph, c: Counts)
    requires WellFormed(fs) && Cleaned(fs, Raw(fs), Traverse(fs), final) && Allowed(fs, c)
    ensures exists vs :: ValidInstance(fs, vs) && CountInstance(fs, c, vs) && RootPath(final, Spell(fs, vs))
  {
    hide Raw, Traverse, Cleaned, RootPath, Spell, ValidSiblings, CountSiblings, WellFormed;
    var vs := [];
    if |fs| > 0 { vs := CountedSiblings(fs, c, 0, []); }
    assert ValidInstance(fs, vs) && CountInstance(fs, c, vs);
    PathsAreInstances(fs, final, Spell(fs, vs));
  }
}
