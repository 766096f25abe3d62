/** The walks a run of the automaton can make through the final state graph once the content has had its say. */
module DecisionWalks {
  import opened Schema
  import opened Traversal
  import opened Concretize
  import opened LinearGraph
  import opened Language
  import opened Instances
  import opened StateAutomaton
  import opened Documents
  import opened ContentRanges
  import opened Fta
  import opened FtaBuilder

  // ---- Ending with the enclosing state ------------------------------------------------------------

  lemma {:induction false} DescentMonotone(d: Doc, fs: seq<Field>, chain: seq<nat>, short: seq<nat>, indices: seq<int>, a: nat)
    requires a < |chain| && short == chain[..|chain|-1] && forall k :: 0 <= k < |chain| ==> chain[k] < |fs|
    ensures SkipFrom(d, fs, short, indices, a) ==> SkipFrom(d, fs, chain, indices, a)
    ensures SkipFrom(d, fs, chain, indices, a) && !SkipFrom(d, fs, short, indices, a) ==> fs[chain[|chain|-1]].IsList()
    decreases |chain| - a
  {
    if a + 1 < |chain| {
      assert short[a] == chain[a];
      var f := fs[chain[a]];
      var child := ObjGet(d, f.name);
      var e := if child.Some? then child.value else d;
      if f.IsList() && e.Array? {
        if 0 <= IndexAt(indices, a) < |e.items| {
          DescentMonotone(e.items[IndexAt(indices, a)], fs, chain, short, indices, a + 1);
        }
      } else {
        DescentMonotone(e, fs, chain, short, indices, a + 1);
      }
    } else {
      var child := ObjGet(d, fs[chain[a]].name);
      var e := if child.Some? then child.value else d;
      assert !SkipFrom(e, fs, chain, indices, a + 1);
    }
  }

  /** If the content ends a list around the state, it rules the state out; if it ends none around it
      but rules it out, then the state is a list's own. */
  lemma EnclSkips(fs: seq<Field>, content: Doc, t: Tag)
    requires Preorder(fs) && TagOf(fs, t) && t != ROOT
    ensures Skip(content, fs, Encl(fs, t)) ==> Skip(content, fs, t)
    ensures Skip(content, fs, t) && !Skip(content, fs, Encl(fs, t)) ==> fs[t.field].IsList()
  {
    hide SkipFrom, Parent, Ancestors, Encl;
    EnclSkip(fs, content, t);
    var chain := Ancestors(fs, t.field);
    DescentMonotone(content, fs, chain, chain[..|chain|-1], t.indices, 0);
  }

  ghost predicate EnclOpen(fs: seq<Field>, content: Doc, t: Tag) {
    0 <= t.field < |fs| && |t.indices| > 0 && !Skip(content, fs, Encl(fs, t))
  }

  /** Neither edge leads out of what the content still has, as long as the state itself is not ruled out
      or is left by its exit. */
  lemma ExitStaysOpen(fs: seq<Field>, content: Doc, t: Tag)
    requires Preorder(fs) && TagOf(fs, t) && t != ROOT && EnclOpen(fs, content, t)
    requires ExitTarget(fs, t).Some? && ExitTarget(fs, t).value != ROOT
    ensures EnclOpen(fs, content, ExitTarget(fs, t).value)
  {
    hide Skip, Parent, HasChild, End;
    var f := t.field;
    ParentDepth(fs, f);
    if HasSibling(fs, f) {
      SiblingParent(fs, f);
      assert Prefix(Tag(End(fs, f), Prefix(t) + [0])) == Prefix(t);
    } else {
      EnclSkips(fs, content, Encl(fs, t));
      var p := Prefix(t);
      assert Prefix(Tag(Parent(fs, f), p[..|p|-1] + [p[|p|-1] + 1])) == p[..|p|-1] == Prefix(Encl(fs, t));
    }
  }

  lemma FlowStaysOpen(fs: seq<Field>, content: Doc, t: Tag)
    requires Preorder(fs) && TagOf(fs, t) && !Skip(content, fs, t) && FlowTarget(fs, t).Some?
    ensures EnclOpen(fs, content, FlowTarget(fs, t).value)
  {
    hide SkipFrom, Parent, HasSibling, End;
    if t == ROOT {
      ParentDepth(fs, 0);
    } else if HasChild(fs, t.field) {
      ChildParent(fs, t.field);
      assert (t.indices + [0])[..|t.indices|] == t.indices;
    } else {
      EnclSkips(fs, content, t);
      assert (Prefix(t) + [Count(t) + 1])[..|Prefix(t)|] == Prefix(t);
    }
  }

  // ---- Where the content leaves no way on -----------------------------------------------------------

  /** A list state that may be left by its exit, and has to be: it is past the last element, or the content rules it out. */
  ghost predicate PassedOver(fs: seq<Field>, content: Doc, t: Tag)
    requires Preorder(fs) && TagOf(fs, t)
  {
    t != ROOT && fs[t.field].IsList() && ExitTarget(fs, t).Some? && (Count(t) == fs[t.field].Reps() || Skip(content, fs, t))
  }

  /** From t on, passing over what may be left out, one comes to a list state below the lower bound that the
      content rules out. */
  ghost predicate ComesShort(fs: seq<Field>, content: Doc, t: Tag)
    requires WellFormed(fs) && t in Traverse(fs)
    decreases |Traverse(fs)| - Rank(fs, t)
  {
    CountBounds(fs, t);
    || Short(fs, content, t)
    || (PassedOver(fs, content, t) &&
        (ExitLater(fs, t); ComesShort(fs, content, ExitTarget(fs, t).value)))
  }

  /** t sits in front of a list state below the lower bound that the content rules out. */
  ghost predicate RunsShort(fs: seq<Field>, content: Doc, t: Tag)
    requires WellFormed(fs)
  {
    t in Traverse(fs) && Rank(fs, t) + 1 < |Traverse(fs)| && ComesShort(fs, content, Traverse(fs)[Rank(fs, t) + 1])
  }

  /** The exit of a list state leads further along the longest run. */
  lemma ExitLater(fs: seq<Field>, t: Tag)
    requires WellFormed(fs) && t in Traverse(fs) && t != ROOT
    ensures TagOf(fs, t)
    ensures var j := Rank(fs, t);
      SkipsAt(fs, Raw(fs), Traverse(fs), j) <==> fs[t.field].IsList() && ExitTarget(fs, t).Some?
    ensures var j := Rank(fs, t); TailAt(fs, Raw(fs), Traverse(fs), j) <==> fs[t.field].IsList() && Count(t) == fs[t.field].Reps()
    ensures fs[t.field].IsList() && ExitTarget(fs, t).Some? ==>
      var e := ExitTarget(fs, t).value;
      && e in Traverse(fs) && Rank(fs, t) < Rank(fs, e) && e != ROOT
      && Rank(fs, e) == ExitPos(fs, Raw(fs), Traverse(fs), Rank(fs, t))
  {
    hide Skip, Raw, Traverse, FlowTarget, ExitTarget, Linear, HasChild, LinearAt, IsTail, NoDup, FieldOk, Preorder, IndexOk;
    var g, s, j := Raw(fs), Traverse(fs), Rank(fs, t);
    CountBounds(fs, t);
    assert t == Tag(t.field, Prefix(t) + [Count(t)]);
    VisitState(fs, t.field, Prefix(t), Count(t), t);
    VisitSkips(fs, g, s, j);
    RawIs(fs);
    assert CompleteIn(fs, g, t);
    EdgeCases(fs, t);
    SeqNoDup(fs, g, s);
    if SkipsAt(fs, g, s, j) {
      PosUnique(s, ExitPos(fs, g, s, j));
    }
  }

  /** From a place the content still reaches: all that can follow is ruled out exactly if one comes to a list
      that runs short. */
  lemma {:induction false} AheadBlocked(fs: seq<Field>, content: Doc, j: nat)
    requires WellFormed(fs) && j < |Traverse(fs)| && EnclOpen(fs, content, Traverse(fs)[j])
    ensures ComesShort(fs, content, Traverse(fs)[j]) <==>
      forall u | u in Reach(fs, Raw(fs), Traverse(fs), KeptFrom(fs, Raw(fs), Traverse(fs), j)) :: Skip(content, fs, u)
    decreases |Traverse(fs)| - j
  {
    hide Skip, Raw, Traverse, Linear, TailAt, Optional, SkipTo, KeptFrom, ExitPos, ExitTarget, IndexOk, Preorder, FieldOk, NoDup;
    var g, s := Raw(fs), Traverse(fs);
    var t := s[j];
    SeqNoDup(fs, g, s);
    PosUnique(s, j);
    CountBounds(fs, t);
    ExitLater(fs, t);
    EdgeCases(fs, t);
    EnclSkips(fs, content, t);
    KeptFirst(fs, g, s, j);
    if SkipsAt(fs, g, s, j) {
      KeptExit(fs, g, s, j);
      ExitStaysOpen(fs, content, t);
      if TailAt(fs, g, s, j) || Skip(content, fs, t) {
        AheadBlocked(fs, content, ExitPos(fs, g, s, j));
      }
    }
  }

  lemma KeptFirst(fs: seq<Field>, g: Graph, s: seq<Tag>, j: nat)
    requires Linear(fs, g, s) && j < |s|
    ensures !TailAt(fs, g, s, j) ==> KeptFrom(fs, g, s, j) == j
    ensures TailAt(fs, g, s, j) ==> SkipsAt(fs, g, s, j) && ExitPos(fs, g, s, j) == j + 1
    ensures SkipsAt(fs, g, s, j) <==> TailAt(fs, g, s, j) || Optional(g, s, j)
  {
  }

  lemma VisitSkips(fs: seq<Field>, g: Graph, s: seq<Tag>, j: nat)
    requires Linear(fs, g, s) && j < |s|
    ensures s[j] in g && g[s[j]].field < |fs|
    ensures SkipsAt(fs, g, s, j) <==> IsTail(fs, g[s[j]]) || (g[s[j]].flows != [] && g[s[j]].exits != [])
    ensures SkipsAt(fs, g, s, j) ==> s[ExitPos(fs, g, s, j)] != ROOT
  {
    RunEdges(fs, g, s, j);
  }

  lemma NextOpen(fs: seq<Field>, content: Doc, i: nat)
    requires WellFormed(fs) && i + 1 < |Traverse(fs)| && !Skip(content, fs, Traverse(fs)[i])
    ensures EnclOpen(fs, content, Traverse(fs)[i+1])
  {
    hide Skip, Traverse, FlowTarget, ExitTarget, HasChild, Encl, FieldOk, Preorder, Linear;
    var s := Traverse(fs);
    NextInRun(fs, i);
    if FlowTarget(fs, s[i]).Some? {
      FlowStaysOpen(fs, content, s[i]);
    } else {
      EnclSkips(fs, content, s[i]);
      ExitStaysOpen(fs, content, s[i]);
    }
  }

  lemma NextInRun(fs: seq<Field>, i: nat)
    requires WellFormed(fs) && i + 1 < |Traverse(fs)|
    ensures TagOf(fs, Traverse(fs)[i]) && Next(fs, Traverse(fs)[i]) == Some(Traverse(fs)[i+1])
    ensures Traverse(fs)[i+1] != ROOT
    ensures Traverse(fs)[i] == ROOT ==> FlowTarget(fs, ROOT).Some?
    ensures Traverse(fs)[i] != ROOT ==> Parent(fs, Traverse(fs)[i].field) < |fs|
  {
    TraverseDistinct(fs);
    hide Siblings;
    assert Traverse(fs)[0] == ROOT;
    if |fs| > 0 {
      TraverseForward(fs);
      assert StepsOn(fs, Traverse(fs), ROOT, i);
    }
  }

  /** Exactly where a run comes to an end: at the last state, and in front of a list that runs short. */
  lemma NoDeadEnd(x: Input, t: Tag)
    requires InputOk(x) && t in x.states && !Skip(x.content, x.fs, t)
    ensures t in Traverse(x.fs)
    ensures Choices(x, t) == [] <==> Rank(x.fs, t) + 1 == |Traverse(x.fs)| || RunsShort(x.fs, x.content, t)
  {
    hide Skip, Raw, Traverse, Linear, WellFormed, CleanedAt, LinearAt, Valid, Choices, Final, ComesShort;
    ChoicesLeft(x, t);
    var fs := x.fs;
    FinalForward(fs, x.states, t);
    var i := Rank(fs, t);
    ValidNone(x, x.states[t].successors);
    if i + 1 < |Traverse(fs)| {
      NextOpen(fs, x.content, i);
      AheadBlocked(fs, x.content, i + 1);
      StateFollowers(x, t);
    }
  }

  lemma ValidNone(x: Input, us: seq<Tag>)
    ensures Valid(x, us) == [] <==> forall u | u in us && u in x.states :: Skip(x.content, x.fs, u)
  {
    hide Skip;
    ValidIn(x, us);
    hide Valid;
    if Valid(x, us) != [] {
      var u := Valid(x, us)[0];
      assert u in us && u in x.states && !Skip(x.content, x.fs, u);
    }
  }

  lemma ChoicesLeft(x: Input, t: Tag)
    requires t in x.states
    ensures Choices(x, t) == [] <==> Valid(x, x.states[t].successors) == []
    ensures x.states[t].successors == [] ==> Choices(x, t) == []
  {
  }

  lemma StateFollowers(x: Input, t: Tag)
    requires InputOk(x) && t in x.states
    ensures t in Traverse(x.fs)
    ensures x.states[t].successors == Followers(x.fs, Raw(x.fs), Traverse(x.fs), Rank(x.fs, t))
    ensures !TailAt(x.fs, Raw(x.fs), Traverse(x.fs), Rank(x.fs, t))
  {
    FinalForward(x.fs, x.states, t);
    hide Raw, Traverse, Linear, WellFormed, LinearAt, Followers;
    assert CleanedAt(x.fs, Raw(x.fs), Traverse(x.fs), x.states, Rank(x.fs, t));
  }

  /** A run through the states, from the root until no choice is left. */
  ghost predicate CompleteWalk(x: Input, w: seq<Tag>) {
    |w| > 0 && Walk(x, w) && w[0] == ROOT && w[|w|-1] in x.states && Choices(x, w[|w|-1]) == []
  }

  lemma {:induction false} WalkPath(x: Input, w: seq<Tag>)
    requires InputOk(x) && Walk(x, w) && w[|w|-1] in x.states && x.states[w[|w|-1]].successors == []
    ensures Path(x.states, w)
    decreases |w|
  {
    hide Skip, Choices, Final, WellFormed;
    if |w| > 1 {
      ChoiceOpen(x, w[0], w[1]);
      WalkPath(x, w[1..]);
    }
  }

  lemma {:induction false} PathEnds(g: Graph, w: seq<Tag>)
    requires Path(g, w)
    ensures w[|w|-1] in g && g[w[|w|-1]].successors == []
    decreases |w|
  {
    if |w| > 1 { PathEnds(g, w[1..]); }
  }

  lemma {:induction false} WalkOpen(x: Input, w: seq<Tag>)
    requires Walk(x, w) && !Skip(x.content, x.fs, w[0])
    ensures w[|w|-1] in x.states && !Skip(x.content, x.fs, w[|w|-1])
    decreases |w|
  {
    hide Skip, Choices;
    if |w| > 1 {
      ChoiceOpen(x, w[0], w[1]);
      WalkOpen(x, w[1..]);
    }
  }

  lemma ChoiceOpen(x: Input, t: Tag, u: Tag)
    requires t in x.states && u in Choices(x, t)
    ensures u in x.states && u in x.states[t].successors && !Skip(x.content, x.fs, u)
  {
    hide Skip, Filled;
    ValidIn(x, x.states[t].successors);
    FirstFilledIn(x, Valid(x, x.states[t].successors));
  }

  ghost predicate Spelled(fs: seq<Field>, w: seq<Tag>) {
    exists vs :: ValidInstance(fs, vs) && w == Spell(fs, vs)
  }

  lemma RootOpen(x: Input)
    ensures !Skip(x.content, x.fs, ROOT)
  {
  }

  /** A complete run spells an instance of the table exactly if it has not come to its end in front of a list that
      runs short. */
  lemma CompleteWalksAreInstances(x: Input, w: seq<Tag>)
    requires InputOk(x) && CompleteWalk(x, w)
    ensures Spelled(x.fs, w) <==> !RunsShort(x.fs, x.content, w[|w|-1])
    ensures Spelled(x.fs, w) <==> RootPath(x.states, w)
  {
    hide Traverse, Raw, ValidInstance, Spell, Path, Walk, Choices, Linear, ComesShort, Skip, TagOf, Cleaned;
    var last := w[|w|-1];
    RootOpen(x);
    WalkOpen(x, w);
    NoDeadEnd(x, last);
    FinalForward(x.fs, x.states, last);
    PathsAreInstances(x.fs, x.states, w);
    if Path(x.states, w) { PathEnds(x.states, w); }
    if x.states[last].successors == [] { WalkPath(x, w); }
  }

  /** The walk from the root can get to t. */
  ghost predicate Reached(x: Input, t: Tag) {
    exists w :: WalkTo(x, w, t)
  }

  ghost predicate WalkTo(x: Input, w: seq<Tag>, t: Tag) {
    |w| > 0 && Walk(x, w) && w[0] == ROOT && w[|w|-1] == t
  }

  /** All complete runs spell instances exactly if no state that can be reached sits in front of a list that runs short. */
  lemma AllWalksAreInstances(x: Input)
    requires InputOk(x)
    ensures (forall w | CompleteWalk(x, w) :: Spelled(x.fs, w)) <==>
      forall t | Reached(x, t) :: !RunsShort(x.fs, x.content, t)
  {
    hide Spelled, RunsShort, Walk, Final, WellFormed;
    forall w | CompleteWalk(x, w) ensures Spelled(x.fs, w) <==> !RunsShort(x.fs, x.content, w[|w|-1]) {
      CompleteWalksAreInstances(x, w);
    }
    forall w | CompleteWalk(x, w) ensures Reached(x, w[|w|-1]) {
      CompleteReaches(x, w);
    }
    forall t | Reached(x, t) && RunsShort(x.fs, x.content, t)
      ensures exists w :: CompleteWalk(x, w) && w[|w|-1] == t
    {
      var w := ShortCompletes(x, t);
    }
  }

  lemma CompleteReaches(x: Input, w: seq<Tag>)
    requires CompleteWalk(x, w)
    ensures Reached(x, w[|w|-1])
  {
    hide Walk;
    assert WalkTo(x, w, w[|w|-1]);
  }

  /** A run that gets in front of a list that runs short is at its end. */
  lemma ShortCompletes(x: Input, t: Tag) returns (w: seq<Tag>)
    requires InputOk(x) && Reached(x, t) && RunsShort(x.fs, x.content, t)
    ensures CompleteWalk(x, w) && w[|w|-1] == t
  {
    hide RunsShort, Walk, Choices, Skip, Final;
    w :| WalkTo(x, w, t);
    RootOpen(x);
    WalkOpen(x, w);
    NoDeadEnd(x, t);
  }

  /** Content that never runs short leaves no run in front of a list that does. */
  lemma {:induction false} NeverComesShort(fs: seq<Field>, content: Doc, t: Tag)
    requires WellFormed(fs) && NoShortage(fs, content) && t in Traverse(fs)
    ensures !ComesShort(fs, content, t)
    decreases |Traverse(fs)| - Rank(fs, t)
  {
    hide Skip, Traverse, Short, FieldOk, ExitTarget;
    CountBounds(fs, t);
    if PassedOver(fs, content, t) {
      ExitLater(fs, t);
      NeverComesShort(fs, content, ExitTarget(fs, t).value);
    }
  }

  /** With content that passes the check and has no stray container, all complete runs spell instances. */
  lemma ConformingWalksAreInstances(x: Input, w: seq<Tag>)
    requires InputOk(x) && CompleteWalk(x, w)
    requires ChildrenLongEnough(x.fs, x.content, -1) && ChildrenConform(x.fs, x.content, -1)
    ensures Spelled(x.fs, w)
  {
    hide Traverse, Spelled, Walk, Choices, ChildrenLongEnough, ChildrenConform, Final, NoShortage, ComesShort;
    ValidatedNeverShort(x.fs, x.content);
    CompleteWalksAreInstances(x, w);
    var last := w[|w|-1];
    if RunsShort(x.fs, x.content, last) {
      NeverComesShort(x.fs, x.content, Traverse(x.fs)[Rank(x.fs, last) + 1]);
    }
  }
}
