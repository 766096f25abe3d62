/** Unrolling the abstract graph into concrete states. */
module Concretize {
  import opened Schema
  import opened AbstractGraph
  import opened Traversal

  /** One concrete state; flows and exits are scratch, successors the final edges. */
  datatype ConcreteState = ConcreteState(
    field: int,
    indices: seq<int>,
    flows: seq<Tag>,
    exits: seq<Tag>,
    successors: seq<Tag>)

  type Graph = map<Tag, ConcreteState>

  function OptSeq<T>(o: Option<T>): seq<T> {
    if o.Some? then [o.value] else []
  }

  /** The state build_concrete_rec leaves for t: its edges and nothing else. */
  function RawState(fs: seq<Field>, t: Tag): ConcreteState
    requires Preorder(fs) && TagOf(fs, t)
  {
    ConcreteState(t.field, t.indices, OptSeq(FlowTarget(fs, t)), OptSeq(ExitTarget(fs, t)), [])
  }

  /** t is a recorded state with its two edges, both of which lead to recorded states. */
  ghost predicate CompleteIn(fs: seq<Field>, g: Graph, t: Tag)
    requires Preorder(fs)
  {
    && t in g && TagOf(fs, t) && g[t] == RawState(fs, t)
    && (FlowTarget(fs, t).Some? ==> FlowTarget(fs, t).value in g)
    && (ExitTarget(fs, t).Some? ==> ExitTarget(fs, t).value in g)
  }

  /** The raw graph of a field table: the states of the longest run with their edges. */
  ghost predicate RawGraph(fs: seq<Field>, g: Graph)
    requires Preorder(fs)
  {
    (forall t :: t in g <==> t in Traverse(fs)) && forall t | t in g :: CompleteIn(fs, g, t)
  }

  // ---- The states of the longest run are closed under both edges -------------------

  lemma EdgesStay(fs: seq<Field>, t: Tag)
    requires WellFormed(fs) && t in Traverse(fs)
    ensures TagOf(fs, t)
    ensures FlowTarget(fs, t).Some? ==> FlowTarget(fs, t).value in Traverse(fs)
    ensures ExitTarget(fs, t).Some? ==> ExitTarget(fs, t).value in Traverse(fs)
  {
    hide TagOf, FlowTarget, ExitTarget;
    var s := Traverse(fs);
    if |fs| == 0 {
      assert t == ROOT;
      RootEdges(fs);
    } else {
      TraverseForward(fs);
      var i :| 0 <= i < |s| && s[i] == t;
      assert StepsOn(fs, s, ROOT, i);
      assert ROOT == s[0];
      if ExitTarget(fs, t).Some? {
        var j :| i + 1 <= j <= |s| && At(s, ROOT, j) == ExitTarget(fs, t).value;
      }
      assert At(s, ROOT, i + 1) in s;
    }
  }

  lemma RootEdges(fs: seq<Field>)
    requires Preorder(fs)
    ensures TagOf(fs, ROOT)
    ensures FlowTarget(fs, ROOT) == if |fs| > 0 then Some(Tag(0, [0])) else None
    ensures ExitTarget(fs, ROOT) == None
  {
  }

  /** A set of states that holds the root and is closed under both edges holds the longest run. */
  lemma ClosedHoldsAll(fs: seq<Field>, g: Graph)
    requires WellFormed(fs) && ROOT in g && forall t | t in g :: CompleteIn(fs, g, t)
    ensures forall t | t in Traverse(fs) :: t in g
  {
    hide TagOf, FlowTarget, ExitTarget;
    var s := Traverse(fs);
    if |fs| > 0 {
      TraverseForward(fs);
      var i := 0;
      while i < |s| - 1
        invariant 0 <= i < |s|
        invariant forall k :: 0 <= k <= i ==> s[k] in g
      {
        assert StepsOn(fs, s, ROOT, i);
        assert CompleteIn(fs, g, s[i]);
        i := i + 1;
      }
    }
  }

  // ---- build_concrete_rec ------------------------------------------------------------

  function AbsTag(a: Abstract, indices: seq<int>): Tag
    requires |indices| > 0
  {
    Tag(a.field, indices[1..])
  }

  function BumpLast(s: seq<int>, v: int): seq<int>
    requires |s| > 0
  {
    s[|s|-1 := v]
  }

  /** The call is about a state of the longest run; the root comes back at count 1 only as a target. */
  ghost predicate CallOk(fs: seq<Field>, abs: seq<Abstract>, g: Graph, absIdx: int, indices: seq<int>)
    requires AbstractsOf(abs, fs)
  {
    && 0 <= absIdx < |abs| && |indices| > 0
    && AbsTag(abs[absIdx], indices) in Traverse(fs)
    && (absIdx == 0 ==> |indices| == 1)
    && ((absIdx == 0 && indices == [0]) || ROOT in g)
  }

  /** The index vector the flow edge is followed with. */
  function FlowIndices(fs: seq<Field>, a: Abstract, target: Abstract, indices: seq<int>): seq<int>
    requires a.field < |fs| && target.field < |fs| && |indices| > 0
  {
    if AbsDepth(fs, a) < AbsDepth(fs, target) then indices + [0] else BumpLast(indices, indices[|indices|-1] + 1)
  }

  /** The index vector the exit edge is followed with. */
  function ExitIndices(fs: seq<Field>, a: Abstract, target: Abstract, indices: seq<int>): seq<int>
    requires a.field < |fs| && target.field < |fs|
    requires |indices| > 0 && AbsDepth(fs, a) - AbsDepth(fs, target) < |indices|
  {
    var delta := AbsDepth(fs, a) - AbsDepth(fs, target);
    if delta > 0 then
      var short := indices[..|indices| - delta];
      BumpLast(short, short[|short|-1] + 1)
    else BumpLast(indices, 0)
  }

  predicate CanFlow(fs: seq<Field>, a: Abstract, count: int)
    requires a.field < |fs|
  {
    a.flow >= 0 &&
    if a.field >= 0 && fs[a.field].IsList() then count < fs[a.field].range.value.1
    else if a.field < 0 || fs[a.field].IsRecord() then count == 0
    else true
  }

  predicate CanExit(fs: seq<Field>, a: Abstract, count: int)
    requires a.field < |fs|
  {
    a.exit >= 0 &&
    if a.field >= 0 && fs[a.field].IsList() then count >= fs[a.field].range.value.0
    else if a.field < 0 || fs[a.field].IsRecord() then count > 0
    else true
  }

  lemma CountBounds(fs: seq<Field>, t: Tag)
    requires WellFormed(fs) && t in Traverse(fs)
    ensures TagOf(fs, t) && (t != ROOT ==> 0 <= Count(t) <= fs[t.field].Reps())
  {
    TraverseIndexOk(fs);
  }

  /** The branches taken on the abstract state compute the edges of the concrete one. */
  lemma FlowStep(fs: seq<Field>, abs: seq<Abstract>, g: Graph, absIdx: int, indices: seq<int>)
    requires WellFormed(fs) && AbstractsOf(abs, fs) && CallOk(fs, abs, g, absIdx, indices)
    requires absIdx == 0 ==> indices == [0]
    ensures var a := abs[absIdx]; var t := AbsTag(a, indices);
      TagOf(fs, t) &&
      (CanFlow(fs, a, indices[|indices|-1]) <==> FlowTarget(fs, t).Some?) &&
      (FlowTarget(fs, t).Some? ==>
        && 0 < a.flow < |abs|
        && |FlowIndices(fs, a, abs[a.flow], indices)| > 0
        && AbsTag(abs[a.flow], FlowIndices(fs, a, abs[a.flow], indices)) == FlowTarget(fs, t).value)
  {
    hide Parent, HasSibling, End, ExitIndex, Traverse;
    var a := abs[absIdx];
    var t := AbsTag(a, indices);
    CountBounds(fs, t);
    if absIdx > 0 {
      var f := absIdx - 1;
      assert FieldOk(fs, f);
      if HasChild(fs, f) {
        assert (indices + [0])[1..] == indices[1..] + [0];
      } else if fs[f].IsList() {
        assert BumpLast(indices, indices[|indices|-1] + 1)[1..] == Prefix(t) + [Count(t) + 1];
      }
    }
  }

  lemma TailPrefix(s: seq<int>)
    requires |s| > 1
    ensures s[..|s|-1][1..] == s[1..][..|s|-2]
  {
  }

  lemma ExitStep(fs: seq<Field>, abs: seq<Abstract>, g: Graph, absIdx: int, indices: seq<int>)
    requires WellFormed(fs) && AbstractsOf(abs, fs) && CallOk(fs, abs, g, absIdx, indices)
    requires absIdx == 0 ==> indices == [0]
    ensures var a := abs[absIdx]; var t := AbsTag(a, indices);
      TagOf(fs, t) &&
      (CanExit(fs, a, indices[|indices|-1]) <==> ExitTarget(fs, t).Some?) &&
      (ExitTarget(fs, t).Some? ==>
        && 0 <= a.exit < |abs|
        && AbsDepth(fs, a) - AbsDepth(fs, abs[a.exit]) < |indices|
        && (a.exit == 0 ==> |ExitIndices(fs, a, abs[a.exit], indices)| == 1)
        && |ExitIndices(fs, a, abs[a.exit], indices)| > 0
        && AbsTag(abs[a.exit], ExitIndices(fs, a, abs[a.exit], indices)) == ExitTarget(fs, t).value)
  {
    hide Traverse, Parent, End, FlowIndex;
    var a := abs[absIdx];
    var t := AbsTag(a, indices);
    CountBounds(fs, t);
    if absIdx > 0 {
      var f := absIdx - 1;
      assert FieldOk(fs, f);
      ParentDepth(fs, f);
      if HasSibling(fs, f) {
        assert BumpLast(indices, 0)[1..] == Prefix(t) + [0];
      } else if Parent(fs, f) >= 0 {
        var p := Prefix(t);
        var short := indices[..|indices| - 1];
        TailPrefix(indices);
        assert BumpLast(short, short[|short|-1] + 1)[1..] == p[..|p|-1] + [p[|p|-1] + 1];
      }
    }
  }

  /** g1 keeps every state of g0 as it was, and the states it adds are complete. */
  ghost predicate Extends(fs: seq<Field>, g0: Graph, g1: Graph)
    requires Preorder(fs)
  {
    && g0.Keys <= g1.Keys
    && (forall t | t in g0 :: g1[t] == g0[t])
    && forall t | t in g1 && t !in g0 :: t in Traverse(fs) && CompleteIn(fs, g1, t)
  }

  /** The states of the longest run that are not recorded yet. */
  ghost function Unvisited(fs: seq<Field>, g: Graph): set<Tag> {
    (set t | t in Traverse(fs)) - g.Keys
  }

  lemma UnvisitedShrinks(fs: seq<Field>, g0: Graph, t: Tag, c: ConcreteState, g1: Graph)
    requires Preorder(fs) && t !in g0 && t in Traverse(fs) && Extends(fs, g0[t := c], g1)
    ensures Unvisited(fs, g1) < Unvisited(fs, g0)
    ensures t in g1 && (ROOT in g0[t := c] ==> ROOT in g1)
  {
    assert t in Unvisited(fs, g0);
  }

  lemma ExtendsSelf(fs: seq<Field>, g: Graph)
    requires Preorder(fs)
    ensures Extends(fs, g, g)
  {
  }

  /** Replacing the edges of one state that was already there leaves the others complete. */
  lemma ExtendsUpdate(fs: seq<Field>, g0: Graph, t: Tag, c0: ConcreteState, g1: Graph, c: ConcreteState)
    requires Preorder(fs) && Extends(fs, g0[t := c0], g1)
    ensures Extends(fs, g0[t := c], g1[t := c])
  {
    hide TagOf, FlowTarget, ExitTarget;
    var g := g1[t := c];
    forall u | u in g && u !in g0[t := c] ensures u in Traverse(fs) && CompleteIn(fs, g, u) {
      assert u !in g0[t := c0] && CompleteIn(fs, g1, u);
    }
  }

  lemma ExtendsKeys(fs: seq<Field>, g0: Graph, g1: Graph)
    requires Preorder(fs) && Extends(fs, g0, g1)
    ensures g0.Keys <= g1.Keys
  {
  }

  lemma ExtendsTransitive(fs: seq<Field>, g0: Graph, g1: Graph, g2: Graph)
    requires Preorder(fs) && Extends(fs, g0, g1) && Extends(fs, g1, g2)
    ensures Extends(fs, g0, g2)
  {
    hide TagOf, FlowTarget, ExitTarget;
    forall u | u in g2 && u !in g0 ensures CompleteIn(fs, g2, u) {
      if u in g1 { assert CompleteIn(fs, g1, u); }
    }
  }

  lemma MakeComplete(fs: seq<Field>, g: Graph, t: Tag)
    requires Preorder(fs) && TagOf(fs, t) && t in g
    requires g[t].field == t.field && g[t].indices == t.indices && g[t].successors == []
    requires g[t].flows == OptSeq(FlowTarget(fs, t)) && forall u | u in g[t].flows :: u in g
    requires g[t].exits == OptSeq(ExitTarget(fs, t)) && forall u | u in g[t].exits :: u in g
    ensures CompleteIn(fs, g, t)
  {
    hide TagOf, FlowTarget, ExitTarget;
  }

  /** A state added with open edges and then completed is an extension like any other. */
  lemma ExtendsComplete(fs: seq<Field>, g0: Graph, t: Tag, c: ConcreteState, g1: Graph)
    requires Preorder(fs) && t !in g0 && t in Traverse(fs) && CompleteIn(fs, g1, t)
    requires g1[t] == c && Extends(fs, g0[t := c], g1)
    ensures Extends(fs, g0, g1)
  {
    hide TagOf, FlowTarget, ExitTarget;
  }

  /** A call that finds its state missing is either the very first one or comes after the root was recorded. */
  lemma RootFirst(fs: seq<Field>, abs: seq<Abstract>, absIdx: int, indices: seq<int>, t: Tag, g: Graph)
    requires AbstractsOf(abs, fs) && CallOk(fs, abs, g, absIdx, indices)
    requires t == AbsTag(abs[absIdx], indices) && t !in g
    ensures absIdx == 0 ==> indices == [0]
    ensures ROOT in g[t := ConcreteState(abs[absIdx].field, indices[1..], [], [], [])]
  {
    hide Traverse, TagOf, FlowTarget, ExitTarget, AbsDepth, FlowIndex, ExitIndex;
    if absIdx == 0 {
      assert indices[1..] == [];
      assert t == ROOT;
    }
  }

  class StateGraph {
    var states: Graph

    constructor ()
      ensures states == map[]
    {
      states := map[];
    }

    /** Record the state for (absIdx, indices) and everything reachable from it. The set of states
        of the longest run that are not yet recorded shrinks with every call that goes deeper. */
    method BuildConcreteRec(abs: seq<Abstract>, fs: seq<Field>, absIdx: int, indices: seq<int>) returns (ctag: Tag)
      requires WellFormed(fs) && AbstractsOf(abs, fs) && CallOk(fs, abs, states, absIdx, indices)
      modifies this
      ensures ctag == AbsTag(abs[absIdx], indices) && ctag in states
      ensures Extends(fs, old(states), states)
      decreases Unvisited(fs, states)
    {
      hide TagOf, ExitTarget, FlowTarget, FlowIndices, ExitIndices, CanFlow, CanExit, CompleteIn, Extends, Unvisited, Traverse;
      ghost var before := states;
      var a := abs[absIdx];
      var count := indices[|indices|-1];
      ctag := AbsTag(a, indices);
      ExtendsSelf(fs, states);
      if ctag in states { return; }
      RootFirst(fs, abs, absIdx, indices, ctag, states);
      EdgesStay(fs, ctag);
      FlowStep(fs, abs, states, absIdx, indices);
      ExitStep(fs, abs, states, absIdx, indices);

      var canFlow := CanFlow(fs, a, count);
      var canExit := CanExit(fs, a, count);
      var cs := ConcreteState(a.field, indices[1..], [], [], []);
      states := states[ctag := cs];
      ExtendsSelf(fs, states);
      UnvisitedShrinks(fs, before, ctag, cs, states);

      if canFlow {
        var next := BuildConcreteRec(abs, fs, a.flow, FlowIndices(fs, a, abs[a.flow], indices));
        ExtendsUpdate(fs, before, ctag, cs, states, cs.(flows := cs.flows + [next]));
        cs := cs.(flows := cs.flows + [next]);
        states := states[ctag := cs];
      }
      ghost var middle := states;
      UnvisitedShrinks(fs, before, ctag, cs, middle);
      if canExit {
        var next := BuildConcreteRec(abs, fs, a.exit, ExitIndices(fs, a, abs[a.exit], indices));
        ExtendsKeys(fs, middle, states);
        ExtendsTransitive(fs, before[ctag := cs], middle, states);
        ExtendsUpdate(fs, before, ctag, cs, states, cs.(exits := cs.exits + [next]));
        cs := cs.(exits := cs.exits + [next]);
        states := states[ctag := cs];
      }
      MakeComplete(fs, states, ctag);
      ExtendsComplete(fs, before, ctag, cs, states);
    }
  }
}
