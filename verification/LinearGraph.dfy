/** A state graph laid out along its longest run, and what the clean-up of that graph is
    meant to compute: which states stay, and which of them each state can be followed by. */
module LinearGraph {
  import opened Schema
  import opened Traversal
  import opened Concretize

  /** The last visit to a list, at which only the exit edge is left. */
  predicate IsTail(fs: seq<Field>, c: ConcreteState)
    requires c.field < |fs|
  {
    c.field >= 0 && fs[c.field].IsList() && |c.indices| > 0 && c.indices[|c.indices|-1] >= fs[c.field].range.value.1
  }

  predicate IsListState(fs: seq<Field>, c: ConcreteState)
    requires c.field < |fs|
  {
    c.field >= 0 && fs[c.field].IsList()
  }

  ghost function Pos<T(!new)>(s: seq<T>, t: T): (i: nat)
    requires t in s
    ensures i < |s| && s[i] == t
  {
    var i :| 0 <= i < |s| && s[i] == t; i
  }

  lemma PosUnique<T(!new)>(s: seq<T>, i: nat)
    requires NoDup(s) && i < |s|
    ensures Pos(s, s[i]) == i
  {
  }

  /** The i-th state moves on to the next one; its exit edge, if it has another one, goes further. */
  ghost predicate LinearAt(fs: seq<Field>, g: Graph, s: seq<Tag>, i: nat)
    requires i < |s|
  {
    s[i] in g &&
    var c := g[s[i]];
    && c.field < |fs| && c.successors == [] && |c.flows| <= 1 && |c.exits| <= 1
    && (i == 0 ==> c.exits == [])
    && (c.exits != [] ==> c.flows != [] || IsTail(fs, c) || !IsListState(fs, c))
    && (c.exits != [] && c.flows != [] ==> IsListState(fs, c) && !IsTail(fs, c) && c.exits[0] != c.flows[0])
    && (if i + 1 < |s| then
          && (if c.flows != [] then c.flows[0] == s[i+1] else c.exits == [s[i+1]])
          && (c.exits != [] ==> c.exits[0] in s && i < Pos(s, c.exits[0]))
          && (IsTail(fs, c) ==> c.flows == [])
        else
          c.flows == [] && !IsTail(fs, c) && (c.exits != [] ==> c.exits[0] == ROOT))
  }

  ghost predicate Linear(fs: seq<Field>, g: Graph, s: seq<Tag>) {
    && |s| > 0 && s[0] == ROOT && NoDup(s)
    && (forall t :: t in g <==> t in s)
    && forall i :: 0 <= i < |s| ==> LinearAt(fs, g, s, i)
  }

  ghost predicate TailAt(fs: seq<Field>, g: Graph, s: seq<Tag>, i: nat)
    requires Linear(fs, g, s) && i < |s|
  {
    assert LinearAt(fs, g, s, i);
    IsTail(fs, g[s[i]])
  }

  lemma TailNotLast(fs: seq<Field>, g: Graph, s: seq<Tag>, i: nat)
    requires Linear(fs, g, s) && i < |s| && TailAt(fs, g, s, i)
    ensures i + 1 < |s|
  {
    assert LinearAt(fs, g, s, i);
  }

  /** The first state from position i on that is not a tail. */
  ghost function KeptFrom(fs: seq<Field>, g: Graph, s: seq<Tag>, i: nat): (k: nat)
    requires Linear(fs, g, s) && i < |s|
    ensures i <= k < |s| && !TailAt(fs, g, s, k)
    ensures !TailAt(fs, g, s, i) ==> k == i
    decreases |s| - i
  {
    if TailAt(fs, g, s, i) then TailNotLast(fs, g, s, i); KeptFrom(fs, g, s, i + 1) else i
  }

  /** State i may be passed over: the list it belongs to is long enough to stop in front of it. */
  ghost predicate Optional(g: Graph, s: seq<Tag>, i: nat)
    requires i < |s|
  {
    s[i] in g && g[s[i]].flows != [] && g[s[i]].exits != []
  }

  /** Where a run that passes over state i arrives. */
  ghost function SkipTo(fs: seq<Field>, g: Graph, s: seq<Tag>, i: nat): (k: nat)
    requires Linear(fs, g, s) && i < |s| && Optional(g, s, i)
    ensures i < k < |s| && !TailAt(fs, g, s, k)
  {
    assert LinearAt(fs, g, s, i);
    KeptFrom(fs, g, s, Pos(s, g[s[i]].exits[0]))
  }

  /** State i and every state a run can arrive at instead by passing over optional ones. */
  ghost function Reach(fs: seq<Field>, g: Graph, s: seq<Tag>, i: nat): (r: seq<Tag>)
    requires Linear(fs, g, s) && i < |s|
    ensures |r| > 0 && r[0] == s[i]
    decreases |s| - i
  {
    [s[i]] + (if Optional(g, s, i) then Reach(fs, g, s, SkipTo(fs, g, s, i)) else [])
  }

  ghost function Followers(fs: seq<Field>, g: Graph, s: seq<Tag>, i: nat): seq<Tag>
    requires Linear(fs, g, s) && i < |s|
  {
    if i + 1 < |s| then Reach(fs, g, s, KeptFrom(fs, g, s, i + 1)) else []
  }

  /** The graph the clean-up leaves: the states that are not tails, each with its followers. */
  ghost predicate Cleaned(fs: seq<Field>, g: Graph, s: seq<Tag>, final: Graph)
    requires Linear(fs, g, s)
  {
    && (forall i :: 0 <= i < |s| ==> CleanedAt(fs, g, s, final, i))
    && forall t :: t in final ==> t in g
  }

  ghost predicate CleanedAt(fs: seq<Field>, g: Graph, s: seq<Tag>, final: Graph, i: nat)
    requires Linear(fs, g, s) && i < |s|
  {
    assert LinearAt(fs, g, s, i);
    if TailAt(fs, g, s, i) then s[i] !in final
    else
      s[i] in final &&
      final[s[i]] == ConcreteState(g[s[i]].field, g[s[i]].indices, [], [], Followers(fs, g, s, i))
  }

  /** The positions that are not tails, from i on. */
  ghost function KeptPositions(fs: seq<Field>, g: Graph, s: seq<Tag>, i: nat): (r: seq<nat>)
    requires Linear(fs, g, s) && i < |s|
    ensures |r| > 0 && r[0] == KeptFrom(fs, g, s, i)
    decreases |s| - i
  {
    var k := KeptFrom(fs, g, s, i);
    [k] + (if k + 1 < |s| then KeptPositions(fs, g, s, k + 1) else [])
  }

  ghost predicate KeptLink(fs: seq<Field>, g: Graph, s: seq<Tag>, r: seq<nat>, j: nat)
    requires Linear(fs, g, s) && j < |r|
  {
    && r[j] < |s| && !TailAt(fs, g, s, r[j])
    && (if j + 1 < |r| then r[j] + 1 < |s| && r[j+1] == KeptFrom(fs, g, s, r[j] + 1) else r[j] + 1 == |s|)
  }

  lemma {:induction false} KeptLinks(fs: seq<Field>, g: Graph, s: seq<Tag>, i: nat, j: nat)
    requires Linear(fs, g, s) && i < |s| && j < |KeptPositions(fs, g, s, i)|
    ensures KeptLink(fs, g, s, KeptPositions(fs, g, s, i), j)
    decreases |s| - i
  {
    hide Linear, TailAt, KeptFrom;
    var k := KeptFrom(fs, g, s, i);
    if j > 0 {
      KeptLinks(fs, g, s, k + 1, j - 1);
      assert KeptPositions(fs, g, s, i) == [k] + KeptPositions(fs, g, s, k + 1);
    }
  }

  /** Every state that is not a tail is met. */
  lemma {:induction false} KeptCovers(fs: seq<Field>, g: Graph, s: seq<Tag>, i: nat, k: nat)
    requires Linear(fs, g, s) && i <= k < |s| && !TailAt(fs, g, s, k)
    ensures k in KeptPositions(fs, g, s, i)
    decreases |s| - i
  {
    hide Linear, TailAt;
    KeptLeast(fs, g, s, i, k);
    if k > KeptFrom(fs, g, s, i) {
      KeptCovers(fs, g, s, KeptFrom(fs, g, s, i) + 1, k);
    }
  }

  lemma {:induction false} KeptLeast(fs: seq<Field>, g: Graph, s: seq<Tag>, i: nat, l: nat)
    requires Linear(fs, g, s) && i <= l < |s| && !TailAt(fs, g, s, l)
    ensures KeptFrom(fs, g, s, i) <= l
    decreases l - i
  {
    hide Linear, TailAt;
    if i < l { KeptLeast(fs, g, s, i + 1, l); }
  }

  // ---- The raw graph of a field table is laid out this way ----------------------------

  lemma RawIsLinear(fs: seq<Field>, g: Graph)
    requires WellFormed(fs) && RawGraph(fs, g)
    ensures Linear(fs, g, Traverse(fs))
  {
    var s := Traverse(fs);
    TraverseDistinct(fs);
    if |fs| == 0 {
      RootEdges(fs);
      assert CompleteIn(fs, g, ROOT);
      assert LinearAt(fs, g, s, 0);
    } else {
      TraverseForward(fs);
      forall i | 0 <= i < |s| ensures LinearAt(fs, g, s, i) {
        RawLinearAt(fs, g, i);
      }
    }
  }

  /** The edges of a visited state in terms of its count. */
  lemma EdgeCases(fs: seq<Field>, t: Tag)
    requires WellFormed(fs) && t in Traverse(fs) && t != ROOT
    ensures TagOf(fs, t) && t.field >= 0 && 0 <= Count(t) <= fs[t.field].Reps()
    ensures FlowTarget(fs, t).Some? <==> Count(t) < fs[t.field].Reps()
    ensures ExitTarget(fs, t) == if Count(t) < fs[t.field].MinReps() then None else Some(ExitTo(fs, t.field, Prefix(t)))
    ensures !fs[t.field].IsList() ==> fs[t.field].MinReps() == fs[t.field].Reps()
    ensures ExitTarget(fs, t) == Some(ROOT) ==> !fs[t.field].IsList()
  {
    hide HasChild, HasSibling, Parent, Traverse;
    CountBounds(fs, t);
    assert FieldOk(fs, t.field);
    ParentDepth(fs, t.field);
  }

  /** The two edges of a state never lead to the same state. */
  lemma EdgesDiffer(fs: seq<Field>, t: Tag)
    requires Preorder(fs) && TagOf(fs, t)
    ensures FlowTarget(fs, t).Some? && ExitTarget(fs, t).Some? ==> FlowTarget(fs, t) != ExitTarget(fs, t)
  {
    if t != ROOT && HasChild(fs, t.field) {
      EndSpans(fs, t.field);
      ParentDepth(fs, t.field);
    }
  }

  lemma RawLinearAt(fs: seq<Field>, g: Graph, i: nat)
    requires WellFormed(fs) && |fs| > 0 && RawGraph(fs, g) && NoDup(Traverse(fs))
    requires Forward(fs, Traverse(fs), ROOT) && i < |Traverse(fs)|
    ensures LinearAt(fs, g, Traverse(fs), i)
  {
    hide FlowTarget, ExitTarget, ExitTo, Traverse, HasChild, HasSibling;
    var s := Traverse(fs);
    var t := s[i];
    assert StepsOn(fs, s, ROOT, i);
    assert CompleteIn(fs, g, t);
    RootEdges(fs);
    if i > 0 {
      assert t != ROOT;
      EdgeCases(fs, t);
      EdgesDiffer(fs, t);
      var x := ExitTarget(fs, t);
      if x.Some? {
        var j :| i + 1 <= j <= |s| && At(s, ROOT, j) == x.value;
        if j < |s| {
          PosUnique(s, j);
        } else {
          assert x == Some(ROOT);
          assert FlowTarget(fs, t).None?;
          assert At(s, ROOT, i + 1) == ROOT;
          assert i + 1 == |s|;
        }
      }
      if i + 1 == |s| {
        LastState(fs);
      }
    }
  }

  /** The last state of the longest run leaves for good. */
  lemma LastState(fs: seq<Field>)
    requires WellFormed(fs) && |fs| > 0 && Forward(fs, Traverse(fs), ROOT)
    ensures var t := Traverse(fs)[|Traverse(fs)| - 1];
      TagOf(fs, t) && FlowTarget(fs, t).None? && ExitTarget(fs, t) == Some(ROOT)
  {
    var s := Traverse(fs);
    var t := s[|s| - 1];
    assert StepsOn(fs, s, ROOT, |s| - 1);
    hide Traverse;
  }
}
