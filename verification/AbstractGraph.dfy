/** The abstract state graph the compiler serialises next to the field table. */
module AbstractGraph {
  import opened Schema

  /** One abstract state; the links are positions in the list of abstract states, -1 for none. */
  datatype Abstract = Abstract(field: int, flow: int, exit: int)

  function FlowIndex(fs: seq<Field>, i: nat): int
    requires i < |fs|
  {
    if HasChild(fs, i) then i + 2 else if fs[i].IsList() then i + 1 else -1
  }

  function ExitIndex(fs: seq<Field>, i: nat): int
    requires i < |fs|
  {
    if HasSibling(fs, i) then End(fs, i) + 1 else Parent(fs, i) + 1
  }

  /** Flow leads to the first child (or back to a leaf list), exit to the next sibling or the parent. */
  ghost predicate AbstractsOf(abs: seq<Abstract>, fs: seq<Field>) {
    && |abs| == |fs| + 1
    && abs[0] == Abstract(-1, if |fs| > 0 then 1 else -1, -1)
    && forall k :: 1 <= k < |abs| ==> abs[k] == Abstract(k - 1, FlowIndex(fs, k - 1), ExitIndex(fs, k - 1))
  }

  /** The first field and every field one level deeper than its predecessor carry index 0. */
  ghost predicate FirstChildIndexed(fs: seq<Field>) {
    (|fs| > 0 ==> fs[0].index == 0) && forall i :: 0 <= i < |fs| && HasChild(fs, i) ==> fs[i+1].index == 0
  }

  /** The stack holds, per depth, the fields met so far; its tops are the path to the latest field. */
  ghost predicate StackOk(fs: seq<Field>, f: nat, stack: seq<seq<int>>)
    requires f <= |fs|
  {
    && |stack| == (if f == 0 then 1 else fs[f-1].depth + 1)
    && |stack| > 0
    && (forall d :: 0 <= d < |stack| ==> |stack[d]| > 0)
    && Top(stack, 0) == 0
    && (forall d :: 1 <= d < |stack| ==> TopOk(fs, f, Top(stack, d), d))
  }

  function Top(stack: seq<seq<int>>, d: nat): int
    requires d < |stack| && |stack[d]| > 0
  {
    stack[d][|stack[d]|-1]
  }

  /** a is the abstract state of the last field before f at depth d, with only deeper ones behind it. */
  ghost predicate TopOk(fs: seq<Field>, f: nat, a: int, d: nat)
    requires f <= |fs|
  {
    1 <= a <= f && fs[a-1].depth == d && forall m :: a <= m < f ==> fs[m].depth > d
  }

  /** The state of field i once the fields before f have been read, and the exits of the fields
      that end at f have been settled down to (but not including) depth d. */
  function StateOf(fs: seq<Field>, f: nat, d: int, i: nat): Abstract
    requires i < f <= |fs|
  {
    Abstract(
      i,
      if i + 1 < f then FlowIndex(fs, i) else if fs[i].IsList() then i + 1 else -1,
      if End(fs, i) < f || (End(fs, i) == f && fs[i].depth > d) then ExitIndex(fs, i) else -1)
  }

  ghost predicate Settled(fs: seq<Field>, f: nat, d: int, abs: seq<Abstract>)
    requires f <= |fs|
  {
    && |abs| > f
    && abs[0] == Abstract(-1, if f > 0 then 1 else -1, -1)
    && forall k :: 1 <= k <= f ==> abs[k] == StateOf(fs, f, d, k - 1)
  }

  lemma TopIsParent(fs: seq<Field>, f: nat, stack: seq<seq<int>>, d: nat)
    requires Preorder(fs) && f <= |fs| && StackOk(fs, f, stack) && 1 <= d < |stack|
    ensures Parent(fs, Top(stack, d) - 1) + 1 == Top(stack, d - 1)
  {
    var i := Top(stack, d) - 1;
    ParentDepth(fs, i);
    if d > 1 {
      var r := Top(stack, d - 1) - 1;
      assert r != i;
      assert TopOk(fs, f, r + 1, d - 1) && TopOk(fs, f, i + 1, d);
      assert forall m :: r < m < i ==> fs[m].depth >= fs[i].depth;
      ParentUnique(fs, i, r);
    }
  }

  /** The fields whose subtree ends at f are those on the stack at the depth of f or deeper. */
  lemma OpenOnStack(fs: seq<Field>, f: nat, stack: seq<seq<int>>, i: nat)
    requires Preorder(fs) && i < f <= |fs| && StackOk(fs, f, stack) && End(fs, i) >= f
    ensures fs[i].depth < |stack| && Top(stack, fs[i].depth) == i + 1
  {
    var d := fs[i].depth;
    EndSpans(fs, i);
    if i < f - 1 {
      assert fs[f-1].depth > d;
    }
    assert TopOk(fs, f, Top(stack, d), d);
  }

  lemma TopEnd(fs: seq<Field>, f: nat, stack: seq<seq<int>>, d: nat)
    requires Preorder(fs) && f <= |fs| && StackOk(fs, f, stack) && 1 <= d < |stack|
    ensures End(fs, Top(stack, d) - 1) >= f
    ensures f < |fs| && fs[f].depth <= d ==> End(fs, Top(stack, d) - 1) == f
  {
    assert TopOk(fs, f, Top(stack, d), d);
    EndSpans(fs, Top(stack, d) - 1);
  }

  /** A field on the stack that gets no sibling from f exits to the field below it on the stack. */
  lemma TopExit(fs: seq<Field>, f: nat, stack: seq<seq<int>>, d: nat)
    requires Preorder(fs) && f <= |fs| && StackOk(fs, f, stack) && 1 <= d < |stack|
    requires f < |fs| ==> fs[f].depth < d
    ensures 1 <= Top(stack, d) <= f && fs[Top(stack, d) - 1].depth == d && End(fs, Top(stack, d) - 1) == f
    ensures ExitIndex(fs, Top(stack, d) - 1) == Top(stack, d - 1)
  {
    assert TopOk(fs, f, Top(stack, d), d);
    TopIsParent(fs, f, stack, d);
    TopEnd(fs, f, stack, d);
  }

  /** Wiring the field on top of the stack at depth d to a, when that is where it exits to. */
  lemma SettleOne(fs: seq<Field>, f: nat, d: nat, abs: seq<Abstract>, stack: seq<seq<int>>, a: int)
    requires Preorder(fs) && f <= |fs| && StackOk(fs, f, stack) && Settled(fs, f, d, abs)
    requires 1 <= d < |stack| && (f < |fs| ==> fs[f].depth <= d)
    requires 1 <= Top(stack, d) <= f && a == ExitIndex(fs, Top(stack, d) - 1)
    ensures Settled(fs, f, d - 1, abs[Top(stack, d) := abs[Top(stack, d)].(exit := a)])
  {
    hide FlowIndex, ExitIndex;
    var t := Top(stack, d);
    TopEnd(fs, f, stack, d);
    assert TopOk(fs, f, t, d);
    var abs' := abs[t := abs[t].(exit := a)];
    forall k | 1 <= k <= f ensures abs'[k] == StateOf(fs, f, d - 1, k - 1) {
      if End(fs, k - 1) >= f && fs[k-1].depth == d {
        OpenOnStack(fs, f, stack, k - 1);
      }
    }
  }

  /** Wire and drop the levels above d: a finished field with no later sibling exits to its parent. */
  method PopTo(fs: seq<Field>, f: nat, abs0: seq<Abstract>, stack: seq<seq<int>>, bottom: nat)
    returns (abs: seq<Abstract>)
    requires Preorder(fs) && f <= |fs| && StackOk(fs, f, stack) && Settled(fs, f, |stack| - 1, abs0)
    requires f < |fs| && bottom < |stack| && bottom == fs[f].depth
    ensures |abs| == |abs0| && forall k :: f < k < |abs| ==> abs[k] == abs0[k]
    ensures Settled(fs, f, bottom, abs)
  {
    hide StateOf, FlowIndex;
    abs := abs0;
    var d := |stack| - 1;
    while d > bottom
      invariant bottom <= d < |stack|
      invariant |abs| == |abs0| && forall k :: f < k < |abs| ==> abs[k] == abs0[k]
      invariant Settled(fs, f, d, abs)
    {
      var deeperLast := stack[d][|stack[d]|-1];
      var shallowerLast := stack[d-1][|stack[d-1]|-1];
      assert deeperLast == Top(stack, d) && shallowerLast == Top(stack, d - 1);
      TopExit(fs, f, stack, d);
      SettleOne(fs, f, d, abs, stack, shallowerLast);
      abs := abs[deeperLast := abs[deeperLast].(exit := shallowerLast)];
      d := d - 1;
    }
  }

  /** The final wiring, from the root down: every field still open exits to its parent. */
  method WireUp(fs: seq<Field>, abs0: seq<Abstract>, stack: seq<seq<int>>) returns (abs: seq<Abstract>)
    requires Preorder(fs) && |abs0| == |fs| + 1 && Settled(fs, |fs|, |stack| - 1, abs0) && StackOk(fs, |fs|, stack)
    ensures |abs| == |fs| + 1 && Settled(fs, |fs|, 0, abs)
  {
    hide FlowIndex, ExitIndex, End;
    abs := abs0;
    ghost var n := |fs|;
    for i := 0 to |stack| - 1
      invariant |abs| == n + 1 && abs[0] == abs0[0]
      invariant forall k :: 1 <= k <= n ==> abs[k] == StateOf(fs, n, if fs[k-1].depth <= i then 0 else |stack| - 1, k - 1)
    {
      var deeperLast := stack[i + 1][|stack[i + 1]| - 1];
      var shallowerLast := stack[i][|stack[i]| - 1];
      assert deeperLast == Top(stack, i + 1) && shallowerLast == Top(stack, i);
      TopExit(fs, n, stack, i + 1);
      abs := abs[deeperLast := abs[deeperLast].(exit := shallowerLast)];
      forall k | 1 <= k <= n
        ensures abs[k] == StateOf(fs, n, if fs[k-1].depth <= i + 1 then 0 else |stack| - 1, k - 1)
      {
        if End(fs, k - 1) >= n && fs[k-1].depth == i + 1 { OpenOnStack(fs, n, stack, k - 1); }
      }
    }
    forall k | 1 <= k <= n ensures abs[k] == StateOf(fs, n, 0, k - 1) {
      if End(fs, k - 1) >= n { OpenOnStack(fs, n, stack, k - 1); }
    }
  }

  lemma StackPush(fs: seq<Field>, f: nat, stack: seq<seq<int>>)
    requires Preorder(fs) && f < |fs| && StackOk(fs, f, stack) && fs[f].depth <= |stack|
    ensures fs[f].depth == |stack| ==> StackOk(fs, f + 1, stack + [[f + 1]])
    ensures fs[f].depth < |stack| ==>
      StackOk(fs, f + 1, stack[..fs[f].depth] + [stack[fs[f].depth] + [f + 1]])
  {
    var D := fs[f].depth;
    var s' := stack[..D] + [(if D < |stack| then stack[D] else []) + [f + 1]];
    forall d | 1 <= d < |s'| ensures TopOk(fs, f + 1, Top(s', d), d) {
      if d < D { assert TopOk(fs, f, Top(stack, d), d); assert Top(s', d) == Top(stack, d); }
    }
    assert Top(s', 0) == Top(stack, 0);
    if D == |stack| { assert stack[..D] == stack; assert [] + [f + 1] == [f + 1]; assert s' == stack + [[f + 1]]; }
  }

  /** build_abstract: one pass over the fields with a stack of levels. */
  method BuildAbstract(fs: seq<Field>) returns (abs: seq<Abstract>)
    requires Preorder(fs) && FirstChildIndexed(fs)
    ensures AbstractsOf(abs, fs)
  {
    abs := [Abstract(-1, -1, -1)];
    var stack: seq<seq<int>> := [[0]];
    for f := 0 to |fs|
      invariant |abs| == f + 1 && Settled(fs, f, |stack| - 1, abs)
      invariant StackOk(fs, f, stack)
    {
      abs, stack := AddField(fs, f, abs, stack);
    }
    abs := WireUp(fs, abs, stack);
  }

  /** The states before f, read as of f + 1: only the flow of field f - 1 can change. */
  lemma Advance(fs: seq<Field>, f: nat, d: int, d': int, abs: seq<Abstract>)
    requires Preorder(fs) && f < |fs| && Settled(fs, f, d, abs) && |abs| == f + 2
    requires d' >= fs[f].depth
    requires forall i :: 0 <= i < f && End(fs, i) == f ==> fs[i].depth > d
    requires abs[f+1] == Abstract(f, if fs[f].IsList() then f + 1 else -1, -1)
    ensures Settled(fs, f + 1, d', if f == 0 || HasChild(fs, f - 1) then abs[f := abs[f].(flow := f + 1)] else abs)
  {
    hide ExitIndex, End;
    var abs' := if f == 0 || HasChild(fs, f - 1) then abs[f := abs[f].(flow := f + 1)] else abs;
    forall k | 1 <= k <= f + 1 ensures abs'[k] == StateOf(fs, f + 1, d', k - 1) {
      var i := k - 1;
      if i < f {
        assert abs[k] == StateOf(fs, f, d, i);
        EndSpans(fs, i);
      }
    }
  }

  function AbsDepth(fs: seq<Field>, a: Abstract): int
    requires a.field < |fs|
  {
    if a.field < 0 then 0 else fs[a.field].depth
  }

  /** What the invariants say about the field read last. */
  lemma AddFieldFacts(fs: seq<Field>, f: nat, abs: seq<Abstract>, stack: seq<seq<int>>)
    requires Preorder(fs) && FirstChildIndexed(fs) && f < |fs|
    requires |abs| == f + 1 && Settled(fs, f, |stack| - 1, abs) && StackOk(fs, f, stack)
    ensures |stack| > 0 && |stack[|stack|-1]| > 0 && Top(stack, |stack| - 1) == f
    ensures abs[f].field < |fs| && AbsDepth(fs, abs[f]) == |stack| - 1 == (if f == 0 then 0 else fs[f-1].depth)
    ensures fs[f].depth <= |stack|
    ensures fs[f].depth == |stack| <==> f == 0 || HasChild(fs, f - 1)
    ensures fs[f].depth == |stack| ==> fs[f].index == 0 && forall i :: 0 <= i < f ==> End(fs, i) != f
    ensures forall d :: 0 <= d < |stack| ==> |stack[d]| > 0 && 0 <= Top(stack, d) <= f
    ensures fs[f].depth < |stack| ==>
      Top(stack, fs[f].depth) > 0 && ExitIndex(fs, Top(stack, fs[f].depth) - 1) == f + 1
  {
    if f > 0 {
      assert TopOk(fs, f, Top(stack, |stack| - 1), |stack| - 1);
      assert NoJump(fs, f);
      assert HasChild(fs, f - 1) <==> fs[f].depth == |stack|;
    }
    assert Top(stack, |stack| - 1) == f;
    if fs[f].depth == |stack| {
      forall i | 0 <= i < f ensures End(fs, i) != f {
        if End(fs, i) == f { OpenOnStack(fs, f, stack, i); }
      }
    }
    forall d | 1 <= d < |stack| ensures 0 <= Top(stack, d) <= f {
      assert TopOk(fs, f, Top(stack, d), d);
    }
    if fs[f].depth < |stack| {
      TopEnd(fs, f, stack, fs[f].depth);
      assert TopOk(fs, f, Top(stack, fs[f].depth), fs[f].depth);
    }
  }

  lemma AppendSettled(fs: seq<Field>, f: nat, abs: seq<Abstract>, d: int, a: Abstract)
    requires f < |fs| && |abs| == f + 1 && Settled(fs, f, d, abs)
    ensures Settled(fs, f, d, abs + [a])
  {
    hide StateOf;
  }

  /** One iteration: append the state of field f and settle the links that f decides. */
  method AddField(fs: seq<Field>, f: nat, abs0: seq<Abstract>, stack0: seq<seq<int>>)
    returns (abs: seq<Abstract>, stack: seq<seq<int>>)
    requires Preorder(fs) && FirstChildIndexed(fs) && f < |fs|
    requires |abs0| == f + 1 && Settled(fs, f, |stack0| - 1, abs0) && StackOk(fs, f, stack0)
    ensures |abs| == f + 2 && Settled(fs, f + 1, |stack| - 1, abs)
    ensures StackOk(fs, f + 1, stack)
  {
    hide ExitIndex, FlowIndex, Settled, StackOk, TopOk, End, HasChild;
    AddFieldFacts(fs, f, abs0, stack0);
    var fld := fs[f];
    var idx := |abs0|;
    abs := abs0 + [Abstract(f, if fld.IsList() then idx else -1, -1)];
    stack := stack0;
    AppendSettled(fs, f, abs0, |stack0| - 1, abs[f+1]);
    var prevIdx := stack[|stack|-1][|stack[|stack|-1]|-1];
    StackPush(fs, f, stack0);
    if fld.index == 0 && fld.depth == |stack| {
      Advance(fs, f, |stack| - 1, |stack|, abs);
      abs := abs[prevIdx := abs[prevIdx].(flow := idx)];
      stack := stack + [[]];
      assert stack[|stack| - 1] + [idx] == [f + 1];
      assert stack[|stack| - 1 := [f + 1]] == stack0 + [[f + 1]];
    } else {
      if fld.depth < AbsDepth(fs, abs[prevIdx]) {
        abs := PopTo(fs, f, abs, stack, fld.depth);
        stack := stack[..fld.depth + 1];
      }
      assert stack == stack0[..fld.depth + 1];
      var last := stack[|stack|-1][|stack[|stack|-1]|-1];
      SettleOne(fs, f, fld.depth, abs, stack0, idx);
      abs := abs[last := abs[last].(exit := idx)];
      Advance(fs, f, fld.depth - 1, fld.depth, abs);
      assert stack[|stack| - 1 := stack[|stack| - 1] + [idx]] == stack0[..fld.depth] + [stack0[fld.depth] + [f + 1]];
    }
    stack := stack[|stack| - 1 := stack[|stack| - 1] + [idx]];
  }
}
