/** The concrete states of a prompt and their flow and exit edges as functions of the
    state, together with the order in which the longest run visits them. */
module Traversal {
  import opened Schema

  /** A concrete state: a field (-1 for the root) and one index per level. */
  datatype Tag = Tag(field: int, indices: seq<int>)

  const ROOT := Tag(-1, [])

  /** The state is one a field of the table can be in. */
  ghost predicate TagOf(fs: seq<Field>, t: Tag) {
    t == ROOT || (0 <= t.field < |fs| && |t.indices| == fs[t.field].depth && |t.indices| > 0)
  }

  function Prefix(t: Tag): seq<int>
    requires |t.indices| > 0
  {
    t.indices[..|t.indices|-1]
  }

  function Count(t: Tag): int
    requires |t.indices| > 0
  {
    t.indices[|t.indices|-1]
  }

  /** The state after a whole visit to field f below prefix p. */
  function ExitTo(fs: seq<Field>, f: nat, p: seq<int>): Tag
    requires f < |fs| && |p| >= fs[f].depth - 1
    requires Preorder(fs)
  {
    if HasSibling(fs, f) then Tag(End(fs, f), p + [0])
    else if Parent(fs, f) < 0 then ROOT
    else ParentDepth(fs, f); Tag(Parent(fs, f), p[..|p|-1] + [p[|p|-1] + 1])
  }

  function FlowTarget(fs: seq<Field>, t: Tag): Option<Tag>
    requires Preorder(fs) && TagOf(fs, t)
  {
    if t == ROOT then (if |fs| > 0 then Some(Tag(0, [0])) else None)
    else if Count(t) >= fs[t.field].Reps() then None
    else if HasChild(fs, t.field) then Some(Tag(t.field + 1, t.indices + [0]))
    else if fs[t.field].IsList() then Some(Tag(t.field, Prefix(t) + [Count(t) + 1]))
    else None
  }

  function ExitTarget(fs: seq<Field>, t: Tag): Option<Tag>
    requires Preorder(fs) && TagOf(fs, t)
  {
    if t == ROOT || Count(t) < fs[t.field].MinReps() then None
    else Some(ExitTo(fs, t.field, Prefix(t)))
  }

  // ---- The longest run ----------------------------------------------------------

  /** The visits to field f below prefix p, from count k on, always preferring the flow edge. */
  ghost function Visit(fs: seq<Field>, f: nat, p: seq<int>, k: int): (r: seq<Tag>)
    requires f < |fs|
    ensures |r| > 0 && r[0] == Tag(f, p + [k])
    decreases |fs| - f, 0, fs[f].Reps() - k
  {
    if k < fs[f].Reps() then
      [Tag(f, p + [k])] + Body(fs, f, p + [k]) + Visit(fs, f, p, k + 1)
    else
      [Tag(f, p + [k])]
  }

  /** The visits to the children of f below prefix q. */
  ghost function Body(fs: seq<Field>, f: nat, q: seq<int>): seq<Tag>
    requires f < |fs|
    decreases |fs| - f - 1, 2
  {
    if HasChild(fs, f) then Siblings(fs, f + 1, q) else []
  }

  /** The visits to f and to all its later siblings below prefix q. */
  ghost function Siblings(fs: seq<Field>, f: nat, q: seq<int>): (r: seq<Tag>)
    requires f < |fs|
    ensures |r| > 0 && r[0] == Tag(f, q + [0])
    decreases |fs| - f, 1
  {
    Visit(fs, f, q, 0) + (if HasSibling(fs, f) then Siblings(fs, End(fs, f), q) else [])
  }

  ghost function Traverse(fs: seq<Field>): (r: seq<Tag>)
    ensures |r| > 0 && r[0] == ROOT
  {
    [ROOT] + (if |fs| > 0 then Siblings(fs, 0, []) else [])
  }

  // ---- The index invariant ------------------------------------------------------

  /** The index discipline of a visited state: every index but the last is strictly below the
      number of repetitions of its ancestor, the last is at most that of the field itself. */
  ghost predicate IndexOk(fs: seq<Field>, t: Tag)
    requires Preorder(fs) && TagOf(fs, t)
    decreases t.field + 1
  {
    t == ROOT || (0 <= Count(t) <= fs[t.field].Reps() && PrefixOk(fs, t.field, Prefix(t)))
  }

  ghost predicate PrefixOk(fs: seq<Field>, f: nat, p: seq<int>)
    requires Preorder(fs) && f < |fs|
    decreases f
  {
    |p| == fs[f].depth - 1 &&
    var g := Parent(fs, f);
    ParentDepth(fs, f);
    g >= 0 ==> 0 <= p[|p|-1] < fs[g].Reps() && PrefixOk(fs, g, p[..|p|-1])
  }

  lemma ChildPrefixOk(fs: seq<Field>, f: nat, p: seq<int>, k: int)
    requires Preorder(fs) && f < |fs| && HasChild(fs, f)
    requires PrefixOk(fs, f, p) && 0 <= k < fs[f].Reps()
    ensures PrefixOk(fs, f + 1, p + [k])
  {
    ChildParent(fs, f);
    ParentDepth(fs, f + 1);
    assert (p + [k])[..|p + [k]| - 1] == p;
  }

  lemma TagIndexOk(fs: seq<Field>, f: nat, p: seq<int>, k: int)
    requires Preorder(fs) && f < |fs| && PrefixOk(fs, f, p) && 0 <= k <= fs[f].Reps()
    ensures TagOf(fs, Tag(f, p + [k])) && IndexOk(fs, Tag(f, p + [k]))
  {
    assert Prefix(Tag(f, p + [k])) == p;
  }

  ghost predicate AllOk(fs: seq<Field>, b: seq<Tag>)
    requires Preorder(fs)
  {
    forall t | t in b :: TagOf(fs, t) && IndexOk(fs, t)
  }

  lemma {:induction false} VisitIndexOk(fs: seq<Field>, f: nat, p: seq<int>, k: int)
    requires WellFormed(fs) && f < |fs| && PrefixOk(fs, f, p) && 0 <= k <= fs[f].Reps()
    ensures AllOk(fs, Visit(fs, f, p, k))
    decreases |fs| - f, 0, fs[f].Reps() - k
  {
    hide PrefixOk, IndexOk, End, Parent, HasSibling;
    assert FieldOk(fs, f);
    TagIndexOk(fs, f, p, k);
    if k < fs[f].Reps() {
      if HasChild(fs, f) {
        ChildPrefixOk(fs, f, p, k);
        SiblingsIndexOk(fs, f + 1, p + [k]);
      }
      VisitIndexOk(fs, f, p, k + 1);
    }
  }

  lemma {:induction false} SiblingsIndexOk(fs: seq<Field>, f: nat, q: seq<int>)
    requires WellFormed(fs) && f < |fs| && PrefixOk(fs, f, q)
    ensures AllOk(fs, Siblings(fs, f, q))
    decreases |fs| - f, 1
  {
    assert FieldOk(fs, f);
    VisitIndexOk(fs, f, q, 0);
    if HasSibling(fs, f) {
      SiblingParent(fs, f);
      SiblingsIndexOk(fs, End(fs, f), q);
    }
  }

  lemma TraverseIndexOk(fs: seq<Field>)
    requires WellFormed(fs)
    ensures AllOk(fs, Traverse(fs))
  {
    if |fs| > 0 {
      ParentDepth(fs, 0);
      SiblingsIndexOk(fs, 0, []);
    }
  }

  lemma IndexNonNegative(fs: seq<Field>, u: Tag)
    requires Preorder(fs) && TagOf(fs, u) && IndexOk(fs, u)
    ensures forall k :: 0 <= k < |u.indices| ==> u.indices[k] >= 0
  {
    if u != ROOT {
      PrefixNonNegative(fs, u.field, Prefix(u));
      assert forall k :: 0 <= k < |u.indices| - 1 ==> u.indices[k] == Prefix(u)[k];
    }
  }

  lemma {:induction false} PrefixNonNegative(fs: seq<Field>, f: nat, p: seq<int>)
    requires Preorder(fs) && f < |fs| && PrefixOk(fs, f, p)
    ensures forall k :: 0 <= k < |p| ==> p[k] >= 0
    decreases f
  {
    ParentDepth(fs, f);
    if Parent(fs, f) >= 0 {
      PrefixNonNegative(fs, Parent(fs, f), p[..|p|-1]);
      hide Parent, PrefixOk;
      assert forall k :: 0 <= k < |p| - 1 ==> p[k] == p[..|p|-1][k];
    }
  }

  // ---- Every edge follows the order ---------------------------------------------

  /** The edge the longest run takes. */
  function Next(fs: seq<Field>, t: Tag): Option<Tag>
    requires Preorder(fs) && TagOf(fs, t)
  {
    if FlowTarget(fs, t).Some? then FlowTarget(fs, t) else ExitTarget(fs, t)
  }

  /** The i-th state of a block, or the one it leaves for. */
  ghost function At(b: seq<Tag>, after: Tag, i: nat): Tag
    requires i <= |b|
  {
    if i < |b| then b[i] else after
  }

  /** The exit edge of t, if it has one, lands on the block at position i or later. */
  ghost predicate ExitsWithin(fs: seq<Field>, t: Tag, b: seq<Tag>, after: Tag, i: nat)
    requires Preorder(fs) && TagOf(fs, t)
  {
    ExitTarget(fs, t).Some? ==> exists j :: i <= j <= |b| && At(b, after, j) == ExitTarget(fs, t).value
  }

  /** The i-th state of the block moves on to the next one, and its exit edge goes further. */
  ghost predicate StepsOn(fs: seq<Field>, b: seq<Tag>, after: Tag, i: nat)
    requires Preorder(fs) && i < |b|
  {
    && TagOf(fs, b[i])
    && Next(fs, b[i]) == Some(At(b, after, i + 1))
    && ExitsWithin(fs, b[i], b, after, i + 1)
  }

  /** A block of the run: it moves on by one state at a time, leaves for `after`, and every
      exit edge inside it lands strictly later. */
  ghost predicate Forward(fs: seq<Field>, b: seq<Tag>, after: Tag)
    requires Preorder(fs)
  {
    forall i :: 0 <= i < |b| ==> StepsOn(fs, b, after, i)
  }

  lemma ForwardConcat(fs: seq<Field>, a: seq<Tag>, b: seq<Tag>, after: Tag)
    requires Preorder(fs) && |b| > 0
    requires Forward(fs, a, b[0]) && Forward(fs, b, after)
    ensures Forward(fs, a + b, after)
  {
    hide ExitTarget, Next, FlowTarget, TagOf;
    var c := a + b;
    forall i | 0 <= i < |c|
      ensures StepsOn(fs, c, after, i)
    {
      if i < |a| {
        assert c[i] == a[i] && StepsOn(fs, a, b[0], i);
        if ExitTarget(fs, a[i]).Some? {
          var j :| i + 1 <= j <= |a| && At(a, b[0], j) == ExitTarget(fs, a[i]).value;
          assert At(c, after, j) == At(a, b[0], j);
        }
      } else {
        var m := i - |a|;
        assert c[i] == b[m] && StepsOn(fs, b, after, m);
        assert At(c, after, i + 1) == At(b, after, m + 1);
        if ExitTarget(fs, b[m]).Some? {
          var j :| m + 1 <= j <= |b| && At(b, after, j) == ExitTarget(fs, b[m]).value;
          assert At(c, after, |a| + j) == At(b, after, j);
        }
      }
    }
  }

  /** A block of one state. */
  lemma ForwardOne(fs: seq<Field>, t: Tag, n: Tag)
    requires Preorder(fs) && TagOf(fs, t)
    requires Next(fs, t) == Some(n)
    requires ExitTarget(fs, t).Some? ==> ExitTarget(fs, t).value == n
    ensures Forward(fs, [t], n)
  {
    hide ExitTarget, Next, FlowTarget, TagOf;
    assert At([t], n, 1) == n;
  }

  lemma ForwardCons(fs: seq<Field>, t: Tag, b: seq<Tag>, after: Tag)
    requires Preorder(fs) && TagOf(fs, t) && |b| > 0 && Forward(fs, b, after)
    requires Next(fs, t) == Some(b[0])
    requires ExitTarget(fs, t).Some? ==> ExitTarget(fs, t).value == after
    ensures Forward(fs, [t] + b, after)
  {
    hide ExitTarget, Next, FlowTarget, TagOf;
    var c := [t] + b;
    forall i | 0 <= i < |c|
      ensures StepsOn(fs, c, after, i)
    {
      if i == 0 {
        assert At(c, after, |c|) == after;
      } else {
        assert c[i] == b[i-1] && StepsOn(fs, b, after, i - 1);
        assert At(c, after, i + 1) == At(b, after, i);
        if ExitTarget(fs, c[i]).Some? {
          var j :| i <= j <= |b| && At(b, after, j) == ExitTarget(fs, b[i-1]).value;
          assert At(c, after, j + 1) == At(b, after, j);
        }
      }
    }
  }

  /** The edges of the k-th visit to f below p. */
  lemma VisitEdges(fs: seq<Field>, f: nat, p: seq<int>, k: int)
    requires WellFormed(fs) && f < |fs| && |p| == fs[f].depth - 1 && 0 <= k <= fs[f].Reps()
    ensures TagOf(fs, Tag(f, p + [k]))
    ensures ExitTarget(fs, Tag(f, p + [k])) == if k < fs[f].MinReps() then None else Some(ExitTo(fs, f, p))
    ensures FlowTarget(fs, Tag(f, p + [k])) ==
            if k == fs[f].Reps() then None
            else if HasChild(fs, f) then Some(Tag(f + 1, p + [k] + [0]))
            else Some(Tag(f, p + [k + 1]))
  {
    hide HasSibling, ExitTo;
    assert FieldOk(fs, f);
    assert Prefix(Tag(f, p + [k])) == p;
  }

  lemma VisitUnfold(fs: seq<Field>, f: nat, p: seq<int>, k: int)
    requires f < |fs|
    ensures Visit(fs, f, p, k) == (
      if k >= fs[f].Reps() then [Tag(f, p + [k])]
      else if HasChild(fs, f) then [Tag(f, p + [k])] + (Siblings(fs, f + 1, p + [k]) + Visit(fs, f, p, k + 1))
      else [Tag(f, p + [k])] + Visit(fs, f, p, k + 1))
  {
    hide Siblings, End, HasSibling;
  }

  lemma {:induction false} VisitForward(fs: seq<Field>, f: nat, p: seq<int>, k: int)
    requires WellFormed(fs) && f < |fs| && |p| == fs[f].depth - 1 && 0 <= k <= fs[f].Reps()
    ensures Forward(fs, Visit(fs, f, p, k), ExitTo(fs, f, p))
    decreases |fs| - f, 0, fs[f].Reps() - k
  {
    hide Forward, ExitTo, ExitTarget, FlowTarget, AfterSiblings, End, Parent, HasSibling, TagOf, Visit, Siblings, Body;
    VisitUnfold(fs, f, p, k);
    assert FieldOk(fs, f);
    var t := Tag(f, p + [k]);
    var after := ExitTo(fs, f, p);
    VisitEdges(fs, f, p, k);
    if k < fs[f].Reps() {
      var rest := Visit(fs, f, p, k + 1);
      VisitForward(fs, f, p, k + 1);
      if HasChild(fs, f) {
        var body := Siblings(fs, f + 1, p + [k]);
        ChildAfter(fs, f, p, k);
        SiblingsForward(fs, f + 1, p + [k]);
        ForwardConcat(fs, body, rest, after);
        ForwardCons(fs, t, body + rest, after);
      } else {
        ForwardCons(fs, t, rest, after);
      }
    } else {
      ForwardOne(fs, t, after);
    }
  }

  /** Where the last of the siblings of f leaves to. */
  ghost function AfterSiblings(fs: seq<Field>, f: nat, q: seq<int>): Tag
    requires f < |fs| && Preorder(fs) && |q| == fs[f].depth - 1
  {
    if Parent(fs, f) < 0 then ROOT
    else ParentDepth(fs, f); Tag(Parent(fs, f), q[..|q|-1] + [q[|q|-1] + 1])
  }

  /** The children of f leave for the next visit to f. */
  lemma ChildAfter(fs: seq<Field>, f: nat, p: seq<int>, k: int)
    requires Preorder(fs) && f < |fs| && |p| == fs[f].depth - 1 && HasChild(fs, f)
    ensures fs[f+1].depth - 1 == |p + [k]|
    ensures AfterSiblings(fs, f + 1, p + [k]) == Tag(f, p + [k + 1])
  {
    ChildParent(fs, f);
    ParentDepth(fs, f + 1);
    assert (p + [k])[..|p + [k]| - 1] == p;
  }

  lemma {:induction false} SiblingsForward(fs: seq<Field>, f: nat, q: seq<int>)
    requires WellFormed(fs) && f < |fs| && |q| == fs[f].depth - 1
    ensures Forward(fs, Siblings(fs, f, q), AfterSiblings(fs, f, q))
    decreases |fs| - f, 1
  {
    assert FieldOk(fs, f);
    VisitForward(fs, f, q, 0);
    if HasSibling(fs, f) {
      SiblingParent(fs, f);
      SiblingsForward(fs, End(fs, f), q);
      ForwardConcat(fs, Visit(fs, f, q, 0), Siblings(fs, End(fs, f), q), AfterSiblings(fs, f, q));
    } else {
      assert Siblings(fs, f, q) == Visit(fs, f, q, 0);
    }
  }

  lemma TraverseForward(fs: seq<Field>)
    requires WellFormed(fs) && |fs| > 0
    ensures Forward(fs, Traverse(fs), ROOT)
  {
    ParentDepth(fs, 0);
    SiblingsForward(fs, 0, []);
    assert [] + [0] == [0];
    ForwardCons(fs, ROOT, Siblings(fs, 0, []), ROOT);
  }

  // ---- No state is visited twice ------------------------------------------------

  ghost predicate NoDup<T>(s: seq<T>) {
    forall i, j :: 0 <= i < j < |s| ==> s[i] != s[j]
  }

  lemma NoDupConcat<T>(a: seq<T>, b: seq<T>)
    requires NoDup(a) && NoDup(b)
    requires forall x | x in a :: x !in b
    ensures NoDup(a + b)
  {
    var c := a + b;
    forall i, j | 0 <= i < j < |c| ensures c[i] != c[j] {
      if i < |a| <= j {
        assert c[i] == a[i] && c[i] in a;
        assert c[j] == b[j - |a|] && c[j] in b;
      }
    }
  }

  /** States of the subtree of f below prefix p whose index at the level of f is at least k. */
  ghost predicate Within(fs: seq<Field>, t: Tag, f: nat, p: seq<int>, k: int)
    requires f < |fs|
  {
    && f <= t.field < End(fs, f)
    && |t.indices| > |p| && t.indices[..|p|] == p && t.indices[|p|] >= k
    && (t.field == f ==> |t.indices| == |p| + 1)
    && (t.field > f ==> |t.indices| > |p| + 1)
  }

  lemma {:induction false} VisitDistinct(fs: seq<Field>, f: nat, p: seq<int>, k: int)
    requires Preorder(fs) && f < |fs|
    ensures forall t | t in Visit(fs, f, p, k) :: Within(fs, t, f, p, k)
    ensures NoDup(Visit(fs, f, p, k))
    decreases |fs| - f, 0, fs[f].Reps() - k
  {
    hide End, Parent, HasSibling;
    if k < fs[f].Reps() {
      var head := [Tag(f, p + [k])];
      var body := Body(fs, f, p + [k]);
      var rest := Visit(fs, f, p, k + 1);
      VisitDistinct(fs, f, p, k + 1);
      if HasChild(fs, f) {
        EndSpans(fs, f);
        assert NoJump(fs, f + 1);
        SiblingsDistinct(fs, f + 1, p + [k], End(fs, f));
      }
      forall t | t in body
        ensures Within(fs, t, f, p, k) && |t.indices| > |p| + 1 && t.indices[|p|] == k
      {
        assert t.indices[..|p|] == t.indices[..|p| + 1][..|p|];
        assert t.indices[|p|] == t.indices[..|p| + 1][|p|];
      }
      assert (p + [k])[..|p|] == p;
      NoDupConcat(head, body);
      assert forall t: Tag | t in head + body :: |t.indices| > |p| && t.indices[|p|] == k;
      NoDupConcat(head + body, rest);
    }
  }

  lemma {:induction false} SiblingsDistinct(fs: seq<Field>, f: nat, q: seq<int>, e: nat)
    requires Preorder(fs) && f < e <= |fs|
    requires forall m :: f <= m < e ==> fs[m].depth >= fs[f].depth
    requires e < |fs| ==> fs[e].depth < fs[f].depth
    ensures forall t | t in Siblings(fs, f, q) :: f <= t.field < e && |t.indices| > |q| && t.indices[..|q|] == q
    ensures NoDup(Siblings(fs, f, q))
    decreases |fs| - f, 1
  {
    VisitDistinct(fs, f, q, 0);
    EndSpans(fs, f);
    if HasSibling(fs, f) {
      SiblingsDistinct(fs, End(fs, f), q, e);
      NoDupConcat(Visit(fs, f, q, 0), Siblings(fs, End(fs, f), q));
    }
  }

  lemma TraverseDistinct(fs: seq<Field>)
    requires Preorder(fs)
    ensures NoDup(Traverse(fs))
  {
    if |fs| > 0 {
      SiblingsDistinct(fs, 0, [], |fs|);
      NoDupConcat([ROOT], Siblings(fs, 0, []));
    } else {
      assert Traverse(fs) == [ROOT];
    }
  }
}
