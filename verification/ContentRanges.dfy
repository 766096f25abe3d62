/** Checking the content against the ranges of the table before anything is built, and what that rules out. */
module ContentRanges {
  import opened Schema
  import opened Traversal
  import opened Documents

  /** The array the document holds for field f, if any, is long enough, and so are those inside it. */
  ghost predicate LongEnough(fs: seq<Field>, d: Doc, f: nat)
    requires f < |fs|
    decreases |fs| - f, 0
  {
    var v := ObjGet(d, fs[f].name);
    v.Some? ==>
      if fs[f].IsList() then
        v.value.Array? ==>
          && fs[f].range.value.0 <= |v.value.items|
          && forall i | 0 <= i < |v.value.items| && v.value.items[i].Object? :: ChildrenLongEnough(fs, v.value.items[i], f)
      else
        fs[f].IsRecord() && v.value.Object? ==> ChildrenLongEnough(fs, v.value, f)
  }

  ghost predicate ChildrenLongEnough(fs: seq<Field>, d: Doc, p: int)
    requires -1 <= p < |fs|
    decreases |fs| - p - 1, 1
  {
    forall i: nat | i < |fs| && Parent(fs, i) == p :: LongEnough(fs, d, i)
  }

  // ---- The field the error names ------------------------------------------------------------------

  /** The first field with too short an array, when the document is searched for field f and below. */
  function FirstShort(fs: seq<Field>, d: Doc, f: nat): (r: Option<int>)
    requires f < |fs|
    ensures r.Some? ==> f <= r.value < |fs| && fs[r.value].IsList()
    decreases |fs| - f, 0, 0
  {
    var v := ObjGet(d, fs[f].name);
    if v.None? then None
    else if fs[f].IsList() then
      if !v.value.Array? then None
      else if |v.value.items| < fs[f].range.value.0 then Some(f)
      else FirstShortItem(fs, v.value.items, f, 0)
    else if fs[f].IsRecord() && v.value.Object? then FirstShortChild(fs, v.value, f, 0)
    else None
  }

  function FirstShortItem(fs: seq<Field>, items: seq<Doc>, f: nat, i: nat): (r: Option<int>)
    requires f < |fs| && i <= |items|
    ensures r.Some? ==> f <= r.value < |fs| && fs[r.value].IsList()
    decreases |fs| - f - 1, 2, |items| - i
  {
    if i == |items| then None
    else
      var r := if items[i].Object? then FirstShortChild(fs, items[i], f, 0) else None;
      if r.Some? then r else FirstShortItem(fs, items, f, i + 1)
  }

  function FirstShortChild(fs: seq<Field>, d: Doc, p: int, i: nat): (r: Option<int>)
    requires -1 <= p < |fs| && i <= |fs|
    ensures r.Some? ==> p < r.value < |fs| && fs[r.value].IsList()
    decreases |fs| - p - 1, 1, |fs| - i
  {
    if i == |fs| then None
    else
      var r := if Parent(fs, i) == p then FirstShort(fs, d, i) else None;
      if r.Some? then r else FirstShortChild(fs, d, p, i + 1)
  }

  /** There is one exactly when some array is too short. */
  lemma {:induction false} ShortFound(fs: seq<Field>, d: Doc, f: nat)
    requires f < |fs|
    ensures FirstShort(fs, d, f).None? <==> LongEnough(fs, d, f)
    decreases |fs| - f, 0, 0
  {
    hide ChildrenLongEnough, FirstShortItem, FirstShortChild;
    var v := ObjGet(d, fs[f].name);
    if v.Some? {
      if fs[f].IsList() && v.value.Array? { ItemsFound(fs, v.value.items, f, 0); }
      ChildrenFound(fs, v.value, f);
    }
  }

  lemma {:induction false} ItemsFound(fs: seq<Field>, items: seq<Doc>, f: nat, i: nat)
    requires f < |fs| && i <= |items|
    ensures FirstShortItem(fs, items, f, i).None? <==>
      forall k | i <= k < |items| && items[k].Object? :: ChildrenLongEnough(fs, items[k], f)
    decreases |fs| - f - 1, 3, |items| - i
  {
    hide ChildrenLongEnough, FirstShortChild;
    if i < |items| {
      ItemsFound(fs, items, f, i + 1);
      ChildrenFound(fs, items[i], f);
    }
  }

  lemma {:induction false} ChildrenFound(fs: seq<Field>, d: Doc, p: int)
    requires -1 <= p < |fs|
    ensures FirstShortChild(fs, d, p, 0).None? <==> ChildrenLongEnough(fs, d, p)
    decreases |fs| - p - 1, 2, 0
  {
    ChildrenFoundFrom(fs, d, p, 0);
  }

  lemma {:induction false} ChildrenFoundFrom(fs: seq<Field>, d: Doc, p: int, i: nat)
    requires -1 <= p < |fs| && i <= |fs|
    ensures FirstShortChild(fs, d, p, i).None? <==>
      forall k: nat | i <= k < |fs| && Parent(fs, k) == p :: LongEnough(fs, d, k)
    decreases |fs| - p - 1, 1, |fs| - i
  {
    hide LongEnough, FirstShort, Parent;
    if i < |fs| {
      if Parent(fs, i) == p { ShortFound(fs, d, i); }
      ChildrenFoundFrom(fs, d, p, i + 1);
    }
  }

  /** The array of field g is too short, and whatever comes before it, in the order of the items and of the fields, is long
      enough: the array of f itself, or of a field inside the first item that has one too short. */
  ghost predicate Blames(fs: seq<Field>, d: Doc, f: nat, g: int)
    requires f < |fs|
    decreases |fs| - f, 0
  {
    var v := ObjGet(d, fs[f].name);
    v.Some? &&
      if fs[f].IsList() then
        v.value.Array? &&
        if |v.value.items| < fs[f].range.value.0 then g == f
        else exists k :: 0 <= k < |v.value.items| && v.value.items[k].Object? && ChildBlamed(fs, v.value.items[k], f, g)
                         && ItemsFine(fs, v.value.items[..k], f)
      else
        fs[f].IsRecord() && v.value.Object? && ChildBlamed(fs, v.value, f, g)
  }

  ghost predicate ChildBlamed(fs: seq<Field>, d: Doc, p: int, g: int)
    requires -1 <= p < |fs|
    decreases |fs| - p - 1, 1
  {
    exists i: nat :: i < |fs| && Parent(fs, i) == p && Blames(fs, d, i, g) && ChildrenFine(fs, d, p, i)
  }

  ghost predicate ItemsFine(fs: seq<Field>, items: seq<Doc>, f: nat)
    requires f < |fs|
  {
    forall k | 0 <= k < |items| && items[k].Object? :: ChildrenLongEnough(fs, items[k], f)
  }

  ghost predicate ChildrenFine(fs: seq<Field>, d: Doc, p: int, n: nat)
    requires -1 <= p < |fs| && n <= |fs|
  {
    forall j: nat | j < n && Parent(fs, j) == p :: LongEnough(fs, d, j)
  }

  /** The field named is the first whose array is too short. */
  lemma {:induction false} ShortIsFirst(fs: seq<Field>, d: Doc, f: nat, g: int)
    requires f < |fs| && FirstShort(fs, d, f) == Some(g)
    ensures Blames(fs, d, f, g)
    decreases |fs| - f, 0, 0
  {
    hide FirstShortItem, FirstShortChild, ChildBlamed, ChildrenLongEnough;
    var v := ObjGet(d, fs[f].name);
    if fs[f].IsList() {
      if |v.value.items| >= fs[f].range.value.0 { var k := ItemIsFirst(fs, v.value.items, f, 0, g); }
    } else {
      ChildIsFirst(fs, v.value, f, 0, g);
    }
  }

  lemma {:induction false} ItemIsFirst(fs: seq<Field>, items: seq<Doc>, f: nat, i: nat, g: int) returns (k: nat)
    requires f < |fs| && i <= |items| && FirstShortItem(fs, items, f, i) == Some(g) && ItemsFine(fs, items[..i], f)
    ensures k < |items| && items[k].Object? && ChildBlamed(fs, items[k], f, g) && ItemsFine(fs, items[..k], f)
    decreases |fs| - f - 1, 3, |items| - i
  {
    hide ChildrenLongEnough, FirstShortChild, ChildBlamed;
    if items[i].Object? && FirstShortChild(fs, items[i], f, 0).Some? {
      k := i;
      ChildIsFirst(fs, items[i], f, 0, g);
    } else {
      if items[i].Object? { ChildrenFound(fs, items[i], f); }
      assert items[..i+1] == items[..i] + [items[i]];
      k := ItemIsFirst(fs, items, f, i + 1, g);
    }
  }

  lemma {:induction false} ChildIsFirst(fs: seq<Field>, d: Doc, p: int, i: nat, g: int)
    requires -1 <= p < |fs| && i <= |fs| && FirstShortChild(fs, d, p, i) == Some(g) && ChildrenFine(fs, d, p, i)
    ensures ChildBlamed(fs, d, p, g)
    decreases |fs| - p - 1, 1, |fs| - i
  {
    hide LongEnough, FirstShort, Parent, Blames;
    if Parent(fs, i) == p { ShortFound(fs, d, i); }
    if Parent(fs, i) == p && FirstShort(fs, d, i).Some? {
      ShortIsFirst(fs, d, i, g);
    } else {
      ChildIsFirst(fs, d, p, i + 1, g);
    }
  }

  /** Walker::check: the first field, in the order of the walk, whose array is too short. */
  method Check(fs: seq<Field>, parent: seq<int>, d: Doc, f: nat) returns (short: Option<int>)
    requires f < |fs| && ParentMap(fs, parent)
    ensures short == FirstShort(fs, d, f)
    decreases |fs| - f, 0
  {
    hide FirstShortChild, Parent;
    var v := ObjGet(d, fs[f].name);
    if v.None? { return None; }
    if fs[f].IsList() {
      if v.value.Array? {
        var items := v.value.items;
        if |items| < fs[f].range.value.0 { return Some(f); }
        for i := 0 to |items|
          invariant FirstShort(fs, d, f) == FirstShortItem(fs, items, f, i)
        {
          if items[i].Object? {
            short := CheckChildren(fs, parent, items[i], f);
            if short.Some? { return; }
          }
        }
      }
    } else if fs[f].IsRecord() && v.value.Object? {
      short := CheckChildren(fs, parent, v.value, f);
      return;
    }
    return None;
  }

  method CheckChildren(fs: seq<Field>, parent: seq<int>, d: Doc, p: int) returns (short: Option<int>)
    requires -1 <= p < |fs| && ParentMap(fs, parent)
    ensures short == FirstShortChild(fs, d, p, 0)
    decreases |fs| - p - 1, 1
  {
    hide FirstShort, Parent;
    for i := 0 to |fs|
      invariant FirstShortChild(fs, d, p, 0) == FirstShortChild(fs, d, p, i)
    {
      if parent[i] == p {
        short := Check(fs, parent, d, i);
        if short.Some? { return; }
      }
    }
    return None;
  }

  /** validate_content_ranges: it names the first field with too short an array, and passes exactly the
      content in which every array is long enough. */
  method ValidateContentRanges(fs: seq<Field>, parent: seq<int>, content: Doc) returns (short: Option<int>)
    requires ParentMap(fs, parent)
    ensures short == FirstShortChild(fs, content, -1, 0)
    ensures short.None? <==> ChildrenLongEnough(fs, content, -1)
    ensures short.Some? ==> ChildBlamed(fs, content, -1, short.value)
  {
    hide FirstShortChild, ChildBlamed, ChildrenLongEnough;
    short := CheckChildren(fs, parent, content, -1);
    ChildrenFound(fs, content, -1);
    if short.Some? { ChildIsFirst(fs, content, -1, 0, short.value); }
  }

  // ---- What it rules out --------------------------------------------------------------------------

  /** The state around t: the enclosing field below the same indices. */
  function Encl(fs: seq<Field>, t: Tag): Tag
    requires 0 <= t.field < |fs| && |t.indices| > 0
  {
    if Parent(fs, t.field) < 0 then ROOT else Tag(Parent(fs, t.field), Prefix(t))
  }

  /** No list runs out of content before its lower bound. */
  ghost predicate NoShortage(fs: seq<Field>, content: Doc)
    requires Preorder(fs)
  {
    forall t | t in Traverse(fs) && TagOf(fs, t) :: !Short(fs, content, t)
  }

  ghost predicate Short(fs: seq<Field>, content: Doc, t: Tag)
    requires Preorder(fs) && TagOf(fs, t)
  {
    t != ROOT && fs[t.field].IsList() && 0 <= Count(t) < fs[t.field].MinReps()
    && !Skip(content, fs, Encl(fs, t)) && Skip(content, fs, t)
  }

  /** No array where the table wants an object, no object where it wants an array. */
  ghost predicate Conforms(fs: seq<Field>, d: Doc, f: nat)
    requires f < |fs|
    decreases |fs| - f, 0
  {
    var v := ObjGet(d, fs[f].name);
    v.Some? && fs[f].IsRecord() ==>
      if fs[f].IsList() then
        !v.value.Object? && (v.value.Array? ==> forall i | 0 <= i < |v.value.items| :: ChildrenConform(fs, v.value.items[i], f))
      else
        ChildrenConform(fs, v.value, f)
  }

  ghost predicate ChildrenConform(fs: seq<Field>, d: Doc, p: int)
    requires -1 <= p < |fs|
    decreases |fs| - p - 1, 1
  {
    !d.Array? && (d.Object? ==> forall i: nat | i < |fs| && Parent(fs, i) == p :: Conforms(fs, d, i))
  }

  /** What is neither an object nor an array ends no list. */
  lemma {:induction false} FlatNeverSkips(d: Doc, fs: seq<Field>, chain: seq<nat>, indices: seq<int>, a: nat)
    requires a <= |chain| && forall k :: 0 <= k < |chain| ==> chain[k] < |fs|
    requires !d.Object? && !d.Array?
    ensures !SkipFrom(d, fs, chain, indices, a)
    decreases |chain| - a
  {
    if a < |chain| { FlatNeverSkips(d, fs, chain, indices, a + 1); }
  }

  /** A document in which the children of p can be looked up without surprise. */
  ghost predicate Fine(fs: seq<Field>, d: Doc, p: int)
    requires -1 <= p < |fs|
  {
    !d.Array? && (d.Object? ==> ChildrenLongEnough(fs, d, p) && ChildrenConform(fs, d, p))
  }

  lemma EnterFine(fs: seq<Field>, d: Doc, f: nat, idx: int)
    requires f < |fs| && fs[f].IsRecord() && Fine(fs, d, Parent(fs, f)) && d.Object?
    requires ObjGet(d, fs[f].name).Some?
    ensures var e := ObjGet(d, fs[f].name).value;
      if !fs[f].IsList() then Fine(fs, e, f)
      else !e.Object? && (e.Array? && 0 <= idx < |e.items| ==> Fine(fs, e.items[idx], f))
  {
    hide Parent;
    assert LongEnough(fs, d, f) && Conforms(fs, d, f);
  }

  lemma LastLongEnough(fs: seq<Field>, d: Doc, f: nat)
    requires f < |fs| && fs[f].IsList() && Fine(fs, d, Parent(fs, f)) && d.Object? && ObjGet(d, fs[f].name).Some?
    ensures var e := ObjGet(d, fs[f].name).value; e.Array? ==> fs[f].MinReps() <= |e.items|
  {
    hide Parent, ChildrenConform;
    assert LongEnough(fs, d, f);
  }

  lemma SkipUnfold(d: Doc, fs: seq<Field>, chain: seq<nat>, indices: seq<int>, a: nat)
    requires a < |chain| <= |indices| && forall k :: 0 <= k < |chain| ==> chain[k] < |fs|
    requires indices[a] >= 0 && d.Object?
    ensures SkipFrom(d, fs, chain, indices, a) <==>
      var v := ObjGet(d, fs[chain[a]].name);
      v.Some? &&
        if fs[chain[a]].IsList() && v.value.Array? then
          indices[a] >= |v.value.items| || SkipFrom(v.value.items[indices[a]], fs, chain, indices, a + 1)
        else SkipFrom(v.value, fs, chain, indices, a + 1)
  {
  }

  /** The descent from level a on, along the ancestors of a field: if no list ends on the way to the
      enclosing state and the last index is below the lower bound, then no list ends at all. */
  lemma {:induction false} DescentLongEnough(fs: seq<Field>, d: Doc, chain: seq<nat>, short: seq<nat>, indices: seq<int>, a: nat)
    requires a < |chain| <= |indices| && forall k :: 0 <= k < |chain| ==> chain[k] < |fs|
    requires short == chain[..|chain|-1] && forall k :: 0 <= k < |chain| ==> Linked(fs, chain, k)
    requires forall k :: 0 <= k < |short| ==> fs[short[k]].IsRecord()
    requires Fine(fs, d, Parent(fs, chain[a]))
    requires fs[chain[|chain|-1]].IsList() && indices[|chain|-1] < fs[chain[|chain|-1]].MinReps()
    requires forall k :: 0 <= k < |chain| ==> indices[k] >= 0
    requires !SkipFrom(d, fs, short, indices, a)
    ensures !SkipFrom(d, fs, chain, indices, a)
    decreases |chain| - a
  {
    hide Fine, SkipFrom, Parent;
    if !d.Object? {
      FineFlat(fs, d, Parent(fs, chain[a]));
      FlatNeverSkips(d, fs, chain, indices, a);
      return;
    }
    var f := chain[a];
    SkipUnfold(d, fs, chain, indices, a);
    var v := ObjGet(d, fs[f].name);
    if v.Some? {
      if a + 1 == |chain| {
        LastLongEnough(fs, d, f);
        SkipEnd(fs, chain, indices);
      } else {
        SkipUnfold(d, fs, short, indices, a);
        assert short[a] == f;
        EnterFine(fs, d, f, indices[a]);
        assert Linked(fs, chain, a + 1);
        if fs[f].IsList() && !v.value.Array? {
          FlatNeverSkips(v.value, fs, chain, indices, a + 1);
        } else {
          var n := if fs[f].IsList() then v.value.items[indices[a]] else v.value;
          DescentLongEnough(fs, n, chain, short, indices, a + 1);
        }
      }
    }
  }

  lemma FineFlat(fs: seq<Field>, d: Doc, p: int)
    requires -1 <= p < |fs| && Fine(fs, d, p) && !d.Object?
    ensures !d.Array?
  {
  }

  lemma SkipEnd(fs: seq<Field>, chain: seq<nat>, indices: seq<int>)
    requires forall k :: 0 <= k < |chain| ==> chain[k] < |fs|
    ensures forall d :: !SkipFrom(d, fs, chain, indices, |chain|)
  {
  }

  ghost predicate Linked(fs: seq<Field>, chain: seq<nat>, k: nat)
    requires k < |chain| && chain[k] < |fs|
  {
    Parent(fs, chain[k]) == if k == 0 then -1 else chain[k-1]
  }

  /** Indices beyond the chain do not matter. */
  lemma {:induction false} SkipIndices(d: Doc, fs: seq<Field>, chain: seq<nat>, i0: seq<int>, i1: seq<int>, a: nat)
    requires a <= |chain| && forall k :: 0 <= k < |chain| ==> chain[k] < |fs|
    requires forall k :: a <= k < |chain| ==> IndexAt(i0, k) == IndexAt(i1, k)
    ensures SkipFrom(d, fs, chain, i0, a) == SkipFrom(d, fs, chain, i1, a)
    decreases |chain| - a
  {
    if a < |chain| {
      var child := ObjGet(d, fs[chain[a]].name);
      var e := if child.Some? then child.value else d;
      if fs[chain[a]].IsList() && e.Array? {
        if 0 <= IndexAt(i0, a) < |e.items| { SkipIndices(e.items[IndexAt(i0, a)], fs, chain, i0, i1, a + 1); }
      } else {
        SkipIndices(e, fs, chain, i0, i1, a + 1);
      }
    }
  }

  /** Content that passes the check and has no stray container never runs short. */
  lemma ValidatedNeverShort(fs: seq<Field>, content: Doc)
    requires WellFormed(fs) && ChildrenLongEnough(fs, content, -1) && ChildrenConform(fs, content, -1)
    ensures NoShortage(fs, content)
  {
    hide Traverse, ChildrenLongEnough, ChildrenConform, Skip;
    TraverseIndexOk(fs);
    forall t | t in Traverse(fs) && TagOf(fs, t) ensures !Short(fs, content, t) {
      if t != ROOT && fs[t.field].IsList() && Count(t) < fs[t.field].MinReps() && !Skip(content, fs, Encl(fs, t)) {
        NotShort(fs, content, t);
      }
    }
  }

  lemma NotShort(fs: seq<Field>, content: Doc, t: Tag)
    requires WellFormed(fs) && ChildrenLongEnough(fs, content, -1) && ChildrenConform(fs, content, -1)
    requires TagOf(fs, t) && IndexOk(fs, t) && t != ROOT && fs[t.field].IsList() && Count(t) < fs[t.field].MinReps()
    requires !Skip(content, fs, Encl(fs, t))
    ensures !Skip(content, fs, t)
  {
    hide ChildrenLongEnough, ChildrenConform, SkipFrom, Parent, PrefixOk, HasChild, Ancestors, IndexOk, FieldOk,
      Preorder, Encl, Fine, Linked;
    var f := t.field;
    var chain := Ancestors(fs, f);
    AncestorDepths(fs, f);
    IndexNonNegative(fs, t);
    ChainLinked(fs, f);
    EnclSkip(fs, content, t);
    ConformsRoot(fs, content);
    ChainTop(fs, f);
    DescentLongEnough(fs, content, chain, chain[..|chain|-1], t.indices, 0);
  }

  lemma ChainTop(fs: seq<Field>, f: nat)
    requires f < |fs|
    ensures Ancestors(fs, f)[0] < |fs| && Parent(fs, Ancestors(fs, f)[0]) == -1
  {
    AncestorParent(fs, f, 0);
  }

  /** All ancestors but the last one are records. */
  lemma ChainLinked(fs: seq<Field>, f: nat)
    requires WellFormed(fs) && f < |fs|
    ensures var chain := Ancestors(fs, f);
      && (forall k :: 0 <= k < |chain| ==> chain[k] < |fs| && Linked(fs, chain, k))
      && forall k :: 0 <= k < |chain| - 1 ==> fs[chain[k]].IsRecord()
  {
    hide Parent, HasChild, Ancestors;
    var chain := Ancestors(fs, f);
    forall k | 0 <= k < |chain| ensures Linked(fs, chain, k) && (k < |chain| - 1 ==> fs[chain[k]].IsRecord()) {
      AncestorParent(fs, f, k);
      if k < |chain| - 1 {
        AncestorParent(fs, f, k + 1);
        ParentHasChild(fs, chain[k+1]);
        assert FieldOk(fs, chain[k]);
      }
    }
  }

  lemma ConformsRoot(fs: seq<Field>, content: Doc)
    requires ChildrenLongEnough(fs, content, -1) && ChildrenConform(fs, content, -1)
    ensures Fine(fs, content, -1)
  {
  }

  /** Skipping the state around t is the descent without the last level. */
  lemma EnclSkip(fs: seq<Field>, content: Doc, t: Tag)
    requires Preorder(fs) && TagOf(fs, t) && t != ROOT
    ensures |Ancestors(fs, t.field)| <= |t.indices|
    ensures Skip(content, fs, Encl(fs, t)) ==
      SkipFrom(content, fs, Ancestors(fs, t.field)[..|Ancestors(fs, t.field)|-1], t.indices, 0)
  {
    hide SkipFrom, Parent;
    var f := t.field;
    AncestorDepths(fs, f);
    var short := Ancestors(fs, f)[..|Ancestors(fs, f)|-1];
    if Parent(fs, f) >= 0 {
      assert Ancestors(fs, f) == Ancestors(fs, Parent(fs, f)) + [f];
      assert short == Ancestors(fs, Parent(fs, f));
      assert forall k :: 0 <= k < |short| ==> IndexAt(Prefix(t), k) == IndexAt(t.indices, k);
      SkipIndices(content, fs, short, Prefix(t), t.indices, 0);
    } else {
      assert Ancestors(fs, f) == [f];
      SkipEnd(fs, short, t.indices);
    }
  }
}
