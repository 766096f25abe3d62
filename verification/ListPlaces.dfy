/** Where a list stands in the longest run: the elements of a leaf list below given indices make up one block, behind the
    state around it and what comes before the list in there. */
module ListPlaces {
  import opened Schema
  import opened Traversal
  import opened Concretize
  import opened LinearGraph
  import opened Language
  import opened Instances

  /** Field f below the indices q, one for each level above it. */
  datatype Place = Place(f: nat, q: seq<int>)

  function Elem(pl: Place, k: int): Tag {
    Tag(pl.f, pl.q + [k])
  }

  /** The field around the place, -1 at the top. */
  function Outer(fs: seq<Field>, pl: Place): int
    requires pl.f < |fs|
  {
    Parent(fs, pl.f)
  }

  /** The state around the place. */
  function Around(fs: seq<Field>, pl: Place): Tag
    requires pl.f < |fs|
  {
    if Outer(fs, pl) < 0 then ROOT else Tag(Outer(fs, pl), pl.q)
  }

  /** A list, and indices that open the state around it: for a record its first visit, for a list an element. */
  ghost predicate PlaceAt(fs: seq<Field>, pl: Place) {
    && pl.f < |fs| && fs[pl.f].IsList() && |pl.q| == fs[pl.f].depth - 1
    && (Outer(fs, pl) >= 0 && |pl.q| > 0 ==> pl.q[|pl.q|-1] < fs[Outer(fs, pl)].Reps())
  }

  /** A leaf list. */
  ghost predicate ListAt(fs: seq<Field>, pl: Place) {
    PlaceAt(fs, pl) && !fs[pl.f].IsRecord()
  }

  /** Behind the state around the place, but in front of the list. */
  ghost predicate Inside(fs: seq<Field>, pl: Place, t: Tag)
    requires pl.f < |fs|
  {
    Outer(fs, pl) < t.field < pl.f && pl.q <= t.indices
  }

  /** At or behind the state around the place, but in front of the list. */
  ghost predicate Before(fs: seq<Field>, pl: Place, t: Tag)
    requires pl.f < |fs|
  {
    t == Around(fs, pl) || Inside(fs, pl, t)
  }

  /** Around a top-level list is the root, so every run enters it, and before it are exactly the earlier fields. */
  lemma TopLevel(fs: seq<Field>, pl: Place, t: Tag)
    requires Preorder(fs) && ListAt(fs, pl) && fs[pl.f].depth == 1 && TagOf(fs, t)
    ensures Around(fs, pl) == ROOT
    ensures Before(fs, pl, t) <==> t.field < pl.f
  {
    ParentDepth(fs, pl.f);
    assert pl.q == [];
  }

  // ---- Splitting the run ----------------------------------------------------------------------------------------

  /** Below the visit t of field g: among its descendants, with its indices. */
  ghost predicate Under(fs: seq<Field>, g: int, q: seq<int>, u: Tag)
    requires -1 <= g < |fs|
  {
    g < u.field < (if g < 0 then |fs| else End(fs, g)) && q <= u.indices
  }

  ghost predicate NoneUnder(fs: seq<Field>, g: int, q: seq<int>, s: seq<Tag>)
    requires -1 <= g < |fs|
  {
    forall u | u in s :: !Under(fs, g, q, u)
  }

  lemma EndNested(fs: seq<Field>, h: nat, g: nat)
    requires h < |fs| && h <= g < End(fs, h)
    ensures End(fs, g) <= End(fs, h)
  {
    EndSpans(fs, h);
    EndSpans(fs, g);
  }

  /** The block of a visit that goes into its body. */
  ghost predicate SplitsAt(fs: seq<Field>, s: seq<Tag>, t: Tag, pre: seq<Tag>, post: seq<Tag>) {
    && 0 <= t.field < |fs|
    && s == pre + [t] + Body(fs, t.field, t.indices) + post
    && NoneUnder(fs, t.field, t.indices, pre) && NoneUnder(fs, t.field, t.indices, post)
  }

  ghost predicate Opened(fs: seq<Field>, t: Tag) {
    0 <= t.field < |fs| && |t.indices| > 0 && Count(t) < fs[t.field].Reps()
  }

  lemma NoneUnderConcat(fs: seq<Field>, g: int, q: seq<int>, a: seq<Tag>, b: seq<Tag>)
    requires -1 <= g < |fs| && NoneUnder(fs, g, q, a) && NoneUnder(fs, g, q, b)
    ensures NoneUnder(fs, g, q, a + b)
  {
  }

  lemma NoneUnderEmpty(fs: seq<Field>, g: int, q: seq<int>)
    requires -1 <= g < |fs|
    ensures NoneUnder(fs, g, q, [])
  {
  }

  lemma SplitWider(fs: seq<Field>, s: seq<Tag>, t: Tag, pre: seq<Tag>, post: seq<Tag>, a: seq<Tag>, z: seq<Tag>)
    requires SplitsAt(fs, s, t, pre, post) && NoneUnder(fs, t.field, t.indices, a) && NoneUnder(fs, t.field, t.indices, z)
    ensures SplitsAt(fs, a + s + z, t, a + pre, post + z)
  {
    hide NoneUnder, Body;
    NoneUnderConcat(fs, t.field, t.indices, a, pre);
    NoneUnderConcat(fs, t.field, t.indices, post, z);
    var body := Body(fs, t.field, t.indices);
    assert a + (pre + [t] + body + post) + z == (a + pre) + [t] + body + (post + z);
  }

  lemma {:induction false} VisitSplit(fs: seq<Field>, f: nat, p: seq<int>, k: int, t: Tag) returns (pre: seq<Tag>, post: seq<Tag>)
    requires Preorder(fs) && f < |fs| && t in Visit(fs, f, p, k) && Opened(fs, t)
    ensures SplitsAt(fs, Visit(fs, f, p, k), t, pre, post)
    decreases |fs| - f, 0, fs[f].Reps() - k
  {
    hide End, HasSibling, Siblings, SplitsAt, Visit, Body, Within, NoneUnder, Preorder;
    var here := Tag(f, p + [k]);
    VisitCases(fs, f, p, k, t);
    VisitDistinct(fs, f, p, k + 1);
    var body, rest := Body(fs, f, p + [k]), Visit(fs, f, p, k + 1);
    RestApart(fs, f, p, k, t);
    if t == here {
      pre, post := [], rest;
      SplitHere(fs, t, body, rest);
    } else if t in body {
      BodySiblings(fs, f, p + [k]);
      var pre1, post1 := SiblingsHold(fs, f + 1, p + [k], t);
      SplitWider(fs, body, t, pre1, post1, [here], rest);
      pre, post := [here] + pre1, post1 + rest;
    } else {
      var pre1, post1 := VisitSplit(fs, f, p, k + 1, t);
      NoneUnderEmpty(fs, t.field, t.indices);
      SplitWider(fs, rest, t, pre1, post1, [here] + body, []);
      pre, post := [here] + body + pre1, post1 + [];
      assert [here] + body + rest == ([here] + body) + rest + [];
    }
  }

  lemma BodySiblings(fs: seq<Field>, f: nat, q: seq<int>)
    requires f < |fs| && Body(fs, f, q) != []
    ensures HasChild(fs, f) && Body(fs, f, q) == Siblings(fs, f + 1, q)
  {
  }

  lemma SplitHere(fs: seq<Field>, t: Tag, body: seq<Tag>, rest: seq<Tag>)
    requires 0 <= t.field < |fs| && body == Body(fs, t.field, t.indices) && NoneUnder(fs, t.field, t.indices, rest)
    ensures SplitsAt(fs, [t] + body + rest, t, [], rest)
  {
    hide Body;
  }

  lemma VisitCases(fs: seq<Field>, f: nat, p: seq<int>, k: int, t: Tag)
    requires f < |fs| && t in Visit(fs, f, p, k) && Opened(fs, t)
    ensures k < fs[f].Reps()
    ensures Visit(fs, f, p, k) == [Tag(f, p + [k])] + Body(fs, f, p + [k]) + Visit(fs, f, p, k + 1)
    ensures t == Tag(f, p + [k]) || t in Body(fs, f, p + [k]) || t in Visit(fs, f, p, k + 1)
  {
    hide Body;
    assert Count(Tag(f, p + [k])) == k;
  }

  /** What the other parts of the visits to f have to do with the inside of t: nothing. */
  lemma RestApart(fs: seq<Field>, f: nat, p: seq<int>, k: int, t: Tag)
    requires Preorder(fs) && f < |fs| && k < fs[f].Reps() && Opened(fs, t)
    ensures t == Tag(f, p + [k]) || t in Body(fs, f, p + [k]) ==> NoneUnder(fs, t.field, t.indices, Visit(fs, f, p, k + 1))
    ensures t in Visit(fs, f, p, k + 1) ==> NoneUnder(fs, t.field, t.indices, [Tag(f, p + [k])] + Body(fs, f, p + [k]))
    ensures t in Body(fs, f, p + [k]) ==> NoneUnder(fs, t.field, t.indices, [Tag(f, p + [k])])
  {
    hide End, HasSibling, Visit, Body, Preorder;
    VisitDistinct(fs, f, p, k + 1);
    BodyWithin(fs, f, p, k);
    var here, body, rest := Tag(f, p + [k]), Body(fs, f, p + [k]), Visit(fs, f, p, k + 1);
    if t == here || t in body {
      assert t.indices[|p|] == k;
      forall u | u in rest ensures !Under(fs, t.field, t.indices, u) {
        assert Within(fs, u, f, p, k + 1);
      }
    }
    if t in rest {
      assert Within(fs, t, f, p, k + 1);
      forall u | u in [here] + body ensures !Under(fs, t.field, t.indices, u) {
        if u in body { assert u.indices[|p|] == k; }
      }
    }
  }

  lemma BodyWithin(fs: seq<Field>, f: nat, p: seq<int>, k: int)
    requires Preorder(fs) && f < |fs|
    ensures forall u | u in Body(fs, f, p + [k]) :: f < u.field && |u.indices| > |p| + 1 && u.indices[|p|] == k
  {
    hide Siblings, HasSibling;
    if HasChild(fs, f) {
      EndSpans(fs, f);
      assert NoJump(fs, f + 1);
      hide End;
      SiblingsDistinct(fs, f + 1, p + [k], End(fs, f));
      forall u | u in Siblings(fs, f + 1, p + [k]) ensures u.indices[|p|] == k {
        assert u.indices[..|p| + 1][|p|] == k;
      }
    }
  }

  lemma {:induction false} SiblingsHold(fs: seq<Field>, f: nat, q: seq<int>, t: Tag) returns (pre: seq<Tag>, post: seq<Tag>)
    requires Preorder(fs) && f < |fs| && t in Siblings(fs, f, q) && Opened(fs, t)
    ensures SplitsAt(fs, Siblings(fs, f, q), t, pre, post)
    decreases |fs| - f, 1
  {
    hide Visit, SplitsAt, Preorder, Body, Siblings, End, HasSibling, NoneUnder, Opened;
    var first := Visit(fs, f, q, 0);
    SiblingsUnfold(fs, f, q);
    if HasSibling(fs, f) {
      var rest := Siblings(fs, End(fs, f), q);
      SiblingsApart(fs, f, q, t);
      OpenedField(fs, t);
      NoneUnderEmpty(fs, t.field, t.indices);
      if t in first {
        var pre1, post1 := VisitSplit(fs, f, q, 0, t);
        SplitWider(fs, first, t, pre1, post1, [], rest);
        pre, post := [] + pre1, post1 + rest;
        assert [] + first + rest == first + rest;
      } else {
        var pre1, post1 := SiblingsHold(fs, End(fs, f), q, t);
        SplitWider(fs, rest, t, pre1, post1, first, []);
        pre, post := first + pre1, post1 + [];
        assert first + rest + [] == first + rest;
      }
    } else {
      pre, post := VisitSplit(fs, f, q, 0, t);
    }
  }

  lemma OpenedField(fs: seq<Field>, t: Tag)
    requires Opened(fs, t)
    ensures 0 <= t.field < |fs|
  {
  }

  lemma SiblingsUnfold(fs: seq<Field>, f: nat, q: seq<int>)
    requires f < |fs|
    ensures if HasSibling(fs, f)
      then f < End(fs, f) < |fs| && Siblings(fs, f, q) == Visit(fs, f, q, 0) + Siblings(fs, End(fs, f), q)
      else Siblings(fs, f, q) == Visit(fs, f, q, 0)
  {
    hide Visit;
  }

  lemma SiblingsApart(fs: seq<Field>, f: nat, q: seq<int>, t: Tag)
    requires Preorder(fs) && f < |fs| && HasSibling(fs, f) && Opened(fs, t)
    ensures t in Visit(fs, f, q, 0) ==> NoneUnder(fs, t.field, t.indices, Siblings(fs, End(fs, f), q))
    ensures t in Siblings(fs, End(fs, f), q) ==> NoneUnder(fs, t.field, t.indices, Visit(fs, f, q, 0))
  {
    hide Visit, Siblings, End, Preorder;
    VisitDistinct(fs, f, q, 0);
    SiblingsFields(fs, End(fs, f), q);
    if t in Visit(fs, f, q, 0) {
      assert Within(fs, t, f, q, 0);
      EndNested(fs, f, t.field);
    }
    if t in Siblings(fs, End(fs, f), q) {
      forall u | u in Visit(fs, f, q, 0) ensures !Under(fs, t.field, t.indices, u) {
        assert Within(fs, u, f, q, 0);
      }
    }
  }

  lemma {:induction false} SiblingsFields(fs: seq<Field>, f: nat, q: seq<int>)
    requires Preorder(fs) && f < |fs|
    ensures forall u | u in Siblings(fs, f, q) :: f <= u.field && |u.indices| > |q| && u.indices[..|q|] == q
    decreases |fs| - f
  {
    hide Visit;
    VisitDistinct(fs, f, q, 0);
    if HasSibling(fs, f) { SiblingsFields(fs, End(fs, f), q); }
  }

  /** Every visited state that is opened is followed by its body. */
  lemma TraverseHolds(fs: seq<Field>, t: Tag) returns (pre: seq<Tag>, post: seq<Tag>)
    requires Preorder(fs) && t in Traverse(fs) && Opened(fs, t)
    ensures SplitsAt(fs, Traverse(fs), t, pre, post)
  {
    hide Siblings, SplitsAt, Body;
    assert |fs| > 0;
    var s := Siblings(fs, 0, []);
    var pre1, post1 := SiblingsHold(fs, 0, [], t);
    SplitWider(fs, s, t, pre1, post1, [ROOT], []);
    pre, post := [ROOT] + pre1, post1 + [];
    assert [ROOT] + s + [] == [ROOT] + s;
  }

  // ---- Where the elements stand ---------------------------------------------------------------------------------

  lemma {:induction false} VisitLeaf(fs: seq<Field>, pl: Place, k: nat, j: nat)
    requires pl.f < |fs| && !HasChild(fs, pl.f) && k <= j <= fs[pl.f].Reps()
    ensures |Visit(fs, pl.f, pl.q, k)| == fs[pl.f].Reps() - k + 1 && Visit(fs, pl.f, pl.q, k)[j - k] == Elem(pl, j)
    decreases fs[pl.f].Reps() - k
  {
    VisitUnfold(fs, pl.f, pl.q, k);
    hide Visit, HasChild;
    if k < fs[pl.f].Reps() {
      VisitLeaf(fs, pl, k + 1, if j > k then j else k + 1);
    }
  }

  /** The visits to e and its siblings before f: a block that leads to f, with all edges inside it. */
  lemma {:induction false} SiblingsSplit(fs: seq<Field>, e: nat, pl: Place) returns (a: seq<Tag>)
    requires WellFormed(fs) && e <= pl.f < |fs| && fs[e].depth == fs[pl.f].depth && |pl.q| == fs[e].depth - 1
    requires forall m :: e <= m <= pl.f ==> fs[m].depth >= fs[e].depth
    ensures Siblings(fs, e, pl.q) == a + Siblings(fs, pl.f, pl.q)
    ensures forall t | t in a :: e <= t.field < pl.f && pl.q <= t.indices
    ensures Forward(fs, a, Elem(pl, 0))
    decreases |fs| - e
  {
    hide Visit, Forward, ExitTo, Parent, Preorder, FieldOk;
    if e == pl.f {
      a := [];
      NothingForward(fs, Elem(pl, 0));
    } else {
      VisitDistinct(fs, e, pl.q, 0);
      SiblingThere(fs, e, pl.f);
      RepsFine(fs, e);
      VisitForward(fs, e, pl.q, 0);
      NextSibling(fs, e, pl.q);
      var n := End(fs, e);
      var rest := SiblingsSplit(fs, n, pl);
      var first := Visit(fs, e, pl.q, 0);
      a := first + rest;
      assert Siblings(fs, e, pl.q) == first + Siblings(fs, n, pl.q);
      if rest == [] {
        assert a == first && Siblings(fs, n, pl.q)[0] == Siblings(fs, pl.f, pl.q)[0];
      } else {
        assert rest[0] == Siblings(fs, n, pl.q)[0];
        ForwardConcat(fs, first, rest, Elem(pl, 0));
      }
    }
  }

  lemma NothingForward(fs: seq<Field>, after: Tag)
    requires Preorder(fs)
    ensures Forward(fs, [], after)
  {
  }

  lemma RepsFine(fs: seq<Field>, e: nat)
    requires WellFormed(fs) && e < |fs|
    ensures 0 <= fs[e].Reps()
  {
    hide HasChild;
    assert FieldOk(fs, e);
  }

  lemma SiblingThere(fs: seq<Field>, e: nat, f: nat)
    requires e < f < |fs| && fs[e].depth == fs[f].depth && forall m :: e <= m <= f ==> fs[m].depth >= fs[e].depth
    ensures HasSibling(fs, e) && e < End(fs, e) <= f && fs[End(fs, e)].depth == fs[e].depth
  {
    EndSpans(fs, e);
  }

  lemma NextSibling(fs: seq<Field>, e: nat, q: seq<int>)
    requires Preorder(fs) && e < |fs| && HasSibling(fs, e) && |q| == fs[e].depth - 1
    ensures ExitTo(fs, e, q) == Tag(End(fs, e), q + [0]) == Siblings(fs, End(fs, e), q)[0]
  {
  }

  /** The state around the list is at a, the first element at b; between them is a block that leads from one to the other,
      and nowhere else is anything of it. */
  ghost predicate StartsAt(fs: seq<Field>, pl: Place, a: nat, b: nat) {
    && Preorder(fs) && pl.f < |fs| && 0 <= fs[pl.f].Reps() && a < b && b + fs[pl.f].Reps() < |Traverse(fs)|
    && Traverse(fs)[a] == Around(fs, pl)
    && (forall k :: 0 <= k <= fs[pl.f].Reps() ==> ElemAt(fs, pl, b, k))
    && BeforeExactly(fs, pl, a, b)
    && Forward(fs, Traverse(fs)[a+1..b], Elem(pl, 0))
  }

  /** From position a on, up to b, the run moves on step by step, and no exit from in between passes over b. */
  ghost predicate Stretch(fs: seq<Field>, a: nat, b: nat) {
    Preorder(fs) && a < b < |Traverse(fs)| && Forward(fs, Traverse(fs)[a+1..b], Traverse(fs)[b])
  }

  lemma StartStretch(fs: seq<Field>, pl: Place, a: nat, b: nat)
    requires StartsAt(fs, pl, a, b)
    ensures Stretch(fs, a, b)
  {
    hide Traverse, Forward, Preorder, BeforeExactly;
    assert ElemAt(fs, pl, b, 0);
  }

  ghost predicate BeforeExactly(fs: seq<Field>, pl: Place, a: nat, b: nat)
    requires pl.f < |fs|
  {
    forall i :: 0 <= i < |Traverse(fs)| ==> (Before(fs, pl, Traverse(fs)[i]) <==> a <= i < b)
  }

  ghost predicate ElemAt(fs: seq<Field>, pl: Place, b: nat, k: int) {
    0 <= b + k < |Traverse(fs)| && Traverse(fs)[b+k] == Elem(pl, k)
  }

  /** The run around a list: what is before the state around it, from there up to the list, the list with what follows it
      in there, and the rest. */
  ghost predicate PartsOf(fs: seq<Field>, pl: Place, pre: seq<Tag>, blk: seq<Tag>, tail: seq<Tag>, post: seq<Tag>) {
    && Preorder(fs) && pl.f < |fs| && 0 <= fs[pl.f].Reps() && Visit(fs, pl.f, pl.q, 0) <= tail
    && Parts(Traverse(fs), pre, Around(fs, pl), blk, tail, post)
    && NoneUnder(fs, Outer(fs, pl), pl.q, pre) && NoneUnder(fs, Outer(fs, pl), pl.q, post)
    && (forall t | t in blk :: Outer(fs, pl) + 1 <= t.field < pl.f && pl.q <= t.indices)
    && (forall t | t in tail :: pl.f <= t.field) && Forward(fs, blk, Elem(pl, 0))
  }

  lemma PlaceParts(fs: seq<Field>, pl: Place) returns (pre: seq<Tag>, blk: seq<Tag>, tail: seq<Tag>, post: seq<Tag>)
    requires WellFormed(fs) && PlaceAt(fs, pl) && Around(fs, pl) in Traverse(fs)
    ensures PartsOf(fs, pl, pre, blk, tail, post)
  {
    hide Traverse, Siblings, Visit, Body, Parent, FieldOk, Preorder, Forward, HasSibling, End, NoneUnder;
    PlaceFacts(fs, pl);
    pre, post := AroundSplit(fs, pl);
    var g := Outer(fs, pl);
    FirstChild(fs, pl);
    blk := SiblingsSplit(fs, g + 1, pl);
    tail := Siblings(fs, pl.f, pl.q);
    assert Parts(Traverse(fs), pre, Around(fs, pl), blk, tail, post) by {
      assert pre + [Around(fs, pl)] + (blk + tail) + post == pre + [Around(fs, pl)] + blk + tail + post;
    }
    hide Parts;
    SiblingsFields(fs, pl.f, pl.q);
  }

  lemma ListStarts(fs: seq<Field>, pl: Place) returns (a: nat, b: nat)
    requires WellFormed(fs) && ListAt(fs, pl) && Around(fs, pl) in Traverse(fs)
    ensures StartsAt(fs, pl, a, b)
  {
    hide Traverse, StartsAt, PartsOf, FieldOk, Preorder, HasChild, Around, PlaceAt;
    LeafList(fs, pl);
    var pre, blk, tail, post := PlaceParts(fs, pl);
    a, b := |pre|, |pre| + 1 + |blk|;
    StartsFrom(fs, pl, pre, blk, tail, post, a, b);
  }

  lemma LeafList(fs: seq<Field>, pl: Place)
    requires WellFormed(fs) && ListAt(fs, pl)
    ensures !HasChild(fs, pl.f) && PlaceAt(fs, pl)
  {
    hide HasChild, Parent;
    assert FieldOk(fs, pl.f);
  }

  lemma PlaceFacts(fs: seq<Field>, pl: Place)
    requires WellFormed(fs) && PlaceAt(fs, pl)
    ensures 0 <= fs[pl.f].Reps() && Preorder(fs)
    ensures Visit(fs, pl.f, pl.q, 0) <= Siblings(fs, pl.f, pl.q)
    ensures Outer(fs, pl) >= 0 ==> Opened(fs, Around(fs, pl)) && HasChild(fs, Outer(fs, pl)) && |pl.q| > 0
  {
    hide Visit, HasSibling, End, Parent;
    assert FieldOk(fs, pl.f);
    if Outer(fs, pl) >= 0 {
      ParentDepth(fs, pl.f);
      ParentHasChild(fs, pl.f);
      assert fs[Outer(fs, pl)].depth >= 1;
    }
  }

  /** The first child of the state around the place starts its body. */
  lemma FirstChild(fs: seq<Field>, pl: Place)
    requires Preorder(fs) && pl.f < |fs| && |pl.q| == fs[pl.f].depth - 1
    ensures var e := Outer(fs, pl) + 1;
      && e <= pl.f && fs[e].depth == fs[pl.f].depth && forall m :: e <= m <= pl.f ==> fs[m].depth >= fs[e].depth
  {
    ParentSpans(fs, pl.f);
    ParentDepth(fs, pl.f);
    var g := Outer(fs, pl);
    hide Parent;
    if g >= 0 && g + 1 < pl.f { assert NoJump(fs, g + 1); }
  }

  lemma AroundSplit(fs: seq<Field>, pl: Place) returns (pre: seq<Tag>, post: seq<Tag>)
    requires WellFormed(fs) && PlaceAt(fs, pl) && Around(fs, pl) in Traverse(fs)
    ensures Traverse(fs) == pre + [Around(fs, pl)] + Siblings(fs, Outer(fs, pl) + 1, pl.q) + post
    ensures NoneUnder(fs, Outer(fs, pl), pl.q, pre) && NoneUnder(fs, Outer(fs, pl), pl.q, post)
  {
    hide Siblings, Parent, FieldOk, HasChild, Preorder;
    PlaceFacts(fs, pl);
    var g := Outer(fs, pl);
    if g < 0 {
      pre, post := [], [];
      TopDepth(fs, pl);
      assert pl.q == [];
      assert [ROOT] + Siblings(fs, 0, []) == [] + [ROOT] + Siblings(fs, 0, []) + [];
    } else {
      hide Traverse;
      pre, post := TraverseHolds(fs, Around(fs, pl));
    }
  }

  lemma TopDepth(fs: seq<Field>, pl: Place)
    requires Preorder(fs) && pl.f < |fs| && Outer(fs, pl) < 0
    ensures fs[pl.f].depth == 1
  {
    ParentDepth(fs, pl.f);
  }

  lemma StartsFrom(fs: seq<Field>, pl: Place, pre: seq<Tag>, blk: seq<Tag>, tail: seq<Tag>, post: seq<Tag>, a: nat, b: nat)
    requires PartsOf(fs, pl, pre, blk, tail, post) && !HasChild(fs, pl.f) && a == |pre| && b == a + 1 + |blk|
    ensures StartsAt(fs, pl, a, b)
  {
    hide Preorder, Visit, Parts, NoneUnder, Forward, HasChild, Around, ElemAt, BeforeExactly, Parent, Traverse, StartsAt;
    ElemsThere(fs, pl, pre, blk, tail, post, b);
    BeforeThere(fs, pl, pre, blk, tail, post);
    FrontIs(Traverse(fs), pre, Around(fs, pl), blk, tail, post);
    MakeStarts(fs, pl, a, b);
  }

  lemma MakeStarts(fs: seq<Field>, pl: Place, a: nat, b: nat)
    requires Preorder(fs) && pl.f < |fs| && 0 <= fs[pl.f].Reps() && a < b && b + fs[pl.f].Reps() < |Traverse(fs)|
    requires Traverse(fs)[a] == Around(fs, pl)
    requires (forall k :: 0 <= k <= fs[pl.f].Reps() ==> ElemAt(fs, pl, b, k)) && BeforeExactly(fs, pl, a, b)
    requires Forward(fs, Traverse(fs)[a+1..b], Elem(pl, 0))
    ensures StartsAt(fs, pl, a, b)
  {
    hide Traverse, BeforeExactly, Forward, Preorder, Around, ElemAt;
  }

  /** The run in five parts. */
  ghost predicate Parts(s: seq<Tag>, pre: seq<Tag>, x: Tag, blk: seq<Tag>, tail: seq<Tag>, post: seq<Tag>) {
    s == pre + [x] + blk + tail + post
  }

  lemma FrontIs(s: seq<Tag>, pre: seq<Tag>, x: Tag, blk: seq<Tag>, tail: seq<Tag>, post: seq<Tag>)
    requires Parts(s, pre, x, blk, tail, post)
    ensures |pre| + 1 + |blk| + |tail| <= |s| && s[|pre|] == x && s[|pre|+1..|pre|+1+|blk|] == blk
  {
  }

  lemma ElemsThere(fs: seq<Field>, pl: Place, pre: seq<Tag>, blk: seq<Tag>, tail: seq<Tag>, post: seq<Tag>, b: nat)
    requires pl.f < |fs| && !HasChild(fs, pl.f) && 0 <= fs[pl.f].Reps() && Visit(fs, pl.f, pl.q, 0) <= tail
    requires Parts(Traverse(fs), pre, Around(fs, pl), blk, tail, post) && b == |pre| + 1 + |blk|
    ensures b + fs[pl.f].Reps() < |Traverse(fs)|
    ensures forall k :: 0 <= k <= fs[pl.f].Reps() ==> ElemAt(fs, pl, b, k)
  {
    hide Visit, HasChild, Traverse, Elem, Parts, Around;
    forall k | 0 <= k <= fs[pl.f].Reps() ensures ElemAt(fs, pl, b, k) {
      ElemInTail(fs, pl, tail, k);
      FrontIs(Traverse(fs), pre, Around(fs, pl), blk, tail, post);
      PieceAt(Traverse(fs), pre, Around(fs, pl), blk, tail, post, b + k);
    }
    assert ElemAt(fs, pl, b, fs[pl.f].Reps());
  }

  lemma BeforeThere(fs: seq<Field>, pl: Place, pre: seq<Tag>, blk: seq<Tag>, tail: seq<Tag>, post: seq<Tag>)
    requires Preorder(fs) && pl.f < |fs|
    requires Parts(Traverse(fs), pre, Around(fs, pl), blk, tail, post)
    requires NoneUnder(fs, Outer(fs, pl), pl.q, pre) && NoneUnder(fs, Outer(fs, pl), pl.q, post)
    requires (forall t | t in blk :: Outer(fs, pl) + 1 <= t.field < pl.f && pl.q <= t.indices)
    requires (forall t | t in tail :: pl.f <= t.field)
    ensures BeforeExactly(fs, pl, |pre|, |pre| + 1 + |blk|)
  {
    hide Traverse, Parent, NoneUnder, Preorder, Around, Before, NoDup, Parts;
    TraverseDistinct(fs);
    forall i | 0 <= i < |Traverse(fs)| ensures Before(fs, pl, Traverse(fs)[i]) <==> |pre| <= i < |pre| + 1 + |blk| {
      BeforeOnly(fs, pl, pre, blk, tail, post, i);
    }
  }

  lemma BeforeOnly(fs: seq<Field>, pl: Place, pre: seq<Tag>, blk: seq<Tag>, tail: seq<Tag>, post: seq<Tag>, i: nat)
    requires Preorder(fs) && pl.f < |fs| && NoDup(Traverse(fs)) && i < |Traverse(fs)|
    requires Parts(Traverse(fs), pre, Around(fs, pl), blk, tail, post)
    requires NoneUnder(fs, Outer(fs, pl), pl.q, pre) && NoneUnder(fs, Outer(fs, pl), pl.q, post)
    requires (forall t | t in blk :: Outer(fs, pl) + 1 <= t.field < pl.f && pl.q <= t.indices)
    requires (forall t | t in tail :: pl.f <= t.field)
    ensures Before(fs, pl, Traverse(fs)[i]) <==> |pre| <= i < |pre| + 1 + |blk|
  {
    hide Traverse, Parent, NoneUnder, Preorder, Around, Parts;
    var s := Traverse(fs);
    FrontIs(s, pre, Around(fs, pl), blk, tail, post);
    PieceAt(s, pre, Around(fs, pl), blk, tail, post, i);
    if i < |pre| {
      ApartBefore(fs, pl, pre, i);
    } else if i > |pre| + |blk| + |tail| {
      ApartBefore(fs, pl, post, i - |pre| - 1 - |blk| - |tail|);
    }
  }

  lemma PieceAt(s: seq<Tag>, pre: seq<Tag>, x: Tag, blk: seq<Tag>, tail: seq<Tag>, post: seq<Tag>, i: nat)
    requires Parts(s, pre, x, blk, tail, post) && i < |s|
    ensures var b := |pre| + 1 + |blk|;
      if i < |pre| then s[i] == pre[i]
      else if i == |pre| then s[i] == x
      else if i < b then s[i] == blk[i - |pre| - 1] && s[i] in blk
      else if i < b + |tail| then s[i] == tail[i - b] && s[i] in tail
      else i - b - |tail| < |post| && s[i] == post[i - b - |tail|]
  {
  }

  lemma ApartBefore(fs: seq<Field>, pl: Place, s: seq<Tag>, i: nat)
    requires pl.f < |fs| && NoneUnder(fs, Outer(fs, pl), pl.q, s) && i < |s|
    ensures !Inside(fs, pl, s[i])
  {
    hide Parent;
    assert s[i] in s;
    if Outer(fs, pl) >= 0 { ParentSpansEnd(fs, pl.f); }
  }

  /** A field is inside the subtree of its parent. */
  lemma ParentSpansEnd(fs: seq<Field>, f: nat)
    requires f < |fs| && Parent(fs, f) >= 0
    ensures f < End(fs, Parent(fs, f))
  {
    ParentSpans(fs, f);
    EndSpans(fs, Parent(fs, f));
  }

  lemma ElemInTail(fs: seq<Field>, pl: Place, tail: seq<Tag>, k: nat)
    requires pl.f < |fs| && !HasChild(fs, pl.f) && k <= fs[pl.f].Reps() && Visit(fs, pl.f, pl.q, 0) <= tail
    ensures k < |tail| && tail[k] == Elem(pl, k)
  {
    VisitLeaf(fs, pl, 0, k);
    hide Visit, HasChild;
    assert tail[k] == Visit(fs, pl.f, pl.q, 0)[k];
  }

  // ---- No step passes over the first element ------------------------------------------------------------

  /** From within a stretch the exit leads at most to its end. */
  lemma ExitPosBefore(fs: seq<Field>, a: nat, b: nat, i: nat)
    requires WellFormed(fs) && Stretch(fs, a, b) && a < i < b
    requires SkipsAt(fs, Raw(fs), Traverse(fs), i)
    ensures ExitPos(fs, Raw(fs), Traverse(fs), i) <= b
  {
    hide Traverse, Raw, Linear, FieldOk, Preorder, NoDup, LinearAt, ExitTarget, FlowTarget, Next;
    var g, s := Raw(fs), Traverse(fs);
    SeqNoDup(fs, g, s);
    RunEdges(fs, g, s, i);
    RawIs(fs);
    assert CompleteIn(fs, g, s[i]);
    var blk := s[a+1..b];
    assert StepsOn(fs, blk, s[b], i - a - 1);
    var e := ExitPos(fs, g, s, i);
    assert ExitTarget(fs, s[i]) == Some(s[e]);
    var j :| i - a <= j <= |blk| && At(blk, s[b], j) == s[e];
    assert At(blk, s[b], j) == s[a + 1 + j];
    PosUnique(s, e);
    PosUnique(s, a + 1 + j);
  }

  /** Passing over optional states towards something behind b, one comes through b. */
  lemma {:induction false} ReachMeets(fs: seq<Field>, a: nat, b: nat, i: nat)
    requires WellFormed(fs) && Stretch(fs, a, b) && a < i <= b < |Traverse(fs)|
    requires !TailAt(fs, Raw(fs), Traverse(fs), b) && !TailAt(fs, Raw(fs), Traverse(fs), i)
    ensures forall u | u in Reach(fs, Raw(fs), Traverse(fs), i) ::
      u in Traverse(fs) && (Pos(Traverse(fs), u) > b ==> Traverse(fs)[b] in Reach(fs, Raw(fs), Traverse(fs), i))
    decreases b - i
  {
    hide Traverse, Raw, Linear, TailAt, Stretch, Optional, SkipTo, NoDup, WellFormed;
    var g, s := Raw(fs), Traverse(fs);
    SeqNoDup(fs, g, s);
    PosUnique(s, i);
    ReachKept(fs, g, s, i);
    if i < b && Optional(g, s, i) {
      KeptExit(fs, g, s, i);
      ExitPosBefore(fs, a, b, i);
      KeptLeast(fs, g, s, ExitPos(fs, g, s, i), b);
      ReachMeets(fs, a, b, SkipTo(fs, g, s, i));
    }
  }

  // ---- Nothing gets inside but through the state around it --------------------------------------------------

  /** t is the visit to a sibling of f below q, or the state around it is in s. */
  ghost predicate Enclosed(fs: seq<Field>, s: seq<Tag>, f: nat, q: seq<int>, t: Tag)
    requires f < |fs|
  {
    && 0 <= t.field < |fs| && |t.indices| > 0
    && ((Parent(fs, t.field) == Parent(fs, f) && Prefix(t) == q) ||
        (Parent(fs, t.field) >= 0 && Tag(Parent(fs, t.field), Prefix(t)) in s))
  }

  lemma {:induction false} VisitEnclosed(fs: seq<Field>, f: nat, p: seq<int>, k: int, t: Tag)
    requires Preorder(fs) && f < |fs| && t in Visit(fs, f, p, k)
    ensures Enclosed(fs, Visit(fs, f, p, k), f, p, t)
    decreases |fs| - f, 0, fs[f].Reps() - k
  {
    hide Siblings, Parent, HasChild;
    var here, v := Tag(f, p + [k]), Visit(fs, f, p, k);
    if k < fs[f].Reps() {
      var body, rest := Body(fs, f, p + [k]), Visit(fs, f, p, k + 1);
      assert v == [here] + body + rest;
      hide Visit, Body;
      if t in body {
        BodySiblings(fs, f, p + [k]);
        SiblingsEnclosed(fs, f + 1, p + [k], t);
        ChildParent(fs, f);
        assert here in v;
      } else if t in rest {
        VisitEnclosed(fs, f, p, k + 1, t);
      }
    }
  }

  lemma {:induction false} SiblingsEnclosed(fs: seq<Field>, f: nat, q: seq<int>, t: Tag)
    requires Preorder(fs) && f < |fs| && t in Siblings(fs, f, q)
    ensures Enclosed(fs, Siblings(fs, f, q), f, q, t)
    decreases |fs| - f, 1
  {
    hide Visit, Siblings, Parent, HasSibling, End;
    SiblingsUnfold(fs, f, q);
    if t in Visit(fs, f, q, 0) {
      VisitEnclosed(fs, f, q, 0, t);
    } else {
      SiblingIs(fs, f);
      SiblingsEnclosed(fs, End(fs, f), q, t);
    }
  }

  lemma SiblingIs(fs: seq<Field>, f: nat)
    requires f < |fs| && HasSibling(fs, f)
    ensures f < End(fs, f) < |fs| && Parent(fs, End(fs, f)) == Parent(fs, f)
  {
    SiblingParent(fs, f);
  }

  /** The state around a visited state is visited. */
  lemma AroundVisited(fs: seq<Field>, pl: Place, t: Tag)
    requires Preorder(fs) && pl.f < |fs| && t in Traverse(fs) && t.field == pl.f && |t.indices| > 0 && Prefix(t) == pl.q
    ensures Around(fs, pl) in Traverse(fs)
  {
    hide Parent, Siblings;
    if Outer(fs, pl) >= 0 {
      SiblingsEnclosed(fs, 0, [], t);
      TopParent(fs);
    }
  }

  lemma TopParent(fs: seq<Field>)
    requires |fs| > 0
    ensures Parent(fs, 0) == -1
  {
  }

  /** An exit that leads inside comes from inside. */
  lemma ExitApart(fs: seq<Field>, g: nat, q: seq<int>, t: Tag)
    requires Preorder(fs) && g < |fs| && |q| == fs[g].depth && TagOf(fs, t) && t != ROOT
    requires Under(fs, g, q, ExitTo(fs, t.field, Prefix(t)))
    ensures Under(fs, g, q, t)
  {
    hide Parent, End, Preorder;
    ExitIs(fs, t);
    EndSpans(fs, g);
    if HasSibling(fs, t.field) {
      EndSpans(fs, t.field);
      PrefixShorter(q, Prefix(t), 0);
    } else {
      var p := Prefix(t);
      PrefixShorter(q, p[..|p|-1], p[|p|-1] + 1);
      ParentSpansEnd(fs, t.field);
      EndNested(fs, g, Parent(fs, t.field));
    }
  }

  lemma PrefixShorter(q: seq<int>, p: seq<int>, k: int)
    requires q <= p + [k] && |q| <= |p|
    ensures q <= p
  {
    assert (p + [k])[..|q|] == p[..|q|];
  }

  lemma ExitIs(fs: seq<Field>, t: Tag)
    requires Preorder(fs) && TagOf(fs, t) && t != ROOT
    ensures |Prefix(t)| == fs[t.field].depth - 1
    ensures var u := ExitTo(fs, t.field, Prefix(t));
      if HasSibling(fs, t.field) then u == Tag(End(fs, t.field), Prefix(t) + [0]) && fs[u.field].depth == fs[t.field].depth
      else if Parent(fs, t.field) < 0 then u == ROOT
      else (
        && Parent(fs, t.field) < t.field && fs[Parent(fs, t.field)].depth == fs[t.field].depth - 1 && |Prefix(t)| > 0
        && u == Tag(Parent(fs, t.field), Prefix(t)[..|Prefix(t)|-1] + [Prefix(t)[|Prefix(t)|-1] + 1]))
  {
    ParentDepth(fs, t.field);
  }

  /** The inside is one block of the run, right behind the state around it. */
  ghost predicate InsideExactly(fs: seq<Field>, pl: Place, a: nat, c: nat)
    requires pl.f < |fs|
  {
    forall i :: 0 <= i < |Traverse(fs)| ==> (Under(fs, Outer(fs, pl), pl.q, Traverse(fs)[i]) <==> a < i < c)
  }

  lemma InsideBlock(fs: seq<Field>, pl: Place) returns (a: nat, c: nat)
    requires WellFormed(fs) && ListAt(fs, pl) && Outer(fs, pl) >= 0 && Around(fs, pl) in Traverse(fs)
    ensures 0 < a < c && a < |Traverse(fs)| && Traverse(fs)[a] == Around(fs, pl) && InsideExactly(fs, pl, a, c)
  {
    hide Traverse, Siblings, Parent, HasChild, FieldOk, Preorder, NoneUnder;
    PlaceFacts(fs, pl);
    var pre, post := AroundSplit(fs, pl);
    var body := Siblings(fs, Outer(fs, pl) + 1, pl.q);
    a, c := |pre|, |pre| + 1 + |body|;
    BodyUnder(fs, pl);
    assert Parts(Traverse(fs), pre, Around(fs, pl), body, [], post);
    hide Parts;
    forall i | 0 <= i < |Traverse(fs)| ensures Under(fs, Outer(fs, pl), pl.q, Traverse(fs)[i]) <==> a < i < c {
      PieceAt(Traverse(fs), pre, Around(fs, pl), body, [], post, i);
      PieceApart(fs, pl, pre, i);
      PieceApart(fs, pl, post, i - a - 1 - |body|);
    }
    FrontIs(Traverse(fs), pre, Around(fs, pl), body, [], post);
    RootAtStart(fs, pl);
  }

  lemma RootAtStart(fs: seq<Field>, pl: Place)
    requires pl.f < |fs| && Outer(fs, pl) >= 0
    ensures Traverse(fs)[0] != Around(fs, pl)
  {
  }

  lemma PieceApart(fs: seq<Field>, pl: Place, s: seq<Tag>, i: int)
    requires pl.f < |fs| && NoneUnder(fs, Outer(fs, pl), pl.q, s)
    ensures 0 <= i < |s| ==> !Under(fs, Outer(fs, pl), pl.q, s[i])
  {
    hide Parent;
    if 0 <= i < |s| { assert s[i] in s; }
  }

  lemma {:induction false} BodyUnder(fs: seq<Field>, pl: Place)
    requires Preorder(fs) && pl.f < |fs| && Outer(fs, pl) >= 0
    ensures forall u | u in Siblings(fs, Outer(fs, pl) + 1, pl.q) :: Under(fs, Outer(fs, pl), pl.q, u)
  {
    hide Siblings, Parent;
    var g := Outer(fs, pl);
    ParentHasChild(fs, pl.f);
    EndSpans(fs, g);
    assert NoJump(fs, g + 1);
    SiblingsDistinct(fs, g + 1, pl.q, End(fs, g));
  }

  /** From the state around the list, or from outside, passing over leads nowhere inside. */
  lemma ExitPosApart(fs: seq<Field>, pl: Place, a: nat, c: nat, i: nat)
    requires WellFormed(fs) && ListAt(fs, pl) && Outer(fs, pl) >= 0 && InsideExactly(fs, pl, a, c)
    requires i < |Traverse(fs)| && !(a < i < c) && SkipsAt(fs, Raw(fs), Traverse(fs), i)
    ensures !(a < ExitPos(fs, Raw(fs), Traverse(fs), i) < c)
  {
    hide Traverse, Raw, Linear, FieldOk, NoDup, LinearAt, Preorder, Parent, Under, ExitTo;
    var g, s := Raw(fs), Traverse(fs);
    RunEdges(fs, g, s, i);
    RawIs(fs);
    assert CompleteIn(fs, g, s[i]);
    RootEdges(fs);
    var e := ExitPos(fs, g, s, i);
    assert s[e] == ExitTo(fs, s[i].field, Prefix(s[i]));
    ParentDepth(fs, pl.f);
    if Under(fs, Outer(fs, pl), pl.q, s[e]) { ExitApart(fs, Outer(fs, pl), pl.q, s[i]); }
  }

  lemma {:induction false} ReachApart(fs: seq<Field>, pl: Place, a: nat, c: nat, i: nat)
    requires WellFormed(fs) && ListAt(fs, pl) && Outer(fs, pl) >= 0 && InsideExactly(fs, pl, a, c)
    requires i < |Traverse(fs)| && !(a < i < c) && a < |Traverse(fs)| && !TailAt(fs, Raw(fs), Traverse(fs), a)
    requires !TailAt(fs, Raw(fs), Traverse(fs), i)
    ensures forall u | u in Reach(fs, Raw(fs), Traverse(fs), i) :: u in Traverse(fs) && !Under(fs, Outer(fs, pl), pl.q, u)
    decreases |Traverse(fs)| - i
  {
    hide Traverse, Raw, Linear, TailAt, Optional, SkipTo, NoDup, WellFormed, Under, Parent, ListAt;
    var g, s := Raw(fs), Traverse(fs);
    ReachKept(fs, g, s, i);
    if Optional(g, s, i) {
      KeptExit(fs, g, s, i);
      ExitPosApart(fs, pl, a, c, i);
      var e := ExitPos(fs, g, s, i);
      if e <= a { KeptLeast(fs, g, s, e, a); }
      ReachApart(fs, pl, a, c, SkipTo(fs, g, s, i));
    }
  }
}
