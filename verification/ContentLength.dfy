/** Content fixes the length of a list: a run that enters what is around a list of scalars repeats the list exactly as
    often as the content has elements there, and each repetition carries the element's text. */
module ContentLength {
  import opened Schema
  import opened Traversal
  import opened Concretize
  import opened LinearGraph
  import opened Language
  import opened Instances
  import opened StateAutomaton
  import opened Documents
  import opened Fta
  import opened FtaBuilder
  import opened DecisionWalks
  import opened ListPlaces

  /** What the content holds around the place, as far as the descent finds it. */
  function Holder(x: Input, pl: Place): Option<Doc>
    requires pl.f < |x.fs|
  {
    var chain := Ancestors(x.fs, pl.f);
    ReadFrom(x.content, x.fs, chain[..|chain|-1], pl.q, 0)
  }

  function Scalars(vs: seq<string>): Doc {
    Array(seq(|vs|, k requires 0 <= k < |vs| => Scalar(vs[k])))
  }

  /** The content gives the list at that place these items, no more than its range allows. */
  ghost predicate Holds(x: Input, pl: Place, items: seq<Doc>) {
    && PlaceAt(x.fs, pl) && |items| <= x.fs[pl.f].range.value.1
    && Holder(x, pl).Some? && ObjGet(Holder(x, pl).value, x.fs[pl.f].name) == Some(Array(items))
  }

  /** The content gives the leaf list at that place the scalars vs, as many as its range allows. */
  ghost predicate Given(x: Input, pl: Place, vs: seq<string>) {
    && ListAt(x.fs, pl) && x.fs[pl.f].range.value.0 <= |vs| <= x.fs[pl.f].range.value.1
    && Holder(x, pl).Some? && ObjGet(Holder(x, pl).value, x.fs[pl.f].name) == Some(Scalars(vs))
  }

  // ---- What the content says about the elements ------------------------------------------------------

  /** A descent that finds something can be cut there. */
  lemma {:induction false} Descends(d: Doc, fs: seq<Field>, chain: seq<nat>, q: seq<int>, indices: seq<int>, a: nat, e: Doc)
    requires |chain| > 0 && forall k :: 0 <= k < |chain| ==> chain[k] < |fs|
    requires a < |chain| && forall j: nat :: j + 1 < |chain| ==> IndexAt(q, j) == IndexAt(indices, j)
    requires ReadFrom(d, fs, chain[..|chain|-1], q, a) == Some(e)
    ensures ReadFrom(d, fs, chain, indices, a) == ReadFrom(e, fs, chain, indices, |chain| - 1)
    ensures SkipFrom(d, fs, chain, indices, a) == SkipFrom(e, fs, chain, indices, |chain| - 1)
    decreases |chain| - a
  {
    var short := chain[..|chain|-1];
    if a + 1 < |chain| {
      assert short[a] == chain[a];
      var n := ReadStep(d, fs[chain[a]], IndexAt(q, a)).value;
      Descends(n, fs, chain, q, indices, a + 1, e);
    }
  }

  lemma ItemContent(x: Input, pl: Place, items: seq<Doc>, k: nat)
    requires Preorder(x.fs) && Holds(x, pl, items)
    ensures Skip(x.content, x.fs, Elem(pl, k)) <==> k >= |items|
    ensures k < |items| ==> Read(x.content, x.fs, Elem(pl, k)) == Some(items[k])
  {
    hide Ancestors, Outer;
    var chain := Ancestors(x.fs, pl.f);
    AncestorDepths(x.fs, pl.f);
    var e := Holder(x, pl).value;
    var indices := pl.q + [k];
    Descends(x.content, x.fs, chain, pl.q, indices, 0, e);
    LastElem(e, x.fs, chain, indices, items, k);
    hide SkipFrom, ReadFrom;
  }

  lemma ElemContent(x: Input, pl: Place, vs: seq<string>, k: nat)
    requires Preorder(x.fs) && Given(x, pl, vs)
    ensures Skip(x.content, x.fs, Elem(pl, k)) <==> k >= |vs|
    ensures k < |vs| ==> Filled(x, Elem(pl, k)) && Read(x.content, x.fs, Elem(pl, k)) == Some(Scalar(vs[k]))
  {
    hide Skip, Read, Holder;
    assert Holds(x, pl, Scalars(vs).items);
    ItemContent(x, pl, Scalars(vs).items, k);
  }

  lemma LastElem(e: Doc, fs: seq<Field>, chain: seq<nat>, indices: seq<int>, items: seq<Doc>, k: nat)
    requires |chain| > 0 && |indices| == |chain| && indices[|chain|-1] == k
    requires forall j :: 0 <= j < |chain| ==> chain[j] < |fs|
    requires fs[chain[|chain|-1]].IsList() && ObjGet(e, fs[chain[|chain|-1]].name) == Some(Array(items))
    ensures SkipFrom(e, fs, chain, indices, |chain| - 1) <==> k >= |items|
    ensures k < |items| ==> ReadFrom(e, fs, chain, indices, |chain| - 1) == Some(items[k])
  {
    var n := |chain|;
    if k < |items| {
      assert !SkipFrom(items[k], fs, chain, indices, n);
      assert ReadStep(e, fs[chain[n-1]], k) == Some(items[k]);
      assert ReadFrom(items[k], fs, chain, indices, n) == Some(items[k]);
    }
  }

  /** Visiting u after from is one fixed text. */
  ghost predicate Renders(x: Input, u: Tag, from: Tag, text: string) {
    0 <= u.field < |x.fs| && FieldAction(x, u, from) ==
      Some(Action(FieldOf(u, from), [EndlOf(u, from)], Some(u.field), u.indices, Text(text)))
  }

  /** The action made for an element carries its text. */
  lemma ElemAction(x: Input, pl: Place, vs: seq<string>, k: nat, from: Tag)
    requires Preorder(x.fs) && Given(x, pl, vs) && k < |vs|
    ensures Renders(x, Elem(pl, k), from, vs[k])
  {
    ElemContent(x, pl, vs, k);
    hide Read;
    assert Copies(EndlOf(Elem(pl, k), from), 1) == [EndlOf(Elem(pl, k), from)];
  }

  // ---- What the content chooses ------------------------------------------------------------------------

  ghost predicate Rising(s: seq<Tag>, us: seq<Tag>) {
    && (forall u | u in us :: u in s)
    && forall j, k :: 0 <= j < k < |us| ==> Pos(s, us[j]) < Pos(s, us[k])
  }

  lemma {:induction false} ReachRising(fs: seq<Field>, g: Graph, s: seq<Tag>, i: nat)
    requires Linear(fs, g, s) && i < |s| && !TailAt(fs, g, s, i)
    ensures Rising(s, Reach(fs, g, s, i))
    ensures forall u | u in Reach(fs, g, s, i) :: i <= Pos(s, u)
    decreases |s| - i
  {
    SeqNoDup(fs, g, s);
    PosUnique(s, i);
    hide Linear, TailAt, SkipTo, NoDup;
    if Optional(g, s, i) {
      ReachRising(fs, g, s, SkipTo(fs, g, s, i));
    }
  }

  lemma {:induction false} ValidRising(x: Input, s: seq<Tag>, us: seq<Tag>)
    requires Rising(s, us)
    ensures Rising(s, Valid(x, us))
  {
    hide Skip;
    if us != [] {
      var front := us[..|us|-1];
      ValidRising(x, s, front);
      ValidIn(x, front);
      forall u | u in front ensures Pos(s, u) < Pos(s, us[|us|-1]) {
        var j :| 0 <= j < |front| && front[j] == u;
        assert us[j] == u;
      }
    }
  }

  lemma {:induction false} FirstFilledLeast(x: Input, s: seq<Tag>, us: seq<Tag>, v: Tag)
    requires Rising(s, us) && v in us && Filled(x, v)
    ensures FirstFilled(x, us).Some? && FirstFilled(x, us).value in s && Pos(s, FirstFilled(x, us).value) <= Pos(s, v)
  {
    hide Filled;
    var j :| 0 <= j < |us| && us[j] == v;
    if !Filled(x, us[0]) {
      assert us[1..][j-1] == v;
      FirstFilledLeast(x, s, us[1..], v);
    } else {
      assert j == 0 || Pos(s, us[0]) < Pos(s, us[j]);
    }
  }

  /** A state the content fills is not passed over by what is chosen. */
  lemma ChosenBy(x: Input, t: Tag, v: Tag, y: Tag)
    requires InputOk(x) && t in x.states && v in x.states[t].successors && v in x.states
    requires !Skip(x.content, x.fs, v) && Filled(x, v) && y in Choices(x, t)
    ensures v in Traverse(x.fs) && y in Traverse(x.fs) && Rank(x.fs, y) <= Rank(x.fs, v)
  {
    hide Skip, Filled, Traverse, Raw, Linear, WellFormed, Valid, Followers, Final;
    var s := Traverse(x.fs);
    StateFollowers(x, t);
    FollowersRising(x.fs, Raw(x.fs), s, Rank(x.fs, t));
    ValidRising(x, s, x.states[t].successors);
    ValidIn(x, x.states[t].successors);
    FirstFilledLeast(x, s, Valid(x, x.states[t].successors), v);
    StepForward(x, t, y);
    hide FirstFilled, Rising;
  }

  lemma FollowersRising(fs: seq<Field>, g: Graph, s: seq<Tag>, i: nat)
    requires Linear(fs, g, s) && i < |s|
    ensures Rising(s, Followers(fs, g, s, i))
  {
    hide Linear;
    if i + 1 < |s| { ReachRising(fs, g, s, KeptFrom(fs, g, s, i + 1)); }
  }

  // ---- The run through the list --------------------------------------------------------------------------

  /** A choice made within a stretch does not pass over its end, if the content has that. */
  lemma NotPassed(x: Input, a: nat, b: nat, t: Tag, y: Tag)
    requires InputOk(x) && Stretch(x.fs, a, b) && b < |Traverse(x.fs)| && !TailAt(x.fs, Raw(x.fs), Traverse(x.fs), b)
    requires var v := Traverse(x.fs)[b]; v in x.states && !Skip(x.content, x.fs, v) && Filled(x, v)
    requires t in x.states && t in Traverse(x.fs) && a <= Rank(x.fs, t) < b
    requires y in Choices(x, t) && y in Traverse(x.fs) && b <= Rank(x.fs, y)
    ensures y == Traverse(x.fs)[b]
  {
    hide Traverse, Raw, Linear, Choices, FieldAction, Skip, Filled, Stretch, FieldOk, Preorder, Final, Reach, TailAt, NoDup;
    var fs, g, s := x.fs, Raw(x.fs), Traverse(x.fs);
    SeqNoDup(fs, g, s);
    PosUnique(s, b);
    StateFollowers(x, t);
    ChoiceOpen(x, t, y);
    var i := Rank(fs, t);
    KeptLeast(fs, g, s, i + 1, b);
    ReachMeets(fs, a, b, KeptFrom(fs, g, s, i + 1));
    if Rank(fs, y) > b {
      ChosenBy(x, t, s[b], y);
      assert false;
    }
  }

  /** A run that gets from inside to behind the start of the list gets there through the first element. */
  lemma EnterList(x: Input, pl: Place, vs: seq<string>, a: nat, b: nat, t: Tag, y: Tag)
    requires InputOk(x) && Given(x, pl, vs) && StartsAt(x.fs, pl, a, b) && vs != []
    requires t in x.states && t in Traverse(x.fs) && a <= Rank(x.fs, t) < b
    requires y in Choices(x, t) && y in Traverse(x.fs) && b <= Rank(x.fs, y)
    ensures y == Elem(pl, 0)
  {
    hide Traverse, Raw, Linear, Choices, Skip, Filled, StartsAt, FieldOk, Preorder, Final, Given, Elem, Stretch, TailAt;
    ElemKept(x, pl, vs, a, b, 0);
    ElemPreorder(x, pl, vs, 0);
    StartStretch(x.fs, pl, a, b);
    NotPassed(x, a, b, t, y);
  }

  lemma ElemKept(x: Input, pl: Place, vs: seq<string>, a: nat, b: nat, k: nat)
    requires InputOk(x) && Given(x, pl, vs) && StartsAt(x.fs, pl, a, b) && k < |vs|
    ensures b + k < |Traverse(x.fs)| && Traverse(x.fs)[b+k] == Elem(pl, k) && Elem(pl, k) in x.states
    ensures Rank(x.fs, Elem(pl, k)) == b + k && !TailAt(x.fs, Raw(x.fs), Traverse(x.fs), b + k)
  {
    hide Traverse, Raw, Linear, NoDup, FieldOk, Preorder, ExitTo, WellFormed, BeforeExactly, Forward, Around, Holder, Outer;
    var fs, s := x.fs, Traverse(x.fs);
    assert ElemAt(fs, pl, b, k);
    SeqNoDup(fs, Raw(fs), s);
    PosUnique(s, b + k);
    VisitState(fs, pl.f, pl.q, k, Elem(pl, k));
    VisitSkips(fs, Raw(fs), s, b + k);
    assert CleanedAt(fs, Raw(fs), s, x.states, b + k);
  }

  /** After one element comes the next that the content gives. */
  lemma NextElem(x: Input, pl: Place, vs: seq<string>, a: nat, b: nat, k: nat, y: Tag)
    requires InputOk(x) && Given(x, pl, vs) && StartsAt(x.fs, pl, a, b) && k + 1 < |vs|
    requires Elem(pl, k) in x.states && y in Choices(x, Elem(pl, k))
    ensures y == Elem(pl, k + 1)
  {
    hide Traverse, Raw, Linear, Choices, FieldAction, Skip, Filled, StartsAt, FieldOk, Preorder, Final, Given, Elem;
    var fs, g, s := x.fs, Raw(x.fs), Traverse(x.fs);
    ElemKept(x, pl, vs, a, b, k);
    ElemKept(x, pl, vs, a, b, k + 1);
    StateFollowers(x, Elem(pl, k));
    ElemPreorder(x, pl, vs, k + 1);
    KeptFirst(fs, g, s, b + k + 1);
    assert Followers(fs, g, s, b + k)[0] == Elem(pl, k + 1);
    ChosenBy(x, Elem(pl, k), Elem(pl, k + 1), y);
    StepForward(x, Elem(pl, k), y);
    hide Reach, Followers;
    assert s[Rank(fs, y)] == y;
  }

  lemma ElemPreorder(x: Input, pl: Place, vs: seq<string>, k: nat)
    requires InputOk(x) && Given(x, pl, vs) && k < |vs|
    ensures !Skip(x.content, x.fs, Elem(pl, k)) && Filled(x, Elem(pl, k))
  {
    hide Given, Skip, Filled, Read, Elem;
    ElemContent(x, pl, vs, k);
  }

  /** A state of the list at that place. */
  predicate AtPlace(pl: Place, t: Tag) {
    t.field == pl.f && pl.q <= t.indices
  }

  /** The part of the walk that visits the list: from position m, one visit per element. */
  ghost predicate VisitsExactly(w: seq<Tag>, pl: Place, m: nat, n: nat) {
    && m + n <= |w|
    && (forall k :: 0 <= k < n ==> w[m+k] == Elem(pl, k))
    && forall i :: 0 <= i < |w| && AtPlace(pl, w[i]) ==> m <= i < m + n
  }

  ghost predicate StepIn(x: Input, w: seq<Tag>, i: nat)
    requires i + 1 < |w|
  {
    w[i] in x.states && w[i+1] in Choices(x, w[i])
  }

  lemma {:induction false} WalkStep(x: Input, w: seq<Tag>, i: nat)
    requires Walk(x, w) && i + 1 < |w|
    ensures StepIn(x, w, i)
  {
    hide Choices;
    if i > 0 {
      WalkStep(x, w[1..], i - 1);
      assert w[1..][i-1] == w[i] && w[1..][i] == w[i+1];
    }
  }

  /** Along a walk the ranks rise, so no state is met twice. */
  lemma {:induction false} WalkRises(x: Input, w: seq<Tag>, i: nat, j: nat)
    requires InputOk(x) && Walk(x, w) && i <= j < |w|
    ensures w[i] in Traverse(x.fs) && w[j] in Traverse(x.fs) && w[j] in x.states
    ensures i < j ==> Rank(x.fs, w[i]) < Rank(x.fs, w[j]) && !Skip(x.content, x.fs, w[j])
    decreases j
  {
    hide Choices, Traverse, Skip, Walk, Final, WellFormed;
    if j == 0 {
      WalkStart(x, w);
      FinalForward(x.fs, x.states, w[0]);
    } else {
      WalkStep(x, w, j - 1);
      StepForward(x, w[j-1], w[j]);
      ChoiceOpen(x, w[j-1], w[j]);
      if i < j {
        WalkRises(x, w, i, j - 1);
      }
    }
  }

  lemma WalkStart(x: Input, w: seq<Tag>)
    requires Walk(x, w)
    ensures |w| > 0 && w[0] in x.states
  {
  }

  /** A visit to the list on a walk is a visit to an element the content has. */
  lemma VisitGiven(x: Input, pl: Place, vs: seq<string>, w: seq<Tag>, i: nat) returns (k: nat)
    requires InputOk(x) && Given(x, pl, vs) && Walk(x, w) && w[0] == ROOT && i < |w| && AtPlace(pl, w[i])
    ensures k < |vs| && w[i] == Elem(pl, k)
  {
    hide Traverse, Skip, Walk, Final, FieldOk, Preorder, Read, Outer, Holder;
    WalkRises(x, w, 0, i);
    CountBounds(x.fs, w[i]);
    k := Count(w[i]);
    assert w[i].indices == pl.q + [k];
    ElemContent(x, pl, vs, k);
  }

  /** Where a walk, from position m0 on, first gets to rank b. */
  lemma Crossing(x: Input, w: seq<Tag>, m0: nat, b: nat) returns (m: nat)
    requires InputOk(x) && Walk(x, w) && m0 < |w|
    requires forall i | 0 <= i < |w| :: w[i] in Traverse(x.fs)
    requires Rank(x.fs, w[m0]) < b <= Rank(x.fs, w[|w|-1])
    ensures m0 <= m && m + 1 < |w| && Rank(x.fs, w[m]) < b <= Rank(x.fs, w[m+1])
  {
    hide *;
    m := m0;
    while Rank(x.fs, w[m+1]) < b
      invariant m0 <= m && m + 1 < |w| && Rank(x.fs, w[m]) < b
      decreases |w| - m
    {
      m := m + 1;
    }
  }

  /** As long as the content has another element the run goes on. */
  lemma ElemGoesOn(x: Input, pl: Place, vs: seq<string>, a: nat, b: nat, k: nat)
    requires InputOk(x) && Given(x, pl, vs) && StartsAt(x.fs, pl, a, b) && k + 1 < |vs|
    ensures Elem(pl, k) in x.states && Choices(x, Elem(pl, k)) != []
  {
    hide Traverse, Raw, Linear, Choices, Skip, Filled, StartsAt, FieldOk, Preorder, Final, Given, Valid, WellFormed, Elem;
    var fs, g, s := x.fs, Raw(x.fs), Traverse(x.fs);
    ElemKept(x, pl, vs, a, b, k);
    ElemKept(x, pl, vs, a, b, k + 1);
    StateFollowers(x, Elem(pl, k));
    ElemPreorder(x, pl, vs, k + 1);
    ChoicesLeft(x, Elem(pl, k));
    ValidNone(x, x.states[Elem(pl, k)].successors);
    KeptFirst(fs, g, s, b + k + 1);
    assert Followers(fs, g, s, b + k)[0] == Elem(pl, k + 1);
  }

  /** The walk does not stop inside the list unless there is no way on. */
  ghost predicate StopsOk(x: Input, w: seq<Tag>, pl: Place)
    requires |w| > 0
  {
    AtPlace(pl, w[|w|-1]) ==> w[|w|-1] in x.states && Choices(x, w[|w|-1]) == []
  }

  lemma {:induction false} ElemsFollow(x: Input, pl: Place, vs: seq<string>, a: nat, b: nat, w: seq<Tag>, m: nat, k: nat)
    requires InputOk(x) && Given(x, pl, vs) && StartsAt(x.fs, pl, a, b) && Walk(x, w) && k < |vs|
    requires m < |w| && w[m] == Elem(pl, 0) && StopsOk(x, w, pl)
    ensures m + k < |w| && w[m+k] == Elem(pl, k)
  {
    hide Choices, Traverse, Skip, Walk, Final, WellFormed, StartsAt, Given;
    if k > 0 {
      ElemsFollow(x, pl, vs, a, b, w, m, k - 1);
      ElemGoesOn(x, pl, vs, a, b, k - 1);
      assert AtPlace(pl, Elem(pl, k - 1));
      WalkStep(x, w, m + k - 1);
      NextElem(x, pl, vs, a, b, k - 1, w[m+k]);
    }
  }

  /** The walk enters what is around the list, and gets to the list or behind it. */
  ghost predicate Passes(x: Input, pl: Place, w: seq<Tag>)
    requires pl.f < |x.fs|
  {
    |w| > 0 && Around(x.fs, pl) in w && !Before(x.fs, pl, w[|w|-1])
  }

  /** A walk that gets to a list whose content is given and does not stop there for nothing visits exactly the given
      elements, in order and with nothing in between, and the action of each visit is its text. */
  lemma ContentFixesLength(x: Input, pl: Place, vs: seq<string>, w: seq<Tag>) returns (m: nat)
    requires InputOk(x) && Given(x, pl, vs) && Walk(x, w) && w[0] == ROOT && Passes(x, pl, w) && StopsOk(x, w, pl)
    ensures VisitsExactly(w, pl, m, |vs|)
    ensures forall k, from | 0 <= k < |vs| :: Renders(x, Elem(pl, k), from, vs[k])
  {
    hide Choices, Traverse, Skip, Walk, Final, FieldAction, Read, Filled, StartsAt, FieldOk, Preorder, Given, Passes, StopsOk,
      Renders, Elem, AtPlace;
    if vs == [] {
      m := 0;
    } else {
      var a, b;
      a, b, m := EnterAt(x, pl, vs, w);
      forall k | 0 <= k < |vs| ensures m + k < |w| && w[m+k] == Elem(pl, k) {
        ElemsFollow(x, pl, vs, a, b, w, m, k);
      }
      ElemsFollow(x, pl, vs, a, b, w, m, |vs| - 1);
    }
    forall i | 0 <= i < |w| && AtPlace(pl, w[i]) ensures m <= i < m + |vs| {
      var k := VisitGiven(x, pl, vs, w, i);
      assert w[m+k] == Elem(pl, k);
      WalkRises(x, w, if i <= m + k then i else m + k, if i <= m + k then m + k else i);
    }
    forall k, from | 0 <= k < |vs| ensures Renders(x, Elem(pl, k), from, vs[k]) {
      GivenPreorder(x, pl, vs);
      ElemAction(x, pl, vs, k, from);
    }
  }

  lemma GivenPreorder(x: Input, pl: Place, vs: seq<string>)
    requires InputOk(x) && Given(x, pl, vs)
    ensures Preorder(x.fs) && ListAt(x.fs, pl)
  {
  }

  lemma EnterAt(x: Input, pl: Place, vs: seq<string>, w: seq<Tag>) returns (a: nat, b: nat, m: nat)
    requires InputOk(x) && Given(x, pl, vs) && vs != [] && Walk(x, w) && w[0] == ROOT && Passes(x, pl, w)
    ensures StartsAt(x.fs, pl, a, b)
    ensures m < |w| && w[m] == Elem(pl, 0)
  {
    hide Choices, Traverse, Skip, Walk, Final, Read, FieldOk, Preorder, Given, StartsAt, Before, Around, WellFormed, Elem;
    GivenPreorder(x, pl, vs);
    forall i | 0 <= i < |w| ensures w[i] in Traverse(x.fs) { WalkRises(x, w, 0, i); }
    var m0: nat :| m0 < |w| && w[m0] == Around(x.fs, pl);
    a, b := ListStarts(x.fs, pl);
    BeforeRanks(x.fs, pl, a, b, w[m0]);
    BeforeRanks(x.fs, pl, a, b, w[|w|-1]);
    WalkRises(x, w, m0, |w| - 1);
    m := Crossing(x, w, m0, b);
    WalkRises(x, w, m0, m);
    WalkStep(x, w, m);
    EnterList(x, pl, vs, a, b, w[m], w[m+1]);
    m := m + 1;
  }

  /** What is before the list is what has a rank between that of the state around it and that of the first element. */
  lemma BeforeRanks(fs: seq<Field>, pl: Place, a: nat, b: nat, t: Tag)
    requires WellFormed(fs) && StartsAt(fs, pl, a, b) && t in Traverse(fs)
    ensures pl.f < |fs| && (Before(fs, pl, t) <==> a <= Rank(fs, t) < b)
    ensures a < b && (t == Around(fs, pl) ==> Rank(fs, t) == a)
  {
    hide Traverse, Before, Forward, Preorder, FieldOk, Around, NoDup;
    assert Traverse(fs)[Rank(fs, t)] == t;
    TraverseDistinct(fs);
    PosUnique(Traverse(fs), a);
  }

  // ---- Walks that stay outside ---------------------------------------------------------------------------------

  lemma AroundKept(fs: seq<Field>, pl: Place, a: nat)
    requires WellFormed(fs) && ListAt(fs, pl) && Outer(fs, pl) >= 0 && a < |Traverse(fs)| && Traverse(fs)[a] == Around(fs, pl)
    ensures !TailAt(fs, Raw(fs), Traverse(fs), a)
  {
    hide Traverse, Raw, Linear, FieldOk, Preorder, Parent;
    var t := Around(fs, pl);
    PlaceFacts(fs, pl);
    EdgeCases(fs, t);
    assert t == Tag(t.field, Prefix(t) + [Count(t)]);
    VisitState(fs, t.field, Prefix(t), Count(t), t);
    VisitSkips(fs, Raw(fs), Traverse(fs), a);
  }

  /** What follows a state that is not inside, and not the one around the list, is not inside. */
  lemma StepApart(x: Input, pl: Place, a: nat, c: nat, t: Tag, y: Tag)
    requires InputOk(x) && ListAt(x.fs, pl) && Outer(x.fs, pl) >= 0 && InsideExactly(x.fs, pl, a, c)
    requires a < |Traverse(x.fs)| && Traverse(x.fs)[a] == Around(x.fs, pl)
    requires t in x.states && t != Around(x.fs, pl) && !Under(x.fs, Outer(x.fs, pl), pl.q, t) && y in Choices(x, t)
    ensures !Under(x.fs, Outer(x.fs, pl), pl.q, y)
  {
    hide Traverse, Raw, Linear, TailAt, Choices, Final, WellFormed, Under, Parent, ListAt, Skip, Reach, Around, CleanedAt;
    var fs, g, s := x.fs, Raw(x.fs), Traverse(x.fs);
    StateFollowers(x, t);
    ChoiceOpen(x, t, y);
    AroundKept(fs, pl, a);
    var j := Rank(fs, t);
    assert s[j] == t;
    if j < a { KeptLeast(fs, g, s, j + 1, a); }
    ReachApart(fs, pl, a, c, KeptFrom(fs, g, s, j + 1));
  }

  lemma {:induction false} NeverInside(x: Input, pl: Place, a: nat, c: nat, w: seq<Tag>, i: nat)
    requires InputOk(x) && ListAt(x.fs, pl) && Outer(x.fs, pl) >= 0 && InsideExactly(x.fs, pl, a, c)
    requires a < |Traverse(x.fs)| && Traverse(x.fs)[a] == Around(x.fs, pl)
    requires Walk(x, w) && w[0] == ROOT && i < |w| && Around(x.fs, pl) !in w
    ensures !Under(x.fs, Outer(x.fs, pl), pl.q, w[i])
  {
    hide Traverse, Walk, Choices, Final, WellFormed, Parent, ListAt, Around, InsideExactly;
    if i > 0 {
      NeverInside(x, pl, a, c, w, i - 1);
      WalkStep(x, w, i - 1);
      hide Under;
      StepApart(x, pl, a, c, w[i-1], w[i]);
    }
  }

  /** A state of the list is inside what is around it. */
  lemma AtPlaceUnder(fs: seq<Field>, pl: Place, u: Tag)
    requires WellFormed(fs) && ListAt(fs, pl) && Outer(fs, pl) >= 0 && u in Traverse(fs) && AtPlace(pl, u)
    ensures Around(fs, pl) in Traverse(fs) && Under(fs, Outer(fs, pl), pl.q, u)
  {
    hide Traverse, Parent, FieldOk, Preorder;
    CountBounds(fs, u);
    assert Prefix(u) == pl.q;
    AroundVisited(fs, pl, u);
    ParentSpansEnd(fs, pl.f);
  }

  /** A walk that does not enter what is around a list visits nothing of the list. */
  lemma NotEntered(x: Input, pl: Place, w: seq<Tag>, i: nat)
    requires InputOk(x) && ListAt(x.fs, pl) && Walk(x, w) && w[0] == ROOT && i < |w| && Around(x.fs, pl) !in w
    ensures !AtPlace(pl, w[i])
  {
    hide Traverse, Walk, Choices, Final, WellFormed, Parent, InsideExactly, AtPlace, Under, Preorder;
    assert w[0] in w;
    WalkRises(x, w, i, i);
    if AtPlace(pl, w[i]) { AtPlaceUnder(x.fs, pl, w[i]); }
    if Around(x.fs, pl) in Traverse(x.fs) {
      var a, c := InsideBlock(x.fs, pl);
      NeverInside(x, pl, a, c, w, i);
    }
  }
}
