/** Content fixes the length of every list, of a list of records as of one of leaves: a complete run that enters what is around
    it opens exactly as many elements as the content has items there. */
module RecordLists {
  import opened Schema
  import opened Traversal
  import opened LinearGraph
  import opened Instances
  import opened StateAutomaton
  import opened Documents
  import opened Fta
  import opened FtaBuilder
  import opened DecisionWalks
  import opened ListPlaces
  import opened ContentLength
  import opened Instantiation
  import opened AutomatonRuns
  import opened ContentRuns

  // ---- Where the elements stand -------------------------------------------------------------------------------

  /** A stretch of the run from one state to another. */
  ghost predicate FromTo(fs: seq<Field>, a: nat, b: nat, t: Tag, u: Tag) {
    Stretch(fs, a, b) && Traverse(fs)[a] == t && Traverse(fs)[b] == u
  }

  /** From the state around a list to its first element. */
  lemma ToFirst(fs: seq<Field>, pl: Place) returns (a: nat, b: nat)
    requires WellFormed(fs) && PlaceAt(fs, pl) && Around(fs, pl) in Traverse(fs)
    ensures FromTo(fs, a, b, Around(fs, pl), Elem(pl, 0))
  {
    hide Traverse, PlaceAt, Preorder, FieldOk, NoneUnder, Parent, Visit;
    var pre, blk, tail, post := PlaceParts(fs, pl);
    a, b := |pre|, |pre| + 1 + |blk|;
    FirstVisit(fs, pl, tail);
    FrontIs(Traverse(fs), pre, Around(fs, pl), blk, tail, post);
    PieceAt(Traverse(fs), pre, Around(fs, pl), blk, tail, post, b);
    hide Parts, Forward;
    assert Stretch(fs, a, b);
  }

  lemma FirstVisit(fs: seq<Field>, pl: Place, tail: seq<Tag>)
    requires pl.f < |fs| && 0 <= fs[pl.f].Reps() && Visit(fs, pl.f, pl.q, 0) <= tail
    ensures |tail| > 0 && tail[0] == Elem(pl, 0)
  {
    hide Siblings, HasChild;
    assert Visit(fs, pl.f, pl.q, 0)[0] == Elem(pl, 0);
  }

  /** From one element to the next. */
  lemma ToNext(fs: seq<Field>, pl: Place, k: nat) returns (a: nat, b: nat)
    requires WellFormed(fs) && PlaceAt(fs, pl) && k < fs[pl.f].Reps() && Elem(pl, k) in Traverse(fs)
    ensures FromTo(fs, a, b, Elem(pl, k), Elem(pl, k + 1))
  {
    hide Traverse, Traversal.Body, NoneUnder, Forward, Preorder, FieldOk, Parent, Siblings, HasChild, Next;
    var t := Elem(pl, k);
    assert Opened(fs, t);
    var pre, post := TraverseHolds(fs, t);
    var body := Traversal.Body(fs, pl.f, pl.q + [k]);
    a, b := |pre|, |pre| + 1 + |body|;
    var s := Traverse(fs);
    assert s[a] == t && s[a+1..b] == body;
    assert b - 1 < |s| && s[b-1] == ([t] + body)[|body|];
    BodyLeads(fs, pl, k);
    TraverseForward(fs);
    StepsTo(fs, s, b, Elem(pl, k + 1));
  }

  /** The step from b - 1 leads to u, so u is at b. */
  lemma StepsTo(fs: seq<Field>, s: seq<Tag>, b: nat, u: Tag)
    requires Preorder(fs) && 0 < b <= |s| && Forward(fs, s, ROOT) && u != ROOT
    requires TagOf(fs, s[b-1]) ==> Next(fs, s[b-1]) == Some(u)
    ensures b < |s| && s[b] == u
  {
    hide Next, TagOf, ExitsWithin;
    assert StepsOn(fs, s, ROOT, b - 1);
  }

  lemma BodyLeads(fs: seq<Field>, pl: Place, k: nat)
    requires WellFormed(fs) && PlaceAt(fs, pl) && k < fs[pl.f].Reps()
    ensures Preorder(fs) && Forward(fs, Traversal.Body(fs, pl.f, pl.q + [k]), Elem(pl, k + 1))
    ensures var u := ([Elem(pl, k)] + Traversal.Body(fs, pl.f, pl.q + [k]))[|Traversal.Body(fs, pl.f, pl.q + [k])|];
      TagOf(fs, u) ==> Next(fs, u) == Some(Elem(pl, k + 1))
  {
    hide Siblings, Parent, FieldOk, HasSibling, ExitTo, End;
    VisitEdges(fs, pl.f, pl.q, k);
    var body := Traversal.Body(fs, pl.f, pl.q + [k]);
    if HasChild(fs, pl.f) {
      ChildAfter(fs, pl.f, pl.q, k);
      SiblingsForward(fs, pl.f + 1, pl.q + [k]);
      hide Next, TagOf, FlowTarget, ExitTarget;
      if body != [] { assert StepsOn(fs, body, Elem(pl, k + 1), |body| - 1); }
      NotEmpty(fs, pl.f + 1, pl.q + [k]);
    }
  }

  lemma NotEmpty(fs: seq<Field>, f: nat, q: seq<int>)
    requires f < |fs|
    ensures Siblings(fs, f, q) != []
  {
  }

  /** Where the state around a list is visited, so are its elements. */
  lemma {:induction false} ElemThere(fs: seq<Field>, pl: Place, k: nat)
    requires WellFormed(fs) && PlaceAt(fs, pl) && Around(fs, pl) in Traverse(fs) && k <= fs[pl.f].Reps()
    ensures Elem(pl, k) in Traverse(fs)
  {
    hide Traverse, Stretch, PlaceAt, FieldOk, Preorder, Around, Elem;
    if k == 0 {
      var a, b := ToFirst(fs, pl);
      StretchIn(fs, a, b);
    } else {
      ElemThere(fs, pl, k - 1);
      var a, b := ToNext(fs, pl, k - 1);
      StretchIn(fs, a, b);
    }
  }

  lemma StretchIn(fs: seq<Field>, a: nat, b: nat)
    requires Stretch(fs, a, b)
    ensures Preorder(fs) && a < b < |Traverse(fs)| && Rank(fs, Traverse(fs)[a]) == a && Rank(fs, Traverse(fs)[b]) == b
  {
    hide Traverse, Forward, Preorder, NoDup;
    TraverseDistinct(fs);
    PosUnique(Traverse(fs), a);
    PosUnique(Traverse(fs), b);
  }

  // ---- The walk through the elements --------------------------------------------------------------------------

  ghost predicate NoneNull(items: seq<Doc>) {
    forall i :: 0 <= i < |items| ==> items[i] != Null
  }

  /** An element that the content has, and not as null, is a state of the automaton and is not passed over. */
  lemma ItemOpen(x: Input, pl: Place, items: seq<Doc>, k: nat)
    requires InputOk(x) && Holds(x, pl, items) && k < |items| && items[k] != Null && Elem(pl, k) in Traverse(x.fs)
    ensures Elem(pl, k) in x.states && !Skip(x.content, x.fs, Elem(pl, k)) && Filled(x, Elem(pl, k))
    ensures !TailAt(x.fs, Raw(x.fs), Traverse(x.fs), Rank(x.fs, Elem(pl, k)))
  {
    hide Traverse, Raw, Linear, NoDup, FieldOk, Preorder, ExitTo, WellFormed, Skip, Read, Holder, Outer;
    var fs, s := x.fs, Traverse(x.fs);
    WellPreorder(fs);
    ItemContent(x, pl, items, k);
    VisitState(fs, pl.f, pl.q, k, Elem(pl, k));
    var j := Rank(fs, Elem(pl, k));
    assert s[j] == Elem(pl, k);
    VisitSkips(fs, Raw(fs), s, j);
    assert CleanedAt(fs, Raw(fs), s, x.states, j);
  }

  lemma WellPreorder(fs: seq<Field>)
    requires WellFormed(fs)
    ensures Preorder(fs)
  {
  }

  /** A walk that gets from the start of a stretch to its end or further visits its end, if that is an element the
      content has. */
  lemma EndVisited(x: Input, pl: Place, items: seq<Doc>, w: seq<Tag>, k: nat, m0: nat, a: nat, b: nat)
    requires InputOk(x) && Holds(x, pl, items) && k < |items| && items[k] != Null
    requires Walk(x, w) && w[0] == ROOT && m0 < |w| && FromTo(x.fs, a, b, w[m0], Elem(pl, k))
    requires w[|w|-1] in Traverse(x.fs) && Rank(x.fs, Elem(pl, k)) <= Rank(x.fs, w[|w|-1])
    ensures Elem(pl, k) in w
  {
    hide Traverse, Choices, Walk, Final, WellFormed, Stretch, Holds, Skip, Filled, TailAt, Raw, Elem, Linear;
    StretchIn(x.fs, a, b);
    ItemOpen(x, pl, items, k);
    forall i | 0 <= i < |w| ensures w[i] in Traverse(x.fs) { WalkRises(x, w, 0, i); }
    var m := Crossing(x, w, m0, b);
    WalkRises(x, w, m0, m);
    WalkStep(x, w, m);
    NotPassed(x, a, b, w[m], w[m+1]);
  }

  /** A walk that enters what is around a list opens an element only if the content has it; and it does open every element the
      content has, if no item up to there is null, unless it ends in front of it. */
  lemma {:induction false} ItemsVisited(x: Input, pl: Place, items: seq<Doc>, w: seq<Tag>, k: nat)
    requires InputOk(x) && Holds(x, pl, items) && Walk(x, w) && w[0] == ROOT && Enters(x.fs, pl, w)
    ensures Elem(pl, k) in w ==> k < |items|
    ensures k < |items| && NoneNull(items[..k+1]) ==>
      || Elem(pl, k) in w
      || (Elem(pl, k) in Traverse(x.fs) && w[|w|-1] in Traverse(x.fs) && Rank(x.fs, w[|w|-1]) < Rank(x.fs, Elem(pl, k)))
  {
    hide Traverse, Choices, Walk, Final, WellFormed, Stretch, Skip, Filled, Raw, Linear, Around, Holder, Outer, Read;
    HoldsPlace(x, pl, items);
    if Elem(pl, k) in w { OpenedGiven(x, pl, items, w, k); }
    if k < |items| && NoneNull(items[..k+1]) {
      var m0: nat :| m0 < |w| && w[m0] == Around(x.fs, pl);
      WalkRises(x, w, m0, |w| - 1);
      ElemThere(x.fs, pl, k);
      assert items[..k+1][k] == items[k];
      if Rank(x.fs, Elem(pl, k)) <= Rank(x.fs, w[|w|-1]) {
        if k == 0 {
          var a, b := ToFirst(x.fs, pl);
          EndVisited(x, pl, items, w, k, m0, a, b);
        } else {
          assert items[..k] == items[..k+1][..k];
          ItemsVisited(x, pl, items, w, k - 1);
          ElemThere(x.fs, pl, k - 1);
          var a, b := ToNext(x.fs, pl, k - 1);
          StretchIn(x.fs, a, b);
          var m: nat :| m < |w| && w[m] == Elem(pl, k - 1);
          EndVisited(x, pl, items, w, k, m, a, b);
        }
      }
    }
  }

  lemma HoldsPlace(x: Input, pl: Place, items: seq<Doc>)
    requires InputOk(x) && Holds(x, pl, items)
    ensures WellFormed(x.fs) && Preorder(x.fs) && PlaceAt(x.fs, pl) && |items| <= x.fs[pl.f].Reps()
  {
    hide Holder, FieldOk, Outer;
  }

  lemma OpenedGiven(x: Input, pl: Place, items: seq<Doc>, w: seq<Tag>, k: nat)
    requires InputOk(x) && Preorder(x.fs) && Holds(x, pl, items) && Walk(x, w) && w[0] == ROOT && Elem(pl, k) in w
    ensures k < |items|
  {
    hide Traverse, Walk, Skip, Final, WellFormed, Preorder, Holds;
    var i :| 0 <= i < |w| && w[i] == Elem(pl, k);
    WalkRises(x, w, 0, i);
    ItemContent(x, pl, items, k);
  }

  /** A complete run that enters what is around a list, and does not come to its end in front of one that runs short, opens
      as many elements as the content has items, none of which is null: those, and no others. */
  lemma ItemsFixLength(x: Input, pl: Place, items: seq<Doc>, w: seq<Tag>)
    requires InputOk(x) && Holds(x, pl, items) && NoneNull(items) && CompleteWalk(x, w) && Enters(x.fs, pl, w)
    requires !RunsShort(x.fs, x.content, w[|w|-1])
    ensures forall k: nat :: Elem(pl, k) in w <==> k < |items|
  {
    hide Traverse, Walk, Choices, RunsShort, Skip, Final, WellFormed, Holds, NoneNull, Enters, Elem;
    RootOpen(x);
    WalkOpen(x, w);
    NoDeadEnd(x, w[|w|-1]);
    forall k: nat ensures Elem(pl, k) in w <==> k < |items| {
      ItemsVisited(x, pl, items, w, k);
      if k < |items| { NoneNullFront(items, k + 1); }
    }
  }

  lemma NoneNullFront(items: seq<Doc>, n: nat)
    requires NoneNull(items) && n <= |items|
    ensures NoneNull(items[..n])
  {
  }

  /** So does every run of the automaton. */
  lemma RunRepeats(x: Input, header: string, b: Build, r: seq<Uid>, pl: Place, items: seq<Doc>)
    requires InputOk(x) && Automaton(x, header, b) && FullRun(b.actions, r) && Holds(x, pl, items) && NoneNull(items)
    requires Enters(x.fs, pl, [ROOT] + Visits(r)) && !RunsShort(x.fs, x.content, LastOf(r))
    ensures forall k: nat :: Elem(pl, k) in [ROOT] + Visits(r) <==> k < |items|
  {
    hide Automaton, Thread, Visits, CompleteWalk, RunsShort, Holds, NoneNull, Enters, Elem;
    RunWalk(x, header, b, r);
    ItemsFixLength(x, pl, items, [ROOT] + Visits(r));
  }
}
