/** What content does to the runs of the automaton: when it fixes the length of a list, and when it does not. */
module ContentRuns {
  import opened Schema
  import opened Traversal
  import opened Concretize
  import opened LinearGraph
  import opened StateAutomaton
  import opened Documents
  import opened Fta
  import opened FtaBuilder
  import opened DecisionWalks
  import opened ListPlaces
  import opened ContentLength
  import opened Instantiation
  import opened AutomatonRuns

  // ---- The field actions of a run -------------------------------------------------------------------------

  /** The states of a list along a walk. */
  function OfPlace(w: seq<Tag>, pl: Place): seq<Tag> {
    if w == [] then [] else Head(w[0], pl) + OfPlace(w[1..], pl)
  }

  /** The part of OfPlace a first state makes. */
  function Head(u: Tag, pl: Place): seq<Tag> {
    if AtPlace(pl, u) then [u] else []
  }

  /** An action of the list. */
  predicate Concerns(a: Action, pl: Place) {
    a.field == Some(pl.f) && pl.q <= a.indices
  }

  /** The actions of a list along a run, in order. */
  ghost function FieldActions(actions: seq<Action>, r: seq<Uid>, pl: Place): seq<Action>
    requires forall uid | uid in r :: uid in Uids(actions)
  {
    if r == [] then []
    else
      var a := Act(actions, r[0]);
      (if Concerns(a, pl) then [a] else []) + FieldActions(actions, r[1..], pl)
  }

  /** a is the action made for visiting u after some state. */
  ghost predicate Plays(x: Input, a: Action, u: Tag) {
    exists from :: PlaysAfter(x, a, u, from)
  }

  ghost predicate PlaysAfter(x: Input, a: Action, u: Tag, from: Tag) {
    0 <= u.field < |x.fs| && FieldAction(x, u, from) == Some(a)
  }

  /** Of all actions those of leaves carry a field. */
  lemma UidAction(x: Input, header: string, b: Build, uid: Uid)
    requires Automaton(x, header, b) && uid in Uids(b.actions)
    ensures var a := Act(b.actions, uid);
      match uid
      case FieldOf(u, _) => a.field == Some(u.field) && a.indices == u.indices && Plays(x, a, u)
      case SkipOf(u, _) => a.field.None? && 0 <= u.field < |x.fs| && x.fs[u.field].IsRecord()
      case _ => a.field.None?
  {
    hide FieldBody, Choices, Decide, BranchBody, MemoOk, Describable, NoDup;
    ActFine(x, header, b, uid);
    var a := Act(b.actions, uid);
    match uid {
      case FieldOf(u, t) => assert PlaysAfter(x, a, u, t);
      case _ =>
    }
  }

  /** The actions of a leaf list along a run are those made for the states of it the run visits. */
  lemma {:induction false} FieldActionsPlay(x: Input, header: string, b: Build, r: seq<Uid>, pl: Place)
    requires Automaton(x, header, b) && pl.f < |x.fs| && !x.fs[pl.f].IsRecord()
    requires forall uid | uid in r :: uid in Uids(b.actions)
    ensures var acts, us := FieldActions(b.actions, r, pl), OfPlace(Visits(r), pl);
      |acts| == |us| && forall k :: 0 <= k < |acts| ==> Plays(x, acts[k], us[k])
    decreases |r|
  {
    hide Automaton, Plays, Uids;
    if r != [] {
      UidAction(x, header, b, r[0]);
      FieldActionsPlay(x, header, b, r[1..], pl);
      OfPlaceStep(r, pl);
      hide Visits, OfPlace;
    }
  }

  lemma OfPlaceStep(r: seq<Uid>, pl: Place)
    requires r != []
    ensures OfPlace(Visits(r), pl) ==
      (if r[0].FieldOf? || r[0].SkipOf? then Head(r[0].succ, pl) else []) + OfPlace(Visits(r[1..]), pl)
  {
    var rest := Visits(r[1..]);
    if r[0].FieldOf? || r[0].SkipOf? {
      assert Visits(r) == [r[0].succ] + rest;
      hide Visits;
      OfPlaceCons(r[0].succ, rest, pl);
    } else {
      assert Visits(r) == rest;
      hide Visits;
      assert [] + OfPlace(rest, pl) == OfPlace(rest, pl);
    }
  }

  lemma {:induction false} OfPlaceNone(w: seq<Tag>, pl: Place)
    requires forall u | u in w :: !AtPlace(pl, u)
    ensures OfPlace(w, pl) == []
  {
    if w != [] { OfPlaceNone(w[1..], pl); }
  }

  lemma {:induction false} OfPlaceAll(w: seq<Tag>, pl: Place)
    requires forall u | u in w :: AtPlace(pl, u)
    ensures OfPlace(w, pl) == w
  {
    if w != [] { OfPlaceAll(w[1..], pl); }
  }

  lemma OfPlaceCons(u: Tag, w: seq<Tag>, pl: Place)
    ensures OfPlace([u] + w, pl) == Head(u, pl) + OfPlace(w, pl)
  {
    hide Head;
    assert ([u] + w)[1..] == w;
  }

  lemma {:induction false} OfPlaceConcat(v: seq<Tag>, w: seq<Tag>, pl: Place)
    ensures OfPlace(v + w, pl) == OfPlace(v, pl) + OfPlace(w, pl)
  {
    if v == [] {
      assert v + w == w && OfPlace(v, pl) == [];
    } else {
      hide OfPlace, Head;
      var u, rest := v[0], v[1..];
      assert v == [u] + rest && v + w == [u] + (rest + w);
      OfPlaceConcat(rest, w, pl);
      OfPlaceCons(u, rest, pl);
      OfPlaceCons(u, rest + w, pl);
      Regroup(Head(u, pl), OfPlace(rest, pl), OfPlace(w, pl));
    }
  }

  lemma Regroup<T>(a: seq<T>, b: seq<T>, c: seq<T>)
    ensures a + (b + c) == (a + b) + c
  {
  }

  /** A walk that visits exactly n elements has these and no other states of the list. */
  lemma OfPlaceExact(w: seq<Tag>, pl: Place, m: nat, n: nat)
    requires VisitsExactly(w, pl, m, n)
    ensures |OfPlace(w, pl)| == n && forall k :: 0 <= k < n ==> OfPlace(w, pl)[k] == Elem(pl, k)
  {
    hide OfPlace, AtPlace, Elem;
    var a, mid, z := w[..m], w[m..m+n], w[m+n..];
    ExactParts(w, pl, m, n);
    hide VisitsExactly;
    assert w == a + (mid + z);
    OfPlaceNone(a, pl);
    OfPlaceAll(mid, pl);
    OfPlaceNone(z, pl);
    OfPlaceConcat(a, mid + z, pl);
    OfPlaceConcat(mid, z, pl);
    assert [] + (mid + []) == mid;
  }

  lemma ExactParts(w: seq<Tag>, pl: Place, m: nat, n: nat)
    requires VisitsExactly(w, pl, m, n)
    ensures m + n <= |w| && forall k :: 0 <= k < n ==> w[m..m+n][k] == Elem(pl, k)
    ensures forall u | u in w[..m] :: !AtPlace(pl, u)
    ensures forall u | u in w[m..m+n] :: AtPlace(pl, u)
    ensures forall u | u in w[m+n..] :: !AtPlace(pl, u)
  {
    var mid, z := w[m..m+n], w[m+n..];
    forall k ensures AtPlace(pl, Elem(pl, k)) {}
    hide AtPlace, Elem;
    forall u | u in z ensures !AtPlace(pl, u) { var i :| 0 <= i < |z| && z[i] == u; assert w[m+n+i] == u; }
    forall u | u in mid ensures AtPlace(pl, u) { var k :| 0 <= k < n && mid[k] == u; assert w[m+k] == Elem(pl, k); }
    forall u | u in w[..m] ensures !AtPlace(pl, u) { var i :| 0 <= i < m && w[i] == u; }
  }

  // ---- When content fixes the length of a list ---------------------------------------------------------------

  /** One text per element, in order, each with its index. */
  ghost predicate ListTexts(acts: seq<Action>, pl: Place, vs: seq<string>) {
    |acts| == |vs| && forall k :: 0 <= k < |vs| ==>
      acts[k].field == Some(pl.f) && acts[k].indices == pl.q + [k] && acts[k].body == Text(vs[k])
  }

  /** A run from the header to an end. */
  ghost predicate FullRun(actions: seq<Action>, r: seq<Uid>) {
    Thread(actions, r) && r[0] == Header
  }

  /** The actions of the list along the run are the texts vs. */
  ghost predicate GivesList(actions: seq<Action>, r: seq<Uid>, pl: Place, vs: seq<string>) {
    (forall uid | uid in r :: uid in Uids(actions)) && ListTexts(FieldActions(actions, r, pl), pl, vs)
  }

  /** The walk enters what is around the list. */
  ghost predicate Enters(fs: seq<Field>, pl: Place, w: seq<Tag>)
    requires pl.f < |fs|
  {
    Around(fs, pl) in w
  }

  /** The last state a run gets to. */
  function LastOf(r: seq<Uid>): Tag {
    ([ROOT] + Visits(r))[|Visits(r)|]
  }

  /** A complete run that enters what is around a list gets to the list or behind it, unless it comes to its end in front
      of a list that runs short. */
  lemma EndsBeyond(x: Input, pl: Place, w: seq<Tag>)
    requires InputOk(x) && CompleteWalk(x, w) && ListAt(x.fs, pl) && Enters(x.fs, pl, w)
    ensures !Before(x.fs, pl, w[|w|-1]) || RunsShort(x.fs, x.content, w[|w|-1])
  {
    hide Traverse, Walk, Choices, RunsShort, Skip, Final, Preorder, FieldOk, Before, Around, StartsAt;
    var fs, last := x.fs, w[|w|-1];
    RootOpen(x);
    WalkOpen(x, w);
    NoDeadEnd(x, last);
    if !RunsShort(fs, x.content, last) {
      var a, b := EnteredAt(x, pl, w);
      BeforeRanks(fs, pl, a, b, last);
      StartsInside(fs, pl, a, b);
    }
  }

  lemma StartsInside(fs: seq<Field>, pl: Place, a: nat, b: nat)
    requires StartsAt(fs, pl, a, b)
    ensures b < |Traverse(fs)|
  {
  }

  lemma EnteredAt(x: Input, pl: Place, w: seq<Tag>) returns (a: nat, b: nat)
    requires InputOk(x) && Walk(x, w) && ListAt(x.fs, pl) && Enters(x.fs, pl, w)
    ensures StartsAt(x.fs, pl, a, b)
  {
    hide Traverse, Walk, Final, StartsAt, ListAt, Around, WellFormed;
    ListLeafField(x.fs, pl);
    var i :| 0 <= i < |w| && w[i] == Around(x.fs, pl);
    WalkRises(x, w, i, i);
    a, b := ListStarts(x.fs, pl);
  }

  /** Before the list nothing of it is visited. */
  lemma NotYet(x: Input, pl: Place, w: seq<Tag>)
    requires InputOk(x) && Walk(x, w) && w[0] == ROOT && ListAt(x.fs, pl) && Enters(x.fs, pl, w) && Before(x.fs, pl, w[|w|-1])
    ensures OfPlace(w, pl) == []
  {
    hide Traverse, Walk, Choices, Skip, Final, Preorder, FieldOk, OfPlace, Before, Around, StartsAt, AtPlace, Outer;
    var a, b := EnteredAt(x, pl, w);
    forall u | u in w ensures !AtPlace(pl, u) {
      var i :| 0 <= i < |w| && w[i] == u;
      WalkRises(x, w, 0, i);
      WalkRises(x, w, i, |w| - 1);
      BeforeRanks(x.fs, pl, a, b, w[|w|-1]);
      if AtPlace(pl, u) { PlaceRank(x.fs, pl, a, b, u); }
    }
    OfPlaceNone(w, pl);
  }

  /** What is of the list comes behind its start. */
  lemma PlaceRank(fs: seq<Field>, pl: Place, a: nat, b: nat, u: Tag)
    requires WellFormed(fs) && ListAt(fs, pl) && StartsAt(fs, pl, a, b) && u in Traverse(fs) && AtPlace(pl, u)
    ensures b <= Rank(fs, u)
  {
    hide Traverse, Forward, Preorder, FieldOk, NoDup, BeforeExactly, Outer;
    CountBounds(fs, u);
    var k := Count(u);
    assert u.indices == pl.q + [k];
    assert ElemAt(fs, pl, b, k);
    TraverseDistinct(fs);
    PosUnique(Traverse(fs), b + k);
  }

  /** How often, and with what, a complete walk visits a list the content gives. */
  lemma WalkGives(x: Input, pl: Place, vs: seq<string>, w: seq<Tag>)
    requires InputOk(x) && Given(x, pl, vs) && CompleteWalk(x, w) && Enters(x.fs, pl, w)
    ensures if vs == [] || !Before(x.fs, pl, w[|w|-1])
      then |OfPlace(w, pl)| == |vs| && forall k :: 0 <= k < |vs| ==> OfPlace(w, pl)[k] == Elem(pl, k)
      else OfPlace(w, pl) == []
  {
    hide Traverse, Walk, Choices, Final, OfPlace, VisitsExactly, Elem, Skip, Read, Before, Around, AtPlace, Given, WellFormed;
    GivenPreorder(x, pl, vs);
    if Before(x.fs, pl, w[|w|-1]) {
      NotYet(x, pl, w);
    } else {
      var m := ContentFixesLength(x, pl, vs, w);
      OfPlaceExact(w, pl, m, |vs|);
    }
  }

  lemma PlaysElem(x: Input, pl: Place, vs: seq<string>, k: nat, a: Action)
    requires Preorder(x.fs) && Given(x, pl, vs) && k < |vs| && Plays(x, a, Elem(pl, k))
    ensures a.field == Some(pl.f) && a.indices == pl.q + [k] && a.body == Text(vs[k])
  {
    hide Given, FieldAction;
    var from :| PlaysAfter(x, a, Elem(pl, k), from);
    ElemAction(x, pl, vs, k, from);
  }

  lemma RunWalk(x: Input, header: string, b: Build, r: seq<Uid>)
    requires Automaton(x, header, b) && FullRun(b.actions, r)
    ensures CompleteWalk(x, [ROOT] + Visits(r))
    ensures forall uid | uid in r :: uid in Uids(b.actions)
  {
    hide Automaton, Thread, Visits, CompleteWalk, Uids;
    ThreadStep(b.actions, r);
    RunsAreWalks(x, header, b, Visits(r));
    forall uid | uid in r ensures uid in Uids(b.actions) {
      var i :| 0 <= i < |r| && r[i] == uid;
      InThread(b.actions, r, i);
    }
  }

  /** A run of the automaton has one action per element the content gives for a list, in order, each the text of its element,
      exactly if it enters what is around the list and does not come to its end before the list, in front of another
      one that runs short. */
  lemma RunGivesList(x: Input, header: string, b: Build, r: seq<Uid>, pl: Place, vs: seq<string>)
    requires InputOk(x) && Automaton(x, header, b) && Given(x, pl, vs) && FullRun(b.actions, r)
    ensures GivesList(b.actions, r, pl, vs) <==>
      || vs == []
      || (Enters(x.fs, pl, [ROOT] + Visits(r)) && !(Before(x.fs, pl, LastOf(r)) && RunsShort(x.fs, x.content, LastOf(r))))
  {
    hide Automaton, Thread, Visits, CompleteWalk, Uids, RunsShort, OfPlace, FieldActions, Given, Final, Plays, Before, Around,
      ListAt, Enters, Elem;
    var w := [ROOT] + Visits(r);
    RunWalk(x, header, b, r);
    GivenPreorder(x, pl, vs);
    ListLeafField(x.fs, pl);
    if Enters(x.fs, pl, w) {
      EndsBeyond(x, pl, w);
      WalkGives(x, pl, vs, w);
    } else {
      StaysOut(x, pl, w);
    }
    FieldActionsPlay(x, header, b, r, pl);
    RootApart(Visits(r), pl);
    var acts, us := FieldActions(b.actions, r, pl), OfPlace(Visits(r), pl);
    if vs == [] || (Enters(x.fs, pl, w) && !Before(x.fs, pl, LastOf(r))) {
      forall k | 0 <= k < |vs| ensures acts[k].field == Some(pl.f) && acts[k].indices == pl.q + [k] && acts[k].body == Text(vs[k]) {
        assert Plays(x, acts[k], us[k]);
        PlaysElem(x, pl, vs, k, acts[k]);
      }
    }
  }

  lemma StaysOut(x: Input, pl: Place, w: seq<Tag>)
    requires InputOk(x) && CompleteWalk(x, w) && ListAt(x.fs, pl) && !Enters(x.fs, pl, w)
    ensures OfPlace(w, pl) == []
  {
    hide Walk, Final, WellFormed, ListAt, Around, AtPlace, OfPlace;
    forall u | u in w ensures !AtPlace(pl, u) {
      var i :| 0 <= i < |w| && w[i] == u;
      NotEntered(x, pl, w, i);
    }
    OfPlaceNone(w, pl);
  }

  lemma ListLeafField(fs: seq<Field>, pl: Place)
    requires ListAt(fs, pl)
    ensures pl.f < |fs| && !fs[pl.f].IsRecord()
  {
  }

  /** A run that comes to its end before the list has no action for it. */
  lemma EarlyEnd(x: Input, header: string, b: Build, r: seq<Uid>, pl: Place)
    requires InputOk(x) && Automaton(x, header, b) && FullRun(b.actions, r) && ListAt(x.fs, pl)
    requires Enters(x.fs, pl, [ROOT] + Visits(r)) && Before(x.fs, pl, LastOf(r))
    ensures forall uid | uid in r :: uid in Uids(b.actions)
    ensures FieldActions(b.actions, r, pl) == []
  {
    hide Automaton, Thread, Visits, Uids, OfPlace, FieldActions, Final, Plays, Walk, Choices, Preorder, FieldOk, Before, Around,
      ListAt, Enters;
    RunWalk(x, header, b, r);
    ListLeafField(x.fs, pl);
    NotYet(x, pl, [ROOT] + Visits(r));
    RootApart(Visits(r), pl);
    FieldActionsPlay(x, header, b, r, pl);
  }

  lemma RootApart(us: seq<Tag>, pl: Place)
    ensures OfPlace([ROOT] + us, pl) == OfPlace(us, pl)
  {
    assert ([ROOT] + us)[1..] == us;
  }

  /** A walk from the root that enters what is around the list can get to t. */
  ghost predicate ReachedWithin(x: Input, pl: Place, t: Tag)
    requires pl.f < |x.fs|
  {
    exists w :: WalkTo(x, w, t) && Enters(x.fs, pl, w)
  }

  /** Content fixes the length of a list on all runs that enter what is around it, whatever the model chooses, exactly if no
      state before the list that can be reached in there sits in front of a list that runs short. */
  lemma RunsFollowContent(x: Input, header: string, b: Build, pl: Place, vs: seq<string>)
    requires InputOk(x) && Automaton(x, header, b) && Given(x, pl, vs)
    ensures (forall r | FullRun(b.actions, r) && Enters(x.fs, pl, [ROOT] + Visits(r)) :: GivesList(b.actions, r, pl, vs)) <==>
      vs == [] || forall t | ReachedWithin(x, pl, t) && Before(x.fs, pl, t) :: !RunsShort(x.fs, x.content, t)
  {
    hide Automaton, Thread, Visits, RunsShort, GivesList, Given, Final, Walk, Choices, CompleteWalk, LastOf, ReachedWithin, Uids,
      Enters, Before, Around, ListAt;
    GivenPreorder(x, pl, vs);
    ListLeafField(x.fs, pl);
    forall r | FullRun(b.actions, r) && Enters(x.fs, pl, [ROOT] + Visits(r))
      ensures GivesList(b.actions, r, pl, vs) <==>
        vs == [] || !(Before(x.fs, pl, LastOf(r)) && RunsShort(x.fs, x.content, LastOf(r)))
      ensures ReachedWithin(x, pl, LastOf(r))
    {
      RunGivesList(x, header, b, r, pl, vs);
      RunReaches(x, header, b, r, pl);
    }
    forall t | ReachedWithin(x, pl, t) && RunsShort(x.fs, x.content, t)
      ensures exists r :: FullRun(b.actions, r) && Enters(x.fs, pl, [ROOT] + Visits(r)) && LastOf(r) == t
    {
      var r := ShortRun(x, header, b, pl, t);
    }
  }

  lemma RunReaches(x: Input, header: string, b: Build, r: seq<Uid>, pl: Place)
    requires InputOk(x) && Automaton(x, header, b) && FullRun(b.actions, r) && pl.f < |x.fs|
    requires Enters(x.fs, pl, [ROOT] + Visits(r))
    ensures ReachedWithin(x, pl, LastOf(r))
  {
    hide Automaton, Thread, Visits, Walk, Enters, Choices;
    RunWalk(x, header, b, r);
    assert WalkTo(x, [ROOT] + Visits(r), LastOf(r));
  }

  /** A run that ends in front of a list that runs short. */
  lemma ShortRun(x: Input, header: string, b: Build, pl: Place, t: Tag) returns (r: seq<Uid>)
    requires InputOk(x) && Automaton(x, header, b) && pl.f < |x.fs|
    requires ReachedWithin(x, pl, t) && RunsShort(x.fs, x.content, t)
    ensures FullRun(b.actions, r) && Enters(x.fs, pl, [ROOT] + Visits(r)) && LastOf(r) == t
  {
    hide Automaton, Thread, Walk, RunsShort, Final, Enters, Skip, Choices;
    var w :| WalkTo(x, w, t) && Enters(x.fs, pl, w);
    RootOpen(x);
    WalkOpen(x, w);
    NoDeadEnd(x, t);
    assert w == [ROOT] + w[1..];
    RunsAreWalks(x, header, b, w[1..]);
    r :| |r| > 0 && r[0] == Header && Thread(b.actions, r) && Visits(r) == w[1..];
    hide Visits;
  }
}
