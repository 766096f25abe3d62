/** A run that misses a list although the content gives it: the check of content against the ranges does not look into an
    array that stands where the table has a record, but the descent that rules states out does. */
module StrayContent {
  import opened Schema
  import opened AbstractGraph
  import opened Traversal
  import opened LinearGraph
  import opened Language
  import opened StateAutomaton
  import opened Documents
  import opened ContentRanges
  import opened Fta
  import opened FtaBuilder
  import opened DecisionWalks
  import opened ListPlaces
  import opened ContentLength
  import opened Instances
  import opened Instantiation
  import opened AutomatonRuns
  import opened ContentRuns

  const ANSWER := Completion(None, None)

  /** A record with a list of one leaf in it, a list of one leaf, and a leaf. */
  const TABLE := [
    Field("r", 1, 0, 0, [], None, Record),
    Field("l", 2, 0, 1, [], Some((1, 1)), ANSWER),
    Field("tags", 1, 1, 2, [], Some((1, 1)), ANSWER),
    Field("last", 1, 2, 3, [], None, ANSWER)]

  const CONTENT := Object(map["r" := Array([]), "tags" := Array([Scalar("a")])])

  /** The list that follows the record. */
  const TAGS := Place(2, [])

  const ENTRY := Tag(0, [0])
  const INSIDE := Tag(1, [0, 0])

  lemma TableShape()
    ensures End(TABLE, 0) == 2 && End(TABLE, 2) == 3 && End(TABLE, 3) == 4
    ensures Parent(TABLE, 0) == -1 && Parent(TABLE, 1) == 0 && Parent(TABLE, 2) == -1 && Parent(TABLE, 3) == -1
  {
    assert SkipDeeper(TABLE, 2, 1) == 2;
    assert SkipDeeper(TABLE, 1, 1) == 2;
    ParentUnique(TABLE, 0, -1);
    ParentUnique(TABLE, 1, 0);
    ParentUnique(TABLE, 2, -1);
    ParentUnique(TABLE, 3, -1);
  }

  /** Table and content are accepted: the table is well-formed, no array the check meets is too short, and tags is given
      by one scalar, as its range wants. */
  lemma Accepted(x: Input)
    requires x.fs == TABLE && x.content == CONTENT
    ensures WellFormed(TABLE)
    ensures ChildrenLongEnough(TABLE, CONTENT, -1)
    ensures Given(x, TAGS, ["a"])
  {
    hide WellFormed, ChildrenLongEnough, Parent;
    TableOk();
    TableShape();
    assert Ancestors(TABLE, 2) == [2] && [2][..0] == [];
    assert Holder(x, TAGS) == Some(CONTENT);
    assert [Scalar("a")] == seq(1, k requires 0 <= k < 1 => Scalar(["a"][k]));
  }

  lemma TableOk()
    ensures WellFormed(TABLE) && ChildrenLongEnough(TABLE, CONTENT, -1)
  {
    hide Parent, End;
    TableShape();
  }

  /** The content rules out the list inside the record, though not the record. */
  lemma RulesOut()
    requires WellFormed(TABLE)
    ensures !Skip(CONTENT, TABLE, ENTRY)
    ensures TagOf(TABLE, INSIDE) && Short(TABLE, CONTENT, INSIDE)
  {
    hide Parent;
    TableShape();
    assert Ancestors(TABLE, 0) == [0] && Ancestors(TABLE, 1) == [0, 1];
    assert Prefix(INSIDE) == [0];
    assert Encl(TABLE, INSIDE) == ENTRY;
    assert !SkipFrom(Array([]), TABLE, [0], [0], 1);
    assert SkipFrom(Array([]), TABLE, [0, 1], [0, 0], 1);
  }

  /** The longest run starts with the root, the record and the list inside it. */
  lemma RunStarts()
    requires WellFormed(TABLE)
    ensures |Traverse(TABLE)| > 2 && Traverse(TABLE)[1] == ENTRY && Traverse(TABLE)[2] == INSIDE
    ensures Rank(TABLE, ENTRY) == 1
  {
    assert |Visit(TABLE, 0, [], 0)| > 1;
    assert Siblings(TABLE, 0, [])[0] == ENTRY;
    TraverseDistinct(TABLE);
    hide Traverse, Visit, Siblings, WellFormed;
    PosUnique(Traverse(TABLE), 1);
    NextInRun(TABLE, 1);
  }

  /** The walk enters the record and is at its end there. */
  lemma WalkStops(x: Input)
    requires InputOk(x) && x.fs == TABLE && x.content == CONTENT
    ensures CompleteWalk(x, [ROOT, ENTRY]) && !Spelled(TABLE, [ROOT, ENTRY])
    ensures ROOT in x.states && Choices(x, ROOT) == [ENTRY] && RunsShort(TABLE, CONTENT, ENTRY)
  {
    hide Traverse, Skip, Final, WellFormed, Spelled, Short, FieldOk, Raw, Linear, TailAt, Optional, NoDup, IndexOk;
    RulesOut();
    RunStarts();
    RootReady(x);
    OnlyEntry(x);
    NoDeadEnd(x, ENTRY);
    TwoSteps(x);
    CompleteWalksAreInstances(x, [ROOT, ENTRY]);
  }

  lemma TwoSteps(x: Input)
    requires ROOT in x.states && ENTRY in x.states && Choices(x, ROOT) == [ENTRY] && Choices(x, ENTRY) == []
    ensures CompleteWalk(x, [ROOT, ENTRY])
  {
    hide Choices;
    var w := [ROOT, ENTRY];
    assert w[1..] == [ENTRY];
    assert Walk(x, [ENTRY]);
    assert w[1] in Choices(x, w[0]);
  }

  /** The record is all that can follow the root. */
  lemma OnlyEntry(x: Input)
    requires InputOk(x) && x.fs == TABLE && x.content == CONTENT && ROOT in x.states && Rank(TABLE, ROOT) == 0
    requires |Traverse(TABLE)| > 2 && Traverse(TABLE)[1] == ENTRY && !Skip(CONTENT, TABLE, ENTRY)
    ensures ENTRY in x.states && Choices(x, ROOT) == [ENTRY]
  {
    hide Traverse, Skip, WellFormed, FieldOk, Raw, Linear, TailAt, NoDup, IndexOk, LinearAt, Final, ExitTarget, SkipTo, Choices;
    var fs, s := TABLE, Traverse(TABLE);
    StateFollowers(x, ROOT);
    FinalForward(fs, x.states, ROOT);
    SeqNoDup(fs, Raw(fs), s);
    PosUnique(s, 1);
    ExitLater(fs, ENTRY);
    KeptFirst(fs, Raw(fs), s, 1);
    assert x.states[ROOT].successors == [ENTRY];
    OneValid(x, ROOT, ENTRY);
  }

  lemma OneValid(x: Input, t: Tag, u: Tag)
    requires t in x.states && x.states[t].successors == [u] && u in x.states && !Skip(x.content, x.fs, u)
    ensures Choices(x, t) == [u]
  {
    hide Skip;
    assert [u][..0] == [];
    assert Valid(x, [u]) == [u];
  }

  /** Whatever the states, labels and searches, the automaton has a run that ends behind the record, without any action
      for tags. So the content does not fix the length of that list. */
  lemma ListMissed(x: Input, header: string, b: Build) returns (r: seq<Uid>)
    requires InputOk(x) && x.fs == TABLE && x.content == CONTENT && Automaton(x, header, b)
    ensures FullRun(b.actions, r) && (forall uid | uid in r :: uid in Uids(b.actions))
    ensures FieldActions(b.actions, r, TAGS) == []
    ensures !GivesList(b.actions, r, TAGS, ["a"])
  {
    hide Automaton, Thread, Visits, CompleteWalk, Uids, FieldActions, RunsShort, Spelled, Final, WellFormed, FullRun,
      LastOf, Reached;
    WalkStops(x);
    TagsPlace(x);
    r := ShortRun(x, header, b, TAGS, ENTRY);
    EarlyEnd(x, header, b, r, TAGS);
  }

  lemma TagsPlace(x: Input)
    requires WellFormed(TABLE) && x.fs == TABLE && CompleteWalk(x, [ROOT, ENTRY])
    ensures ListAt(TABLE, TAGS) && Before(TABLE, TAGS, ENTRY) && ReachedWithin(x, TAGS, ENTRY)
  {
    hide Parent, WellFormed, Walk, Choices;
    TableShape();
    var w := [ROOT, ENTRY];
    assert w[0] == ROOT;
    assert Enters(TABLE, TAGS, w) && WalkTo(x, w, ENTRY);
  }

  lemma NothingBlocked(x: Input, f: int)
    requires InputOk(x) && x.fs == TABLE && x.content == CONTENT
    ensures !Blocked(x, ROOT, f)
  {
    hide Choices, Final, WellFormed, Skip, RunsShort, Spelled;
    WalkStops(x);
    NothingBehind(x);
  }

  lemma NothingBehind(x: Input)
    requires x.fs == TABLE && CompleteWalk(x, [ROOT, ENTRY]) && Choices(x, ROOT) == [ENTRY]
    ensures forall w | Walk(x, w) && w[0] == ROOT :: !Unrenderable(x, w[|w|-1])
  {
    hide Choices;
    forall w | Walk(x, w) && w[0] == ROOT ensures !Unrenderable(x, w[|w|-1]) {
      if |w| > 1 {
        assert w[1] == ENTRY;
        EndsThere(x, w[1..]);
      }
    }
  }

  lemma EndsThere(x: Input, w: seq<Tag>)
    requires Walk(x, w) && Choices(x, w[0]) == []
    ensures |w| == 1
  {
  }

  /** The whole of instantiate accepts the input and returns an automaton with such a run. */
  method InstantiateStray(abs: seq<Abstract>, cfg: Config, header: string) returns (r: Outcome, ghost run: seq<Uid>)
    requires AbstractsOf(abs, TABLE)
    ensures r.Built? && FullRun(r.actions, run)
    ensures (forall uid | uid in run :: uid in Uids(r.actions)) && FieldActions(r.actions, run, TAGS) == []
  {
    hide Automaton, Thread, Uids, FieldActions, WellFormed, ChildrenLongEnough, Blocked, InputOk, AbstractsOf;
    TableOk();
    ghost var x;
    r, x := Instantiate(abs, TABLE, CONTENT, cfg, header);
    NothingBlocked(x, if r.NotScalar? then r.field else 0);
    ghost var b :| Automaton(x, header, b) && b.actions == r.actions;
    run := ListMissed(x, header, b);
  }
}
