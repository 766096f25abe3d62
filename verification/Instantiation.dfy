/** instantiate as a whole: from a prompt and its content to the action automaton, and what that automaton does. */
module Instantiation {
  import opened Schema
  import opened AbstractGraph
  import opened Traversal
  import opened Concretize
  import opened LinearGraph
  import opened Instances
  import opened StateAutomaton
  import opened Documents
  import opened ContentRanges
  import opened Fta
  import opened FtaBuilder

  /** The build is finished: the header leads to the entry of the root, and every action is in order. */
  ghost predicate Automaton(x: Input, header: string, b: Build) {
    && MemoAll(x, b) && ROOT in b.memo && b.memo[ROOT] < |b.actions|
    && |b.actions| > 0 && b.actions[0] == Action(Header, EntryOf(b, ROOT), None, [], Text(header))
    && (forall i :: 0 < i < |b.actions| ==> b.actions[i].uid != Header && ActionOk(x, b, b.actions[i]))
    && NoDup(Uids(b.actions))
  }

  ghost predicate FtaOf(x: Input, header: string, actions: seq<Action>) {
    exists b: Build :: b.actions == actions && Automaton(x, header, b)
  }

  datatype Outcome =
    | Built(actions: seq<Action>)
    | TooShort(field: int)
    | NotScalar(field: int)

  lemma RootReady(x: Input)
    requires InputOk(x)
    ensures ROOT in x.states && ROOT in Traverse(x.fs) && Rank(x.fs, ROOT) == 0
  {
    assert Traverse(x.fs)[0] == ROOT;
    TraverseDistinct(x.fs);
    RootKept(x.fs, x.states);
    hide Traverse;
  }

  lemma HeaderOnly(x: Input, header: string, b: Build)
    requires b == Build([Action(Header, [], None, [], Text(header))], map[], {})
    ensures Known(x, b, 0) && MemoAll(x, b) && NoDup(Uids(b.actions))
  {
  }

  /** Linking the header to the entry of the root finishes the automaton. */
  lemma Finished(x: Input, header: string, b0: Build, b: Build)
    requires b0 == Build([Action(Header, [], None, [], Text(header))], map[], {})
    requires Grown(x, b0, b, 0, None, {}) && MemoAll(x, b) && ROOT in b.memo
    ensures b.memo[ROOT] < |b.actions|
    ensures Automaton(x, header, if b.memo[ROOT] >= 0 then Connected(b, 0, b.actions[b.memo[ROOT]].uid) else b)
  {
    assert MemoOk(x, b, ROOT);
    var b1 := if b.memo[ROOT] >= 0 then Connected(b, 0, b.actions[b.memo[ROOT]].uid) else b;
    assert b.actions[0] == b.actions[..1][0] == b0.actions[0];
    if b.memo[ROOT] >= 0 {
      ConnectedLater(b, 0, b.actions[b.memo[ROOT]].uid);
    } else {
      LaterSelf(b);
    }
    hide ActionOk, MemoOk, Later, NoDup, Decide;
    MemoAllLater(x, b, b1);
    forall i | 0 < i < |b1.actions| ensures b1.actions[i].uid != Header && ActionOk(x, b1, b1.actions[i]) {
      assert NewUid(b0, b, None, b.actions[i].uid);
      ActionLater(x, b, b1, b.actions[i]);
    }
    assert b1.actions[0].successors == EntryOf(b1, ROOT);
  }

  /** instantiate: check the ranges, concretize, build. It fails exactly when an array of the content is
      too short, or when the choices the content leaves open lead to a leaf it holds no scalar for. */
  method Instantiate(abs: seq<Abstract>, fs: seq<Field>, content: Doc, cfg: Config, header: string)
    returns (r: Outcome, ghost x: Input)
    requires WellFormed(fs) && AbstractsOf(abs, fs)
    ensures r.TooShort? <==> !ChildrenLongEnough(fs, content, -1)
    ensures r.TooShort? ==> FirstShortChild(fs, content, -1, 0) == Some(r.field)
    ensures !r.TooShort? ==> InputOk(x) && x.fs == fs && x.content == content && x.cfg == cfg
    ensures r.NotScalar? ==> Blocked(x, ROOT, r.field)
    ensures r.Built? ==> FtaOf(x, header, r.actions)
  {
    hide Final, Grown, ChildrenLongEnough, FirstShortChild, Known, MemoAll, NoDup, Blocked, AbstractsOf;
    x := Input(fs, map[], content, cfg);
    var parent := BuildParentMap(fs);
    var short := ValidateContentRanges(fs, parent, content);
    if short.Some? { return TooShort(short.value), x; }
    var g := ConcretizePrompt(abs, fs);
    x := Input(fs, g.states, content, cfg);
    RootReady(x);
    var builder := new Builder(Input(fs, g.states, content, cfg));
    var headerId := builder.Add(Header, Text(header));
    ghost var b0 := builder.Snap();
    HeaderOnly(x, header, b0);
    var first := builder.InstantiateRec(ROOT);
    if first.Composite? { return NotScalar(first.field), x; }
    Finished(x, header, b0, builder.Snap());
    if first.value >= 0 {
      builder.ConnectUid(headerId, builder.actions[first.value].uid);
    }
    assert Automaton(x, header, builder.Snap());
    return Built(builder.actions), x;
  }

  lemma RootKept(fs: seq<Field>, g: Graph)
    requires WellFormed(fs) && Final(fs, g)
    ensures ROOT in g
  {
    assert CleanedAt(fs, Raw(fs), Traverse(fs), g, 0);
    RawIs(fs);
    assert CompleteIn(fs, Raw(fs), ROOT);
    hide Siblings, Linear;
  }
}
