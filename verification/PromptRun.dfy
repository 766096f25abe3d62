/** The whole way of a prompt: the automaton built for it suits the evaluator, the path the evaluator ends
    with goes through an instance of the table, and the frame holds what that path says. */
module PromptRun {
  import opened Schema
  import opened Traversal
  import opened StateAutomaton
  import opened Documents
  import opened Ravelling
  import opened Fta
  import opened FtaBuilder
  import opened DecisionWalks
  import ContentLength
  import opened Instantiation
  import opened AutomatonRuns
  import opened Sampling
  import opened BeamSearch
  import opened Prepared
  import opened Evaluation
  import T = EvaluationTree
  import opened TreeWalk
  import opened NodeTexts
  import opened BranchLabels
  import opened Frame

  // ---- The automaton suits the evaluator -----------------------------------------------------------------

  /** Every successor names an action, so preparing never meets an unknown one. */
  lemma SuccessorsKnown(x: Input, header: string, b: Build)
    requires Automaton(x, header, b)
    ensures forall a, s | a in b.actions && s in a.successors :: s in Uids(b.actions)
  {
    hide MemoOk, NoDup, Follows;
    forall a, s | a in b.actions && s in a.successors ensures s in Uids(b.actions) {
      var i :| 0 <= i < |b.actions| && b.actions[i] == a;
      if i == 0 {
        assert ROOT in b.memo && s == b.actions[b.memo[ROOT]].uid;
        assert Uids(b.actions)[b.memo[ROOT]] == s;
      } else {
        assert ActionOk(x, b, a);
      }
    }
  }

  /** How many states of the longest run are left from t on. */
  ghost function Left(x: Input, t: Tag): (n: nat)
    ensures n <= |Traverse(x.fs)|
  {
    if t in Traverse(x.fs) then |Traverse(x.fs)| - Rank(x.fs, t) else 0
  }

  /** The level of an action: four per state, the field before its line end before what follows. */
  ghost function Level(x: Input, a: Action): nat {
    match a.uid
    case Header => 4 * |Traverse(x.fs)| + 2
    case Desc(_) => if a.successors != [] && a.successors[0].Branch? then 4 * Left(x, a.successors[0].state) + 1 else 0
    case Branch(t) => 4 * Left(x, t)
    case FieldOf(u, _) => 4 * Left(x, u) + 3
    case SkipOf(u, _) => 4 * Left(x, u) + 3
    case EndlOf(u, _) => 4 * Left(x, u) + 2
  }

  lemma EntryLevel(x: Input, header: string, b: Build, t: Tag, c: Action)
    requires Automaton(x, header, b) && t in b.memo && b.memo[t] < |b.actions| && c in b.actions && EntryOf(b, t) == [c.uid]
    ensures Level(x, c) <= 4 * Left(x, t) + 1
  {
    hide Automaton, Choices, EntryOf, Left;
    EntryLeads(x, header, b, t);
    SameAct(x, header, b, c);
  }

  lemma SameAct(x: Input, header: string, b: Build, c: Action)
    requires Automaton(x, header, b) && c in b.actions
    ensures c.uid in Uids(b.actions) && Act(b.actions, c.uid) == c
  {
    hide Automaton;
    var i :| 0 <= i < |b.actions| && b.actions[i] == c;
    assert Uids(b.actions)[i] == c.uid;
    ActFine(x, header, b, c.uid);
  }

  lemma LeftDrops(x: Input, t: Tag, u: Tag)
    requires InputOk(x) && Follows(x, t, u)
    ensures Left(x, u) < Left(x, t)
  {
    StepForward(x, t, u);
    hide Traverse, Choices, Final, WellFormed;
  }

  lemma EntryMeans(b: Build, t: Tag, s: Uid)
    requires t in b.memo && s in EntryOf(b, t)
    ensures EntryOf(b, t) == [s]
  {
  }

  /** Every step of the automaton goes one level down at least, so it has no cycle. */
  lemma LevelDrops(x: Input, header: string, b: Build, a: Action, c: Action)
    requires InputOk(x) && Automaton(x, header, b) && a in b.actions && c in b.actions && c.uid in a.successors
    ensures Level(x, c) < Level(x, a)
  {
    hide Automaton, Choices, Decide, EntryOf, Left, FieldBody, Final, WellFormed, Follows;
    SameAct(x, header, b, a);
    SameAct(x, header, b, c);
    match a.uid {
      case Header =>
        HeaderLeads(x, header, b);
        EntryLeads(x, header, b, ROOT);
        EntryMeans(b, ROOT, c.uid);
        EntryLevel(x, header, b, ROOT, c);
      case Desc(_) => ActFine(x, header, b, a.uid);
      case Branch(t) =>
        BranchLeads(x, header, b, t);
        var u :| u in Choices(x, t) && c.uid == FieldUid(x, u, t);
        LeftDrops(x, t, u);
      case FieldOf(u, t) => FieldOnly(x, header, b, u, t, a);
      case SkipOf(u, t) => FieldOnly(x, header, b, u, t, a);
      case EndlOf(u, t) =>
        EndlLeads(x, header, b, t, u);
        EntryMeans(b, u, c.uid);
        EntryLevel(x, header, b, u, c);
    }
  }

  lemma FieldOnly(x: Input, header: string, b: Build, u: Tag, t: Tag, a: Action)
    requires Automaton(x, header, b) && a in b.actions && (a.uid == FieldOf(u, t) || a.uid == SkipOf(u, t))
    ensures forall e | e in a.successors :: e == EndlOf(u, t)
  {
    hide Automaton, Follows, FieldBody;
    SameAct(x, header, b, a);
    ActFine(x, header, b, a.uid);
  }

  /** The arities the evaluator checks: a text has at most one successor, a completion exactly one, and a
      choice one per alternative, provided that it offers any. */
  lemma Arities(x: Input, header: string, b: Build, a: Action)
    requires InputOk(x) && Automaton(x, header, b) && a in b.actions
    ensures match a.body
      case Text(_, _) => |a.successors| <= 1
      case Complete(_, _, _, _) => |a.successors| == 1
      case Choose(choices, _, _) => choices != [] ==> |a.successors| == |choices|
  {
    hide Automaton, EntryOf, Final, WellFormed, Read, Filled, Skip, Follows, Traverse;
    SameAct(x, header, b, a);
    ActFine(x, header, b, a.uid);
    if a.uid == Header {
      HeaderLeads(x, header, b);
      EntryOne(b, ROOT);
      HeaderText(x, header, b);
    } else if a.uid.EndlOf? {
      EndlLeads(x, header, b, a.uid.from, a.uid.succ);
      EntryOne(b, a.uid.succ);
    }
  }

  lemma HeaderText(x: Input, header: string, b: Build)
    requires Automaton(x, header, b)
    ensures Header in Uids(b.actions) ==> Act(b.actions, Header).body == Text(header)
  {
    if Header in Uids(b.actions) { ActFine(x, header, b, Header); }
  }

  /** What the inputs have to provide: alternatives for every choice, a usable token for every completion. */
  ghost predicate Supplied(m: Model, ps: seq<PreparedAction>) {
    forall i :: 0 <= i < |ps| ==>
      match ps[i].body
      case Fixed(_, _) => true
      case Free(c) => c.length == 0 || Admits(m, c.mask)
      case Select(choices, _, _) => choices != []
  }

  ghost function Levels(x: Input, b: Build): (r: seq<nat>)
    ensures |r| == |b.actions| && forall i :: 0 <= i < |r| ==> r[i] == Level(x, b.actions[i])
  {
    seq(|b.actions|, i requires 0 <= i < |b.actions| => Level(x, b.actions[i]))
  }

  lemma SuccessorIs(bd: Binding, b: Build, ps: seq<PreparedAction>, i: nat, k: nat)
    requires AllPrepared(bd, b.actions, ps) && i < |ps| && k in ps[i].successors
    ensures k < |ps| && b.actions[k].uid in b.actions[i].successors
  {
    hide BodyOf;
    assert PreparedOf(bd, b.actions, b.actions[i], ps[i]);
    var j :| 0 <= j < |ps[i].successors| && ps[i].successors[j] == k;
    assert FirstOf(b.actions, b.actions[i].successors[j], k);
  }

  lemma PreparedArity(m: Model, bd: Binding, x: Input, header: string, b: Build, ps: seq<PreparedAction>, i: nat)
    requires InputOk(x) && Automaton(x, header, b) && AllPrepared(bd, b.actions, ps) && Supplied(m, ps) && i < |ps|
    ensures ActionPlayable(m, ps, ps[i])
  {
    hide Automaton, Denotes, Admits, MaskOf, FirstOf, Final, WellFormed;
    assert PreparedOf(bd, b.actions, b.actions[i], ps[i]);
    forall k | k in ps[i].successors ensures k < |ps| { SuccessorIs(bd, b, ps, i, k); }
    Arities(x, header, b, b.actions[i]);
  }

  /** The automaton of a prompt, once prepared, is what the evaluator presupposes: every arity is right, and the
      levels of the actions descend, so evaluation never meets an arity error and always ends. */
  lemma AutomatonFits(m: Model, bd: Binding, x: Input, header: string, b: Build, ps: seq<PreparedAction>)
    requires InputOk(x) && Automaton(x, header, b) && AllPrepared(bd, b.actions, ps) && ModelOk(m) && Supplied(m, ps)
    ensures Playable(m, ps) && Descends(ps, Levels(x, b))
  {
    hide Automaton, Supplied, ModelOk, ActionPlayable, PreparedOf, Level, Final, WellFormed;
    HeaderLeads(x, header, b);
    assert |b.actions| > 0 by { assert Header in Uids(b.actions); }
    forall i | 0 <= i < |ps| ensures ActionPlayable(m, ps, ps[i]) {
      PreparedArity(m, bd, x, header, b, ps, i);
    }
    forall i | 0 <= i < |ps| ensures StepsDown(ps, Levels(x, b), i) {
      forall k | k in ps[i].successors ensures k < |ps| && Levels(x, b)[k] < Levels(x, b)[i] {
        SuccessorIs(bd, b, ps, i, k);
        LevelDrops(x, header, b, b.actions[i], b.actions[k]);
      }
    }
  }

  // ---- The path the evaluator ends with ---------------------------------------------------------------------

  /** The actions along a path of the tree. */
  function ActionsAlong(nodes: seq<Node>, path: seq<nat>): (r: seq<nat>)
    requires forall i :: 0 <= i < |path| ==> path[i] < |nodes|
    ensures |r| == |path| && forall i :: 0 <= i < |r| ==> r[i] == nodes[path[i]].action
  {
    seq(|path|, i requires 0 <= i < |path| => nodes[path[i]].action)
  }

  /** Prepared actions that follow each other. */
  ghost predicate Follow(ps: seq<PreparedAction>, ks: seq<nat>) {
    && |ks| > 0 && (forall i :: 0 <= i < |ks| ==> ks[i] < |ps|)
    && forall i: nat :: i + 1 < |ks| ==> StepAlong(ps, ks, i)
  }

  ghost predicate StepAlong(ps: seq<PreparedAction>, ks: seq<nat>, i: nat)
    requires i + 1 < |ks|
  {
    ks[i] < |ps| && ks[i+1] in ps[ks[i]].successors
  }

  function UidsOf(ps: seq<PreparedAction>, ks: seq<nat>): (r: seq<Uid>)
    requires forall i :: 0 <= i < |ks| ==> ks[i] < |ps|
    ensures |r| == |ks| && forall i :: 0 <= i < |r| ==> r[i] == ps[ks[i]].uid
  {
    seq(|ks|, i requires 0 <= i < |ks| => ps[ks[i]].uid)
  }

  /** Actions that follow each other; unlike a thread they may break off. */
  ghost predicate Along(actions: seq<Action>, r: seq<Uid>) {
    && |r| > 0 && r[0] in Uids(actions)
    && (|r| > 1 ==> r[1] in Act(actions, r[0]).successors && Along(actions, r[1..]))
  }

  lemma {:induction false} AlongThread(actions: seq<Action>, r: seq<Uid>)
    requires Along(actions, r)
    ensures |r| > 0 && r[|r|-1] in Uids(actions)
    ensures Thread(actions, r) <==> Act(actions, r[|r|-1]).successors == []
    decreases |r|
  {
    hide Uids;
    if |r| > 1 { AlongThread(actions, r[1..]); }
  }

  lemma {:induction false} InAlong(actions: seq<Action>, r: seq<Uid>, i: nat)
    requires Along(actions, r) && i < |r|
    ensures r[i] in Uids(actions)
  {
    hide Uids;
    if i > 0 { InAlong(actions, r[1..], i - 1); }
  }

  lemma {:induction false} AlongMore(actions: seq<Action>, r: seq<Uid>, s: Uid)
    requires Along(actions, r) && r[|r|-1] in Uids(actions) && s in Act(actions, r[|r|-1]).successors && s in Uids(actions)
    ensures Along(actions, r + [s])
    decreases |r|
  {
    hide Uids;
    var more := r + [s];
    if |r| > 1 {
      AlongMore(actions, r[1..], s);
      assert more[1..] == r[1..] + [s];
    } else {
      assert more[1..] == [s];
      assert Along(actions, [s]);
    }
  }

  ghost function LastLevel(x: Input, b: Build, r: seq<Uid>): nat {
    if |r| > 0 && r[|r|-1] in Uids(b.actions) then Level(x, Act(b.actions, r[|r|-1])) else 0
  }

  /** However far a path has come, the automaton goes on from there to an end. */
  lemma AlongCompletes(x: Input, header: string, b: Build, r: seq<Uid>) returns (rest: seq<Uid>)
    requires InputOk(x) && Automaton(x, header, b) && Along(b.actions, r)
    ensures Thread(b.actions, r + rest)
    decreases LastLevel(x, b, r)
  {
    hide Automaton, Along, Thread, Level, Uids, Final, WellFormed, Act;
    AlongThread(b.actions, r);
    var last := r[|r|-1];
    var a := Act(b.actions, last);
    if a.successors == [] {
      rest := [];
      assert r + rest == r;
    } else {
      var s := a.successors[0];
      ActIn(b, last);
      SuccessorsKnown(x, header, b);
      ActIn(b, s);
      AlongMore(b.actions, r, s);
      LevelDrops(x, header, b, a, Act(b.actions, s));
      var behind := AlongCompletes(x, header, b, r + [s]);
      rest := [s] + behind;
      assert r + rest == (r + [s]) + behind;
    }
  }

  lemma ActIn(b: Build, uid: Uid)
    requires uid in Uids(b.actions)
    ensures Act(b.actions, uid) in b.actions && Act(b.actions, uid).uid == uid
  {
  }

  lemma {:induction false} FollowAlong(bd: Binding, x: Input, header: string, b: Build, ps: seq<PreparedAction>, ks: seq<nat>)
    requires Automaton(x, header, b) && AllPrepared(bd, b.actions, ps) && Follow(ps, ks)
    ensures Along(b.actions, UidsOf(ps, ks))
    decreases |ks|
  {
    hide Automaton, AllPrepared, Uids;
    var k := ks[0];
    PreparedUid(bd, b, ps, k);
    SameAct(x, header, b, b.actions[k]);
    if |ks| > 1 {
      FollowRest(ps, ks);
      FollowAlong(bd, x, header, b, ps, ks[1..]);
      assert StepAlong(ps, ks, 0);
      SuccessorIs(bd, b, ps, k, ks[1]);
      PreparedUid(bd, b, ps, ks[1]);
      hide Follow;
      assert UidsOf(ps, ks)[1..] == UidsOf(ps, ks[1..]);
    }
  }

  lemma PreparedUid(bd: Binding, b: Build, ps: seq<PreparedAction>, k: nat)
    requires AllPrepared(bd, b.actions, ps) && k < |ps|
    ensures k < |b.actions| && ps[k].uid == b.actions[k].uid
    ensures ps[k].successors == [] <==> b.actions[k].successors == []
  {
    hide BodyOf, FirstOf;
    assert PreparedOf(bd, b.actions, b.actions[k], ps[k]);
  }

  lemma FollowRest(ps: seq<PreparedAction>, ks: seq<nat>)
    requires Follow(ps, ks) && |ks| > 1
    ensures Follow(ps, ks[1..])
  {
    var rest := ks[1..];
    forall i: nat | i + 1 < |rest| ensures StepAlong(ps, rest, i) {
      assert StepAlong(ps, ks, i + 1);
    }
  }

  lemma ChainFollows(ps: seq<PreparedAction>, nodes: seq<Node>, path: seq<nat>)
    requires T.TreeOk(ps, nodes) && T.Chain(nodes, path)
    ensures |path| > 0 && forall i :: 0 <= i < |path| ==> path[i] < |nodes|
    ensures Follow(ps, ActionsAlong(nodes, path)) && ActionsAlong(nodes, path)[0] == 0
  {
    var ks := ActionsAlong(nodes, path);
    hide Sum;
    forall i: nat | i + 1 < |ks| ensures StepAlong(ps, ks, i) {
      assert T.LinkAt(nodes, path, i);
      assert T.EdgeOk(ps, nodes, path[i], path[i+1]);
    }
  }

  /** The path the evaluator ends with is the beginning of a run of the automaton, and the whole run exactly if it was
      not stopped by a completion without beams. Then the states it visits make up a complete walk, which spells an
      instance of the table exactly if it does not end in front of a list that runs short. */
  lemma EvaluatedRun(bd: Binding, x: Input, header: string, b: Build, ps: seq<PreparedAction>, nodes: seq<Node>, path: seq<nat>)
    returns (r: seq<Uid>)
    requires InputOk(x) && Automaton(x, header, b) && AllPrepared(bd, b.actions, ps)
    requires T.TreeOk(ps, nodes) && T.Chain(nodes, path) && AtEnd(ps, nodes, path)
    ensures |r| == |path| && Along(b.actions, r) && r[0] == Header
    ensures forall i :: 0 <= i < |path| ==> nodes[path[i]].action < |ps| && r[i] == ps[nodes[path[i]].action].uid
    ensures exists rest :: Thread(b.actions, r + rest)
    ensures Thread(b.actions, r) <==> !T.Starved(ps, nodes[path[|path|-1]])
    ensures Thread(b.actions, r) ==> CompleteWalk(x, [ROOT] + Visits(r))
    ensures Thread(b.actions, r) ==>
      (Spelled(x.fs, [ROOT] + Visits(r)) <==> !RunsShort(x.fs, x.content, ([ROOT] + Visits(r))[|Visits(r)|]))
  {
    hide Automaton, Thread, T.TreeOk, T.Chain, T.Starved, Walk, Choices, Final, FieldOk, Preorder, PreparedOf, Spelled, RunsShort,
      Along, Visits;
    ChainFollows(ps, nodes, path);
    var ks := ActionsAlong(nodes, path);
    r := UidsOf(ps, ks);
    FollowAlong(bd, x, header, b, ps, ks);
    HeaderIs(bd, x, header, b, ps);
    AlongThread(b.actions, r);
    var rest := AlongCompletes(x, header, b, r);
    var k := ks[|ks|-1];
    PreparedUid(bd, b, ps, k);
    SameAct(x, header, b, b.actions[k]);
    if Thread(b.actions, r) {
      HeaderThread(x, header, b, r);
      CompleteWalksAreInstances(x, [ROOT] + Visits(r));
    }
  }

  /** A path says the label of u at position i and goes on with its field. */
  ghost predicate SaysLabel(bd: Binding, x: Input, ps: seq<PreparedAction>, nodes: seq<Node>, path: seq<nat>, i: nat,
                            t: Tag, u: Tag)
    requires i + 1 < |path| && path[i] < |nodes| && path[i+1] < |nodes|
    requires nodes[path[i]].action < |ps| && nodes[path[i+1]].action < |ps|
    requires t in x.states
  {
    && u in Choices(x, t) && 0 <= u.field < |x.fs|
    && ps[nodes[path[i+1]].action].uid == FieldUid(x, u, t)
    && nodes[path[i]].tokens ==
      if ps[nodes[path[i]].action].body.Fixed? then TokensOf(bd, x.cfg.labelOf(u)) else bd.lexicon.tokenize(x.cfg.labelOf(u))
  }

  /** What a path says at a branch is the label of the state it visits next. */
  lemma LabelVisited(m: Model, bd: Binding, x: Input, header: string, b: Build, ps: seq<PreparedAction>,
                     nodes: seq<Node>, path: seq<nat>, i: nat, t: Tag)
    requires ModelOk(m) && Automaton(x, header, b) && AllPrepared(bd, b.actions, ps)
    requires T.TreeOk(ps, nodes) && AllTell(m, ps, nodes) && T.Chain(nodes, path) && i + 1 < |path|
    requires nodes[path[i]].action < |ps| && ps[nodes[path[i]].action].uid == Branch(t)
    ensures t in x.states && nodes[path[i+1]].action < |ps|
    ensures exists u :: SaysLabel(bd, x, ps, nodes, path, i, t, u)
  {
    hide Automaton, AllPrepared, T.TreeOk, AllTell, ModelOk, Choices, T.Chain, Yields, Denotes, Picks, Uids;
    PathStep(ps, nodes, path, i);
    var n, k := nodes[path[i]], nodes[path[i]].action;
    var k' := nodes[path[i+1]].action;
    HeaderIs(bd, x, header, b, ps);
    PreparedUid(bd, b, ps, k);
    PreparedUid(bd, b, ps, k');
    var a := b.actions[k];
    SameAct(x, header, b, a);
    BranchOffers(x, header, b, t);
    NodeYields(m, ps, nodes, path, i);
    PreparedBodyIs(bd, b, ps, k);
    LeadsPicks(ps, n, k');
    var j := PlaceTaken(m, bd, b, ps, k, k', T.TokensAlong(nodes, path[..i]), n.tokens, n.costs);
    assert SomeBelongs(x, t, a, j);
    var u :| Belongs(x, t, a, j, u);
    PutsOne(bd, a.body, ps[k].body, j, x.cfg.labelOf(u), n.tokens);
    assert SaysLabel(bd, x, ps, nodes, path, i, t, u);
  }

  /** The text of a completion keeps to its length, unless given 50, to its vocabulary and to what the model samples, and
      the stop text does not occur in it; it is shorter only if the stop text came next. */
  ghost predicate Writes(m: Model, bd: Binding, x: Input, length: Option<int>, vocab: Option<string>, n: Node) {
    var most, stop := if length.Some? then length.value % 0x1_0000_0000 else 50, bd.lexicon.tokenize(x.cfg.stop);
    && |n.tokens| <= most
    && (|n.tokens| == most || |n.costs| == |n.tokens| + |stop|)
    && (stop != [] ==> Clean(stop, n.tokens))
    && (forall t | t in n.tokens :: 0 <= t < bd.vocabSize && m.sampled(t))
    && (vocab.Some? ==> vocab.value in bd.vocabs && forall t | t in n.tokens :: Denotes(bd.lexicon, bd.vocabs[vocab.value], t))
  }

  /** The node says the text the content gives for the leaf, or one of its alternatives, or what the model writes within
      the bounds of the format. */
  ghost predicate Says(m: Model, bd: Binding, x: Input, u: Tag, n: Node) {
    && 0 <= u.field < |x.fs| && !x.fs[u.field].IsRecord()
    && if Filled(x, u) then
         var v := Read(x.content, x.fs, u).value; v.Scalar? && n.tokens == TokensOf(bd, v.text)
       else
         match x.fs[u.field].format
         case Enum(values) => SaysOne(bd, values, n.tokens)
         case Choice(mode, names) =>
           var choices := Alternatives(x.content, mode, names, x.cfg.indexText);
           choices.Some? && SaysOne(bd, choices.value, n.tokens)
         case Completion(length, vocab) => Writes(m, bd, x, length, vocab, n)
         case Record => false
  }

  ghost predicate SaysOne(bd: Binding, texts: seq<string>, toks: seq<Token>) {
    exists v :: v in texts && toks == bd.lexicon.tokenize(v)
  }

  /** So does every path at every leaf it visits. */
  lemma FieldSaid(m: Model, bd: Binding, x: Input, header: string, b: Build, ps: seq<PreparedAction>,
                  nodes: seq<Node>, path: seq<nat>, i: nat, u: Tag, t: Tag)
    requires ModelOk(m) && Automaton(x, header, b) && AllPrepared(bd, b.actions, ps)
    requires T.TreeOk(ps, nodes) && AllTell(m, ps, nodes) && T.Chain(nodes, path) && 0 < i < |path|
    requires nodes[path[i]].action < |ps| && ps[nodes[path[i]].action].uid == FieldOf(u, t)
    ensures Says(m, bd, x, u, nodes[path[i]])
  {
    hide Automaton, AllPrepared, T.TreeOk, AllTell, ModelOk, Choices, T.Chain, Denotes, Uids, Read, Charged, ResultOf,
      Clean, MaskOf;
    ChainInside(nodes, path);
    NodeYields(m, ps, nodes, path, i);
    var k := nodes[path[i]].action;
    PreparedBodyIs(bd, b, ps, k);
    PreparedUid(bd, b, ps, k);
    SameAct(x, header, b, b.actions[k]);
    ActFine(x, header, b, FieldOf(u, t));
    FieldFormat(x, u, t);
    if ps[k].body.Free? {
      ResultWrites(m, bd, x, u, t, b.actions[k], ps[k].body, T.TokensAlong(nodes, path[..i]), nodes[path[i]]);
    }
  }

  lemma ResultWrites(m: Model, bd: Binding, x: Input, u: Tag, t: Tag, a: Action, pb: PreparedBody, ctx: seq<Token>, n: Node)
    requires ModelOk(m) && 0 <= u.field < |x.fs| && FieldAction(x, u, t) == Some(a) && x.fs[u.field].format.Completion?
    requires BodyOf(bd, a.body, pb) && pb.Free? && exists b :: ResultOf(m, pb.params, ctx, n.tokens, n.costs, b)
    ensures Writes(m, bd, x, x.fs[u.field].format.length, x.fs[u.field].format.vocab, n)
  {
    hide ModelOk, Denotes, Read, Completed, Charged, Clean, Chosen, PenaltyAfter, Judged, Sum;
    var c := pb.params;
    var b :| ResultOf(m, c, ctx, n.tokens, n.costs, b);
    var q := CompletionOk(m, c, ctx);
    assert BeamOk(m, c, ctx, q, b);
    if b.stopped && c.stop != [] { CleanFront(c.stop, b.tokens, c.stop[..|c.stop|-1]); }
  }

  lemma CleanFront(stop: seq<Token>, toks: seq<Token>, more: seq<Token>)
    requires Clean(stop, toks + more)
    ensures Clean(stop, toks)
  {
    forall i ensures !OccursAt(stop, toks, i) {
      assert !OccursAt(stop, toks + more, i);
      if 0 <= i <= |toks| - |stop| { assert (toks + more)[i..i+|stop|] == toks[i..i+|stop|]; }
    }
  }

  /** The action of that uid is searched by the settings for its field. */
  ghost predicate Configured(x: Input, uid: Uid, pb: PreparedBody) {
    match pb
    case Fixed(_, evaluate) => !evaluate
    case Free(p) =>
      uid.FieldOf? &&
      var s := x.cfg.textSearch(uid.succ.field);
      && p.beams == s.beams && p.width == s.width && p.threshold == s.threshold
      && p.repetition == s.repetition && p.diversity == s.diversity
    case Select(_, width, threshold) => ChosenBy(x, uid, width, threshold)
  }

  /** Width and threshold are those of the category the choice belongs to. */
  ghost predicate ChosenBy(x: Input, uid: Uid, width: nat, threshold: real) {
    if uid.Branch? then
      var s := x.cfg.choiceSearch(uid.state.field, BranchChoice); width == s.width && threshold == s.threshold
    else
      uid.FieldOf? && 0 <= uid.succ.field < |x.fs| &&
      var f := x.fs[uid.succ.field];
      var s := x.cfg.choiceSearch(uid.succ.field, if f.format.Enum? && f.name == "next" then Flow else EnumChoice);
      width == s.width && threshold == s.threshold
  }

  ghost predicate BodyConfigured(x: Input, uid: Uid, body: Body) {
    match body
    case Text(_, evaluate) => !evaluate
    case Complete(_, s, _, _) => uid.FieldOf? && s == x.cfg.textSearch(uid.succ.field)
    case Choose(_, width, threshold) => ChosenBy(x, uid, width, threshold)
  }

  lemma ActionSettings(x: Input, b: Build, a: Action)
    requires ActionOk(x, b, a) && a.uid != Header
    ensures BodyConfigured(x, a.uid, a.body)
  {
    hide Uids, Read, Filled, Skip, Alternatives, Decide, MemoOk;
  }

  lemma BodySettings(bd: Binding, x: Input, uid: Uid, body: Body, pb: PreparedBody)
    requires BodyOf(bd, body, pb) && BodyConfigured(x, uid, body)
    ensures Configured(x, uid, pb)
  {
    hide MaskOf, ChosenBy;
  }

  lemma HeaderIn(b: Build, k: nat)
    requires k < |b.actions| && b.actions[k].uid == Header
    ensures Header in Uids(b.actions)
  {
    assert Uids(b.actions)[k] == Header;
  }

  /** The text put in for a uid that has none to do with branches or leaves. */
  ghost predicate Fixture(x: Input, header: string, uid: Uid, text: string) {
    match uid
    case Header => text == header
    case Desc(u) => text == x.cfg.descText(u.field)
    case EndlOf(_, _) => text == x.cfg.separator
    case SkipOf(_, _) => text == ""
    case _ => false
  }

  /** What a path says at the start, for a description, at a line end and for a record: the header, the description of the
      field, the separator, nothing. */
  lemma FixtureSaid(m: Model, bd: Binding, x: Input, header: string, b: Build, ps: seq<PreparedAction>, nodes: seq<Node>,
                    path: seq<nat>, i: nat, text: string)
    requires ModelOk(m) && Automaton(x, header, b) && AllPrepared(bd, b.actions, ps)
    requires T.TreeOk(ps, nodes) && AllTell(m, ps, nodes) && T.Chain(nodes, path) && i < |path|
    requires path[i] < |nodes| && nodes[path[i]].action < |ps| && Fixture(x, header, ps[nodes[path[i]].action].uid, text)
    ensures nodes[path[i]].tokens == if text == "" then [] else bd.lexicon.tokenize(text)
  {
    hide Automaton, AllPrepared, T.TreeOk, AllTell, ModelOk, T.Chain, Uids, Charged, Fixture;
    var k := nodes[path[i]].action;
    PreparedBodyIs(bd, b, ps, k);
    PreparedUid(bd, b, ps, k);
    SameAct(x, header, b, b.actions[k]);
    FixtureText(x, header, b, b.actions[k], text);
    if i == 0 { RootSays(m, ps, nodes, path); } else { NodeYields(m, ps, nodes, path, i); }
  }

  lemma FixtureText(x: Input, header: string, b: Build, a: Action, text: string)
    requires Automaton(x, header, b) && a.uid in Uids(b.actions) && Act(b.actions, a.uid) == a
    requires Fixture(x, header, a.uid, text)
    ensures a.body.Text? && a.body.text == text
  {
    hide Automaton, Uids, FieldBody, MemoOk;
    HeaderText(x, header, b);
    ActFine(x, header, b, a.uid);
  }

  lemma RootSays(m: Model, ps: seq<PreparedAction>, nodes: seq<Node>, path: seq<nat>)
    requires ModelOk(m) && AllTell(m, ps, nodes) && T.Chain(nodes, path)
    ensures |path| > 0 && path[0] < |nodes| && nodes[path[0]].action < |ps|
    ensures ps[nodes[path[0]].action].body.Fixed? ==> nodes[path[0]].tokens == ps[nodes[path[0]].action].body.tokens
  {
    hide ModelOk, Tells, T.LinkAt;
  }

  /** How an action is searched is as configured for its field: a completion by the settings for text, a choice by those of
      its category. An enum named next, which decides the flow, and a branch have categories of their own. */
  lemma SearchSettings(bd: Binding, x: Input, header: string, b: Build, ps: seq<PreparedAction>, k: nat)
    requires Automaton(x, header, b) && AllPrepared(bd, b.actions, ps) && k < |ps|
    ensures Configured(x, ps[k].uid, ps[k].body)
  {
    hide Automaton, AllPrepared, Denotes, Uids, MaskOf, Configured, ActionOk;
    PreparedBodyIs(bd, b, ps, k);
    PreparedUid(bd, b, ps, k);
    var a := b.actions[k];
    SameAct(x, header, b, a);
    if a.uid == Header {
      HeaderIn(b, k);
      HeaderText(x, header, b);
    } else {
      ActFine(x, header, b, a.uid);
      ActionSettings(x, b, a);
    }
    BodySettings(bd, x, a.uid, a.body, ps[k].body);
  }

  /** A leaf is no record, so its format is not that of one. */
  lemma FieldFormat(x: Input, u: Tag, t: Tag)
    requires 0 <= u.field < |x.fs| && FieldAction(x, u, t).Some? && FieldAction(x, u, t).value.uid.FieldOf?
    ensures !x.fs[u.field].IsRecord()
  {
    hide FieldBody;
  }

  lemma PreparedBodyIs(bd: Binding, b: Build, ps: seq<PreparedAction>, k: nat)
    requires AllPrepared(bd, b.actions, ps) && k < |ps|
    ensures k < |b.actions| && BodyOf(bd, b.actions[k].body, ps[k].body)
    ensures ps[k].body.Fixed? <==> b.actions[k].body.Text?
    ensures ps[k].body.Select? <==> b.actions[k].body.Choose?
  {
    hide MaskOf, FirstOf;
    assert PreparedOf(bd, b.actions, b.actions[k], ps[k]);
  }

  lemma LeadsPicks(ps: seq<PreparedAction>, n: Node, k': nat)
    requires Leads(ps, n, k') && n.action != 0
    ensures n.action < |ps| && k' in ps[n.action].successors && Picks(ps[n.action], n.tokens, k')
  {
    hide Picks;
  }

  lemma PathStep(ps: seq<PreparedAction>, nodes: seq<Node>, path: seq<nat>, i: nat)
    requires T.TreeOk(ps, nodes) && T.Chain(nodes, path) && i + 1 < |path|
    ensures path[i] < |nodes| && path[i+1] < |nodes| && nodes[path[i]].action < |ps| && nodes[path[i+1]].action < |ps|
    ensures Leads(ps, nodes[path[i]], nodes[path[i+1]].action)
    ensures i == 0 ==> nodes[path[i]].action == 0
  {
    hide Leads, Sum;
    assert T.LinkAt(nodes, path, i);
    assert T.EdgeOk(ps, nodes, path[i], path[i+1]);
  }

  lemma NodeYields(m: Model, ps: seq<PreparedAction>, nodes: seq<Node>, path: seq<nat>, i: nat)
    requires ModelOk(m) && AllTell(m, ps, nodes) && T.Chain(nodes, path) && 0 < i < |path|
    ensures path[i] < |nodes| && forall j :: 0 <= j < i ==> path[..i][j] < |nodes|
    ensures var n := nodes[path[i]];
      n.action < |ps| && Yields(m, ps[n.action], T.TokensAlong(nodes, path[..i]), n.tokens, n.costs)
  {
    hide ModelOk, Yields, T.TokensAlong, RootTells;
    var front := path[..i+1];
    forall j: nat | j + 1 < |front| ensures T.LinkAt(nodes, front, j) {
      assert T.LinkAt(nodes, path, j);
    }
    assert T.Chain(nodes, front);
    assert front[..|front|-1] == path[..i];
    assert Tells(m, ps, nodes, front);
  }

  /** The place of an action a node has taken: the alternative it says, and the successor that comes with it. */
  ghost predicate TookPlace(bd: Binding, a: Action, pb: PreparedBody, toks: seq<Token>, next: Uid, j: nat) {
    && j < |a.successors| && a.successors[j] == next
    && match pb
       case Fixed(text, _) => j == 0 && toks == text
       case Free(_) => true
       case Select(choices, _, _) => j < |choices| && toks == choices[j]
  }

  lemma PlaceTaken(m: Model, bd: Binding, b: Build, ps: seq<PreparedAction>, k: nat, k': nat, ctx: seq<Token>, toks: seq<Token>,
                   costs: seq<real>) returns (j: nat)
    requires ModelOk(m) && AllPrepared(bd, b.actions, ps) && k < |ps| && k' < |ps| && k' in ps[k].successors && Picks(ps[k], toks, k')
    requires Yields(m, ps[k], ctx, toks, costs) && (ps[k].body.Fixed? ==> |b.actions[k].successors| <= 1)
    ensures TookPlace(bd, b.actions[k], ps[k].body, toks, b.actions[k'].uid, j)
  {
    hide ModelOk, BodyOf, Charged, ResultOf;
    assert PreparedOf(bd, b.actions, b.actions[k], ps[k]);
    if ps[k].body.Select? {
      j :| 0 <= j < |ps[k].successors| && PicksAt(ps[k], toks, k', j);
    } else {
      j :| 0 <= j < |ps[k].successors| && ps[k].successors[j] == k';
    }
    assert FirstOf(b.actions, b.actions[k].successors[j], ps[k].successors[j]);
  }

  lemma PutsOne(bd: Binding, body: Body, pb: PreparedBody, j: nat, said: string, toks: seq<Token>)
    requires BodyOf(bd, body, pb) && Puts(body, j, said)
    requires match pb
      case Fixed(text, _) => toks == text
      case Free(_) => true
      case Select(choices, _, _) => j < |choices| && toks == choices[j]
    ensures toks == if pb.Fixed? then TokensOf(bd, said) else bd.lexicon.tokenize(said)
  {
    hide MaskOf;
  }

  lemma HeaderIs(bd: Binding, x: Input, header: string, b: Build, ps: seq<PreparedAction>)
    requires Automaton(x, header, b) && AllPrepared(bd, b.actions, ps)
    ensures |ps| > 0 && ps[0].uid == Header
  {
    assert PreparedOf(bd, b.actions, b.actions[0], ps[0]);
  }

  // ---- The frame ----------------------------------------------------------------------------------------------

  /** The nodes of the path carry the field and indices of their actions. */
  ghost predicate Matches(pn: seq<PathNode>, r: seq<Uid>) {
    |pn| == |r| && forall i :: 0 <= i < |r| ==> MatchAt(pn[i], r[i])
  }

  ghost predicate MatchAt(n: PathNode, uid: Uid) {
    match uid
    case FieldOf(u, _) => n.field == Some(u.field) && n.indices == u.indices
    case _ => n.field.None?
  }

  /** Preparing keeps field and indices, so the nodes of an evaluated path match their actions. */
  lemma NodeMatches(x: Input, header: string, b: Build, a: Action, n: PathNode)
    requires Automaton(x, header, b) && a in b.actions && n.field == a.field && n.indices == a.indices
    ensures MatchAt(n, a.uid)
  {
    hide Automaton, FieldBody, Follows, Decide;
    SameAct(x, header, b, a);
    ActFine(x, header, b, a.uid);
    if a.uid == Header { HeaderField(x, header, b); }
  }

  lemma HeaderField(x: Input, header: string, b: Build)
    requires Automaton(x, header, b)
    ensures Header in Uids(b.actions) ==> Act(b.actions, Header).field.None?
  {
    if Header in Uids(b.actions) { ActFine(x, header, b, Header); }
  }

  lemma {:induction false} FieldVisited(r: seq<Uid>, i: nat)
    requires i < |r| && r[i].FieldOf?
    ensures r[i].succ in Visits(r)
  {
    if i > 0 { FieldVisited(r[1..], i - 1); }
  }

  /** A run that meets no state twice has one field action per visited leaf. */
  lemma {:induction false} FieldOnce(r: seq<Uid>, i: nat, j: nat)
    requires NoDup(Visits(r)) && i < j < |r| && r[i].FieldOf? && r[j].FieldOf?
    ensures r[i].succ != r[j].succ
  {
    VisitsRest(r);
    if i == 0 {
      FieldVisited(r[1..], j - 1);
      var v := Visits(r[1..]);
      var k :| 0 <= k < |v| && v[k] == r[j].succ;
      assert Visits(r)[k+1] == v[k] && Visits(r)[0] == r[0].succ;
    } else {
      assert NoDup(Visits(r[1..])) by { VisitsTail(r); }
      FieldOnce(r[1..], i - 1, j - 1);
    }
  }

  lemma VisitsTail(r: seq<Uid>)
    requires |r| > 0 && NoDup(Visits(r))
    ensures NoDup(Visits(r[1..]))
  {
    VisitsRest(r);
    NoDupSuffix(Visits(r), Visits(r[1..]));
  }

  lemma NoDupSuffix<X>(s: seq<X>, t: seq<X>)
    requires NoDup(s) && |t| <= |s| && s[|s|-|t|..] == t
    ensures NoDup(t)
  {
    assert forall k :: 0 <= k < |t| ==> t[k] == s[k + |s| - |t|];
  }

  lemma WalkNoDup(x: Input, w: seq<Tag>)
    requires InputOk(x) && Walk(x, w)
    ensures NoDup(w)
  {
    hide Walk, Final, WellFormed, Traverse;
    forall i, j | 0 <= i < j < |w| ensures w[i] != w[j] {
      ContentLength.WalkRises(x, w, i, j);
    }
  }

  ghost predicate Visited(r: seq<Uid>, t: Tag) {
    exists i :: 0 <= i < |r| && r[i].FieldOf? && r[i].succ == t
  }

  ghost predicate HasEntry(es: seq<Entry>, t: Tag) {
    exists e :: e in es && e.t == t
  }

  lemma EntryStep(pn: seq<PathNode>, r: seq<Uid>, resolve: (int, string) -> Doc)
    requires Matches(pn, r) && pn != []
    ensures var n := |pn| - 1;
      Matches(pn[..n], r[..n]) &&
      EntriesOf(pn, resolve) == EntriesOf(pn[..n], resolve) +
        (if r[n].FieldOf? then [Entry(r[n].succ, resolve(r[n].succ.field, TrimEnd(pn[n].text)))] else [])
  {
    hide TrimEnd;
    assert MatchAt(pn[|pn|-1], r[|pn|-1]);
  }

  lemma VisitedStep(r: seq<Uid>, t: Tag)
    requires r != []
    ensures Visited(r, t) <==> Visited(r[..|r|-1], t) || (r[|r|-1].FieldOf? && r[|r|-1].succ == t)
  {
    if Visited(r[..|r|-1], t) {
      var i :| 0 <= i < |r| - 1 && r[..|r|-1][i].FieldOf? && r[..|r|-1][i].succ == t;
      assert r[i].FieldOf? && r[i].succ == t;
    }
    if i :| 0 <= i < |r| - 1 && r[i].FieldOf? && r[i].succ == t {
      assert r[..|r|-1][i].FieldOf?;
    }
  }

  lemma EntryMore(es: seq<Entry>, e: Entry, t: Tag)
    ensures HasEntry(es + [e], t) <==> HasEntry(es, t) || e.t == t
  {
    if HasEntry(es, t) {
      var f :| f in es && f.t == t;
      assert f in es + [e];
    }
    if e.t == t { assert e in es + [e]; }
  }

  /** The writes the path asks for are those of its field actions. */
  lemma {:induction false} EntriesAre(pn: seq<PathNode>, r: seq<Uid>, resolve: (int, string) -> Doc, t: Tag)
    requires Matches(pn, r)
    ensures HasEntry(EntriesOf(pn, resolve), t) <==> Visited(r, t)
    decreases |pn|
  {
    hide Matches, HasEntry, Visited, TrimEnd;
    if pn == [] {
      NothingVisited(pn, r, resolve, t);
    } else {
      var n := |pn| - 1;
      MatchSize(pn, r);
      EntryStep(pn, r, resolve);
      VisitedStep(r, t);
      EntriesAre(pn[..n], r[..n], resolve, t);
      hide EntriesOf;
      var es := EntriesOf(pn[..n], resolve);
      if r[n].FieldOf? {
        EntryMore(es, Entry(r[n].succ, resolve(r[n].succ.field, TrimEnd(pn[n].text))), t);
      } else {
        assert es + [] == es;
      }
    }
  }

  lemma MatchSize(pn: seq<PathNode>, r: seq<Uid>)
    requires Matches(pn, r)
    ensures |pn| == |r|
  {
  }

  lemma NothingVisited(pn: seq<PathNode>, r: seq<Uid>, resolve: (int, string) -> Doc, t: Tag)
    requires Matches(pn, r) && pn == []
    ensures !HasEntry(EntriesOf(pn, resolve), t) && !Visited(r, t)
  {
  }

  lemma {:induction false} LastEntry(pn: seq<PathNode>, r: seq<Uid>, resolve: (int, string) -> Doc, i: nat)
    requires Matches(pn, r) && i < |r| && r[i].FieldOf?
    requires forall j :: i < j < |r| && r[j].FieldOf? ==> r[j].succ != r[i].succ
    ensures exists e :: e in EntriesOf(pn, resolve) && e.t == r[i].succ
    ensures LastValue(EntriesOf(pn, resolve), r[i].succ) == resolve(r[i].succ.field, TrimEnd(pn[i].text))
    decreases |pn|
  {
    hide Matches, TrimEnd;
    MatchSize(pn, r);
    var n := |pn| - 1;
    var t := r[i].succ;
    EntriesAre(pn, r, resolve, t);
    assert Visited(r, t);
    assert HasEntry(EntriesOf(pn, resolve), t);
    EntryStep(pn, r, resolve);
    hide EntriesOf;
    var es, es' := EntriesOf(pn, resolve), EntriesOf(pn[..n], resolve);
    if i < n {
      LastEntry(pn[..n], r[..n], resolve, i);
      if r[n].FieldOf? {
        assert es[..|es|-1] == es';
        LastValueSkips(es, t);
      } else {
        assert es == es';
      }
    } else {
      assert es[|es|-1].t == t;
    }
  }

  /** A field action of a path writes to an address. */
  lemma RunAddress(x: Input, header: string, b: Build, r: seq<Uid>, i: nat)
    requires InputOk(x) && Automaton(x, header, b) && Along(b.actions, r) && r[0] == Header && i < |r| && r[i].FieldOf?
    ensures Address(x.fs, r[i].succ)
  {
    hide Automaton, Walk, Choices, Traverse, Final, FieldBody, IndexOk;
    InAlong(b.actions, r, i);
    ActFine(x, header, b, r[i]);
    var u := r[i].succ;
    assert Follows(x, r[i].from, u);
    StepForward(x, r[i].from, u);
    TraverseIndexOk(x.fs);
    assert FieldOk(x.fs, u.field);
    LeafAddress(x.fs, u);
  }

  /** What the frame says after a path through the automaton, even one that breaks off: reading it back, every leaf the
      path visited has the value made of the text of its node, and every other leaf has none. */
  lemma FrameHoldsRun(x: Input, header: string, b: Build, r: seq<Uid>, pn: seq<PathNode>, resolve: (int, string) -> Doc)
    requires InputOk(x) && NamesDistinct(x.fs) && Automaton(x, header, b)
    requires Along(b.actions, r) && r[0] == Header && Matches(pn, r)
    ensures Addresses(x.fs, EntriesOf(pn, resolve))
    ensures forall e | e in EntriesOf(pn, resolve) :: 0 <= e.t.field < |x.fs|
    ensures forall i | 0 <= i < |r| && r[i].FieldOf? ::
      Read(Written(Object(map[]), x.fs, EntriesOf(pn, resolve)), x.fs, r[i].succ)
        == Some(resolve(r[i].succ.field, TrimEnd(pn[i].text)))
    ensures forall u | Address(x.fs, u) && u !in Visits(r) ::
      Read(Written(Object(map[]), x.fs, EntriesOf(pn, resolve)), x.fs, u) in {None, Some(Null)}
  {
    hide Automaton, Along, Walk, Choices, Address, NamesDistinct, Matches, Written, Read, TrimEnd, EntriesOf,
      Final, FieldOk, Traverse, Preorder;
    MatchSize(pn, r);
    var es := EntriesOf(pn, resolve);
    forall e | e in es ensures Address(x.fs, e.t) {
      EntriesAre(pn, r, resolve, e.t);
      var i :| 0 <= i < |r| && r[i].FieldOf? && r[i].succ == e.t;
      RunAddress(x, header, b, r, i);
    }
    AllFields(x.fs, es);
    VisitsDistinct(x, header, b, r);
    forall i | 0 <= i < |r| && r[i].FieldOf?
      ensures Read(Written(Object(map[]), x.fs, es), x.fs, r[i].succ) == Some(resolve(r[i].succ.field, TrimEnd(pn[i].text)))
    {
      forall j | i < j < |r| && r[j].FieldOf? ensures r[j].succ != r[i].succ { FieldOnce(r, i, j); }
      LastEntry(pn, r, resolve, i);
      RunAddress(x, header, b, r, i);
      FrameReadsBack(x.fs, es, r[i].succ);
    }
    forall u | Address(x.fs, u) && u !in Visits(r) ensures Read(Written(Object(map[]), x.fs, es), x.fs, u) in {None, Some(Null)} {
      EntriesAre(pn, r, resolve, u);
      NotVisited(r, u);
      FrameReadsBack(x.fs, es, u);
    }
  }

  lemma NotVisited(r: seq<Uid>, u: Tag)
    requires u !in Visits(r)
    ensures !Visited(r, u)
  {
    forall i | 0 <= i < |r| && r[i].FieldOf? ensures r[i].succ != u {
      FieldVisited(r, i);
    }
  }

  lemma VisitsDistinct(x: Input, header: string, b: Build, r: seq<Uid>)
    requires InputOk(x) && Automaton(x, header, b) && Along(b.actions, r) && r[0] == Header
    ensures NoDup(Visits(r))
  {
    hide Automaton, Thread, Along, Walk, Choices, Final, WellFormed, Visits;
    AlongThread(b.actions, r);
    var rest := AlongCompletes(x, header, b, r);
    HeaderThread(x, header, b, r + rest);
    VisitsAppend(r, rest);
    var w := [ROOT] + Visits(r + rest);
    WalkNoDup(x, w);
    assert forall k :: 0 <= k < |Visits(r)| ==> Visits(r)[k] == w[k+1];
  }

  lemma {:induction false} VisitsAppend(r: seq<Uid>, rest: seq<Uid>)
    ensures Visits(r + rest) == Visits(r) + Visits(rest)
  {
    if r == [] {
      assert r + rest == rest && Visits(r) == [];
    } else {
      assert (r + rest)[1..] == r[1..] + rest;
      VisitsAppend(r[1..], rest);
    }
  }
}
