/** What the nodes of the tree say: the tokens and costs of a node are those its action yields after the path above it. */
module NodeTexts {
  import opened Sampling
  import opened BeamSearch
  import opened Prepared
  import opened Evaluation
  import opened EvaluationTree

  /** The action yields these tokens at these costs after ctx: a text its own, without costs unless it is to be evaluated; a
      choice one of its alternatives; a completion one of its results. Every token is charged after all that is
      before it. */
  ghost predicate Yields(m: Model, a: PreparedAction, ctx: seq<Token>, toks: seq<Token>, costs: seq<real>)
    requires ModelOk(m)
  {
    match a.body
    case Fixed(text, evaluate) =>
      toks == text &&
      (if evaluate then Charged(m, ctx, toks, costs) else |costs| == |toks| && forall i :: 0 <= i < |costs| ==> costs[i] == 0.0)
    case Free(c) => exists b :: ResultOf(m, c, ctx, toks, costs, b)
    case Select(choices, _, _) => toks in choices && Charged(m, ctx, toks, costs)
  }

  ghost predicate ResultOf(m: Model, c: Params, ctx: seq<Token>, toks: seq<Token>, costs: seq<real>, b: Beam)
    requires ModelOk(m)
  {
    b in Completed(m, c, ctx) && b.tokens == toks && b.costs == costs && Charged(m, ctx, Generated(c, b), costs)
  }

  /** The last node of the path carries what its action yields after the path above it. */
  ghost predicate Tells(m: Model, ps: seq<PreparedAction>, nodes: seq<Node>, path: seq<nat>)
    requires ModelOk(m) && Chain(nodes, path)
  {
    var n := nodes[path[|path|-1]];
    n.action < |ps| && Yields(m, ps[n.action], TokensAlong(nodes, path[..|path|-1]), n.tokens, n.costs)
  }

  /** The root carries the text of the first action, without costs. */
  ghost predicate RootTells(ps: seq<PreparedAction>, nodes: seq<Node>) {
    && |ps| > 0 && |nodes| > 0 && nodes[0].action == 0
    && nodes[0].tokens == (if ps[0].body.Fixed? then ps[0].body.tokens else [])
    && |nodes[0].costs| == |nodes[0].tokens| && forall i :: 0 <= i < |nodes[0].costs| ==> nodes[0].costs[i] == 0.0
  }

  ghost predicate AllTell(m: Model, ps: seq<PreparedAction>, nodes: seq<Node>)
    requires ModelOk(m)
  {
    RootTells(ps, nodes) && forall path | Chain(nodes, path) && |path| > 1 :: Tells(m, ps, nodes, path)
  }

  // ---- One action -------------------------------------------------------------------------------------------

  lemma ChildYields(m: Model, ps: seq<PreparedAction>, a: PreparedAction, ctx: seq<Token>, i: nat)
    requires ModelOk(m) && ActionPlayable(m, ps, a) && i < |Children(m, ps, a, ctx)|
    ensures var ch := Children(m, ps, a, ctx)[i]; Yields(m, a, ctx, ch.tokens, ch.costs)
  {
    hide ModelOk, Completed, ChoiceOrder, Costs, Charged, Admits;
    match a.body {
      case Fixed(text, _) => CostsCharge(m, ctx, text, [], 0);
      case Free(c) =>
        CompletedCharged(m, c, ctx, i);
        assert ResultOf(m, c, ctx, Completed(m, c, ctx)[i].tokens, Completed(m, c, ctx)[i].costs, Completed(m, c, ctx)[i]);
      case Select(choices, _, _) =>
        ChoiceChild(m, ps, a, ctx, i);
        var k := ChoiceOrder(m, choices, ctx)[i];
        assert choices[k] in choices;
        CostsCharge(m, ctx, choices[k], [], 0);
    }
  }

  lemma CompletedCharged(m: Model, c: Params, ctx: seq<Token>, i: nat)
    requires ModelOk(m) && i < |Completed(m, c, ctx)|
    ensures var b := Completed(m, c, ctx)[i]; Charged(m, ctx, Generated(c, b), b.costs)
  {
    hide ModelOk, Completed, Charged, Chosen, Clean, Admitted, Sum;
    var q := CompletionOk(m, c, ctx);
    assert BeamOk(m, c, ctx, q, Completed(m, c, ctx)[i]);
  }

  // ---- The tree ---------------------------------------------------------------------------------------------

  /** A path in the tree with one more node is an old one, or leads to the new node. */
  lemma ChainBack(ps: seq<PreparedAction>, nodes: seq<Node>, p: nat, n: Node, path: seq<nat>)
    requires EdgesOk(ps, nodes) && p < |nodes| && n.children == [] && Chain(Added(nodes, p, n), path)
    ensures path[|path|-1] < |nodes| ==> Chain(nodes, path)
    ensures path[|path|-1] == |nodes| && |nodes| > 0 ==>
      |path| > 1 && Chain(nodes, path[..|path|-1]) && path[|path|-2] == p
  {
    var nodes1 := Added(nodes, p, n);
    forall i: nat | i + 1 < |path| ensures path[i] < |nodes| && (path[i+1] < |nodes| ==> LinkAt(nodes, path, i)) {
      assert LinkAt(nodes1, path, i);
    }
    ChildrenBelow(ps, nodes);
    hide EdgesOk;
    var front := path[..|path|-1];
    if path[|path|-1] == |nodes| && |nodes| > 0 {
      assert |path| > 1;
      assert LinkAt(nodes1, path, |path| - 2);
      forall i: nat | i + 1 < |front| ensures LinkAt(nodes, front, i) {
        assert LinkAt(nodes, path, i);
      }
    }
  }

  lemma ChildrenBelow(ps: seq<PreparedAction>, nodes: seq<Node>)
    requires EdgesOk(ps, nodes)
    ensures forall q, c :: 0 <= q < |nodes| && c in nodes[q].children ==> c < |nodes|
  {
    forall q, c | 0 <= q < |nodes| && c in nodes[q].children ensures c < |nodes| {
      assert EdgeOk(ps, nodes, q, c);
    }
  }

  lemma TellsKept(m: Model, ps: seq<PreparedAction>, nodes: seq<Node>, p: nat, n: Node, path: seq<nat>)
    requires ModelOk(m) && p < |nodes| && Chain(nodes, path) && Tells(m, ps, nodes, path)
    ensures Chain(Added(nodes, p, n), path) && Tells(m, ps, Added(nodes, p, n), path)
  {
    hide ModelOk, Yields, Chain, TokensAlong;
    ChainKept(nodes, p, n, path);
    ChainInside(nodes, path);
    TokensKept(nodes, p, n, path[..|path|-1]);
  }

  lemma ChainInside(nodes: seq<Node>, path: seq<nat>)
    requires Chain(nodes, path)
    ensures |path| > 0 && forall i :: 0 <= i < |path| ==> path[i] < |nodes|
  {
  }

  lemma AddTells(m: Model, ps: seq<PreparedAction>, nodes: seq<Node>, it: Item, n: Node)
    requires ModelOk(m) && TreeOk(ps, nodes) && AllTell(m, ps, nodes) && ItemOk(ps, nodes, it) && n.children == []
    requires n.action < |ps| && Yields(m, ps[n.action], it.tokens, n.tokens, n.costs)
    ensures AllTell(m, ps, Added(nodes, it.parent, n))
  {
    hide ModelOk, Yields, Chain, TokensAlong, OneParent, HasParent, EdgesOk, Leads;
    var nodes1 := Added(nodes, it.parent, n);
    var way: seq<nat> :| ChainTo(nodes, way, it.parent, it.tokens);
    forall path | Chain(nodes1, path) && |path| > 1 ensures Tells(m, ps, nodes1, path) {
      ChainInside(nodes1, path);
      ChainBack(ps, nodes, it.parent, n, path);
      if path[|path|-1] < |nodes| {
        assert Tells(m, ps, nodes, path);
        TellsKept(m, ps, nodes, it.parent, n, path);
      } else {
        var front := path[..|path|-1];
        ChainUnique(ps, nodes, front, way);
        ChainInside(nodes, front);
        TokensKept(nodes, it.parent, n, front);
      }
    }
  }

  lemma ChildTells(m: Model, ps: seq<PreparedAction>, s: State, it: Item, ch: Child)
    requires ModelOk(m) && TreeOk(ps, s.nodes) && AllTell(m, ps, s.nodes) && ItemOk(ps, s.nodes, it)
    requires Yields(m, ps[it.action], it.tokens, ch.tokens, ch.costs)
    ensures AllTell(m, ps, AddChild(s, it, ch).nodes)
  {
    hide ModelOk, Yields, AllTell, TreeOk, Sum;
    var p := s.nodes[it.parent];
    var n := Node(it.action, ch.tokens, ch.costs, p.cost + Sum(ch.costs), p.length + |ch.tokens|, ch.pruned, []);
    AddTells(m, ps, s.nodes, it, n);
  }

  lemma {:induction false} AddAllTell(m: Model, ps: seq<PreparedAction>, s: State, it: Item, chs: seq<Child>)
    requires ModelOk(m) && Busy(ps, s, it) && AllTell(m, ps, s.nodes)
    requires ChildrenOk(ps, ps[it.action], chs) && forall k | k in ps[it.action].successors :: k < |ps|
    requires forall i :: 0 <= i < |chs| ==> Yields(m, ps[it.action], it.tokens, chs[i].tokens, chs[i].costs)
    ensures AllTell(m, ps, AddAll(s, it, chs).nodes)
  {
    hide ModelOk, AddChild, Busy, ChildOk, Yields, AllTell;
    BusyParent(ps, s, it);
    if chs != [] {
      var front := chs[..|chs|-1];
      AddAllTell(m, ps, s, it, front);
      AddAllBusy(ps, s, it, front);
      BusyParts(ps, AddAll(s, it, front), it);
      ChildTells(m, ps, AddAll(s, it, front), it, chs[|chs|-1]);
    }
  }

  lemma BusyParts(ps: seq<PreparedAction>, s: State, it: Item)
    requires Busy(ps, s, it)
    ensures TreeOk(ps, s.nodes) && ItemOk(ps, s.nodes, it)
  {
  }

  // ---- Every reachable state ----------------------------------------------------------------------------------

  lemma StepTells(m: Model, ps: seq<PreparedAction>, s: State)
    requires Playable(m, ps) && Inv(ps, s) && QueueOk(ps, s) && s.queue != [] && AllTell(m, ps, s.nodes)
    ensures AllTell(m, ps, StepQueue(m, ps, s).nodes)
  {
    hide Inv, Busy, Children, ChildrenOk, AddAll, ModelOk, ActionPlayable, AllTell, Yields;
    var it := s.queue[0];
    var s1 := State(s.nodes, s.queue[1..]);
    FrontBusy(ps, s);
    ChildrenFit(m, ps, it.action, it.tokens);
    SuccessorsIn(m, ps, ps[it.action]);
    var chs := Children(m, ps, ps[it.action], it.tokens);
    forall i | 0 <= i < |chs| ensures Yields(m, ps[it.action], it.tokens, chs[i].tokens, chs[i].costs) {
      ChildYields(m, ps, ps[it.action], it.tokens, i);
    }
    AddAllTell(m, ps, s1, it, chs);
  }

  /** However far an evaluation has come, every node carries what its action yields after the path above it. */
  lemma FinishTells(m: Model, ps: seq<PreparedAction>, lv: seq<nat>, s: State)
    requires Playable(m, ps) && Descends(ps, lv) && QueueOk(ps, s) && Inv(ps, s) && AllTell(m, ps, s.nodes)
    ensures AllTell(m, ps, Finish(m, ps, lv, s).nodes)
    decreases Potential(MaxWidth(ps), lv, s.queue)
  {
    hide Inv, Playable, Descends, StepQueue, QueueOk, Potential, MaxWidth, AllTell;
    PlayableParts(m, ps);
    hide ModelOk;
    if s.queue == [] {
      FinishDone(m, ps, lv, s);
    } else {
      StepInv(m, ps, s);
      StepTells(m, ps, s);
      StepDecreases(m, ps, lv, s);
      FinishStep(m, ps, lv, s);
      FinishTells(m, ps, lv, StepQueue(m, ps, s));
    }
  }

  /** So it is in the tree of a whole evaluation; and the root carries the text of the first action, without costs. */
  lemma EvaluationTells(m: Model, ps: seq<PreparedAction>, lv: seq<nat>)
    requires Playable(m, ps) && Descends(ps, lv)
    ensures QueueOk(ps, Initial(ps))
    ensures AllTell(m, ps, Finish(m, ps, lv, Initial(ps)).nodes)
  {
    hide Inv, Playable, Descends, QueueOk;
    PlayableParts(m, ps);
    hide ModelOk;
    InitialOk(m, ps);
    InitialInv(m, ps);
    InitialTells(m, ps);
    FinishTells(m, ps, lv, Initial(ps));
  }

  lemma InitialTells(m: Model, ps: seq<PreparedAction>)
    requires ModelOk(m) && |ps| > 0
    ensures AllTell(m, ps, Initial(ps).nodes)
  {
    hide ModelOk, Tells;
    var nodes := Initial(ps).nodes;
    forall path | Chain(nodes, path) ensures |path| == 1 {
      OnlyRoot(nodes, path);
    }
  }

  lemma OnlyRoot(nodes: seq<Node>, path: seq<nat>)
    requires |nodes| > 0 && nodes[0].children == [] && Chain(nodes, path)
    ensures |path| == 1
  {
    assert |path| > 1 ==> LinkAt(nodes, path, 0);
  }
}
