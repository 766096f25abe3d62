/** What holds of the tree and the queue in every state the evaluator reaches. */
module EvaluationTree {
  import opened Schema
  import opened Traversal
  import opened Sampling
  import opened BeamSearch
  import opened Prepared
  import opened Evaluation

  // ---- Paths from the root --------------------------------------------------------------------------------

  ghost predicate LinkAt(nodes: seq<Node>, path: seq<nat>, i: nat)
    requires i + 1 < |path|
  {
    path[i] < |nodes| && path[i+1] in nodes[path[i]].children
  }

  /** A path down the tree. */
  ghost predicate Chain(nodes: seq<Node>, path: seq<nat>) {
    && |path| > 0 && path[0] == 0
    && (forall i :: 0 <= i < |path| ==> path[i] < |nodes|)
    && forall i: nat :: i + 1 < |path| ==> LinkAt(nodes, path, i)
  }

  /** All tokens along a path. */
  ghost function TokensAlong(nodes: seq<Node>, path: seq<nat>): seq<Token>
    requires forall i :: 0 <= i < |path| ==> path[i] < |nodes|
  {
    if path == [] then [] else TokensAlong(nodes, path[..|path|-1]) + nodes[path[|path|-1]].tokens
  }

  ghost function CostAlong(nodes: seq<Node>, path: seq<nat>): real
    requires forall i :: 0 <= i < |path| ==> path[i] < |nodes|
  {
    if path == [] then 0.0 else CostAlong(nodes, path[..|path|-1]) + Sum(nodes[path[|path|-1]].costs)
  }

  ghost predicate ChainTo(nodes: seq<Node>, path: seq<nat>, i: nat, toks: seq<Token>) {
    Chain(nodes, path) && path[|path|-1] == i && TokensAlong(nodes, path) == toks
  }

  // ---- The tree ----------------------------------------------------------------------------------------------

  ghost predicate EdgeOk(ps: seq<PreparedAction>, nodes: seq<Node>, p: nat, c: nat)
    requires p < |nodes|
  {
    && p < c < |nodes|
    && Leads(ps, nodes[p], nodes[c].action)
    && nodes[c].length == nodes[p].length + |nodes[c].tokens|
    && nodes[c].cost == nodes[p].cost + Sum(nodes[c].costs)
    && !nodes[p].pruned
  }

  ghost predicate EdgesOk(ps: seq<PreparedAction>, nodes: seq<Node>) {
    forall p, c :: 0 <= p < |nodes| && c in nodes[p].children ==> EdgeOk(ps, nodes, p, c)
  }

  /** No node has two parents. */
  ghost predicate OneParent(nodes: seq<Node>) {
    && (forall p :: 0 <= p < |nodes| ==> NoDup(nodes[p].children))
    && forall p, q, c :: 0 <= p < |nodes| && 0 <= q < |nodes| && c in nodes[p].children && c in nodes[q].children ==> p == q
  }

  ghost predicate RootOk(nodes: seq<Node>) {
    |nodes| > 0 && nodes[0].action == 0 && nodes[0].length == |nodes[0].tokens| && nodes[0].cost == Sum(nodes[0].costs)
    && !nodes[0].pruned
  }

  ghost predicate HasParent(nodes: seq<Node>, c: nat) {
    exists p :: 0 <= p < |nodes| && c in nodes[p].children
  }

  ghost predicate TreeOk(ps: seq<PreparedAction>, nodes: seq<Node>) {
    && RootOk(nodes) && EdgesOk(ps, nodes) && OneParent(nodes)
    && (forall i :: 0 <= i < |nodes| ==> nodes[i].action < |ps|)
    && forall c :: 0 < c < |nodes| ==> HasParent(nodes, c)
  }

  /** The totals of a node are those of the path that leads to it. */
  lemma {:induction false} TotalsAlong(ps: seq<PreparedAction>, nodes: seq<Node>, path: seq<nat>)
    requires TreeOk(ps, nodes) && Chain(nodes, path)
    ensures var n := nodes[path[|path|-1]];
      n.length == |TokensAlong(nodes, path)| && n.cost == CostAlong(nodes, path)
    decreases |path|
  {
    hide OneParent, Sum;
    var front := path[..|path|-1];
    if |path| > 1 {
      ChainFront(nodes, path);
      TotalsAlong(ps, nodes, front);
      assert LinkAt(nodes, path, |path| - 2);
    } else {
      assert front == [] && path == [0];
    }
  }

  lemma ChainFront(nodes: seq<Node>, path: seq<nat>)
    requires Chain(nodes, path) && |path| > 1
    ensures Chain(nodes, path[..|path|-1])
  {
    var front := path[..|path|-1];
    forall i: nat | i + 1 < |front| ensures LinkAt(nodes, front, i) {
      assert LinkAt(nodes, path, i);
    }
  }

  /** There is only one path to a node. */
  lemma {:induction false} ChainUnique(ps: seq<PreparedAction>, nodes: seq<Node>, a: seq<nat>, b: seq<nat>)
    requires TreeOk(ps, nodes) && Chain(nodes, a) && Chain(nodes, b) && a[|a|-1] == b[|b|-1]
    ensures a == b
    decreases |a|
  {
    RootHasNone(ps, nodes);
    if |a| > 1 { assert LinkAt(nodes, a, |a| - 2); }
    if |b| > 1 { assert LinkAt(nodes, b, |b| - 2); }
    if |a| > 1 && |b| > 1 {
      ChainFront(nodes, a);
      ChainFront(nodes, b);
      hide EdgesOk, RootOk, HasParent;
      ChainUnique(ps, nodes, a[..|a|-1], b[..|b|-1]);
      assert a == a[..|a|-1] + [a[|a|-1]] && b == b[..|b|-1] + [b[|b|-1]];
    } else {
      hide EdgesOk, RootOk, HasParent, OneParent;
      assert a == [0] && b == [0];
    }
  }

  lemma RootHasNone(ps: seq<PreparedAction>, nodes: seq<Node>)
    requires TreeOk(ps, nodes)
    ensures forall p :: 0 <= p < |nodes| ==> 0 !in nodes[p].children
  {
    forall p, c | 0 <= p < |nodes| && c in nodes[p].children ensures c != 0 {
      assert EdgeOk(ps, nodes, p, c);
    }
  }

  /** Every node is at the end of some path. */
  lemma {:induction false} ChainExists(ps: seq<PreparedAction>, nodes: seq<Node>, i: nat) returns (path: seq<nat>)
    requires TreeOk(ps, nodes) && i < |nodes|
    ensures Chain(nodes, path) && path[|path|-1] == i
  {
    if i == 0 {
      path := [0];
    } else {
      hide OneParent;
      assert HasParent(nodes, i);
      var p: nat :| p < |nodes| && i in nodes[p].children;
      assert EdgeOk(ps, nodes, p, i);
      var front := ChainExists(ps, nodes, p);
      path := front + [i];
      ChainMore(nodes, front, i);
    }
  }

  lemma ChainMore(nodes: seq<Node>, path: seq<nat>, c: nat)
    requires Chain(nodes, path) && c < |nodes| && c in nodes[path[|path|-1]].children
    ensures Chain(nodes, path + [c])
    ensures TokensAlong(nodes, path + [c]) == TokensAlong(nodes, path) + nodes[c].tokens
  {
    var more := path + [c];
    assert more[..|more|-1] == path;
    forall i: nat | i + 1 < |more| ensures LinkAt(nodes, more, i) {
      if i + 1 < |path| { assert LinkAt(nodes, path, i); }
    }
  }

  // ---- Adding a child ----------------------------------------------------------------------------------------

  /** The arena with one more child of p. */
  ghost function Added(nodes: seq<Node>, p: nat, n: Node): seq<Node>
    requires p < |nodes|
  {
    nodes[p := nodes[p].(children := nodes[p].children + [|nodes|])] + [n]
  }

  lemma ChainKept(nodes: seq<Node>, p: nat, n: Node, path: seq<nat>)
    requires p < |nodes| && Chain(nodes, path)
    ensures Chain(Added(nodes, p, n), path) && TokensAlong(Added(nodes, p, n), path) == TokensAlong(nodes, path)
  {
    var nodes1 := Added(nodes, p, n);
    forall i: nat | i + 1 < |path| ensures LinkAt(nodes1, path, i) {
      assert LinkAt(nodes, path, i);
    }
    TokensKept(nodes, p, n, path);
  }

  lemma {:induction false} TokensKept(nodes: seq<Node>, p: nat, n: Node, path: seq<nat>)
    requires p < |nodes| && forall i :: 0 <= i < |path| ==> path[i] < |nodes|
    ensures TokensAlong(Added(nodes, p, n), path) == TokensAlong(nodes, path)
    decreases |path|
  {
    if path != [] { TokensKept(nodes, p, n, path[..|path|-1]); }
  }

  ghost predicate FitsBelow(ps: seq<PreparedAction>, nodes: seq<Node>, p: nat, n: Node)
    requires p < |nodes|
  {
    && Leads(ps, nodes[p], n.action) && n.action < |ps| && n.children == []
    && n.length == nodes[p].length + |n.tokens| && n.cost == nodes[p].cost + Sum(n.costs) && !nodes[p].pruned
  }

  lemma TreeAdd(ps: seq<PreparedAction>, nodes: seq<Node>, p: nat, n: Node)
    requires TreeOk(ps, nodes) && p < |nodes| && FitsBelow(ps, nodes, p, n)
    ensures TreeOk(ps, Added(nodes, p, n))
  {
    hide Sum;
    var nodes1 := Added(nodes, p, n);
    EdgesAdd(ps, nodes, p, n);
    OneParentAdd(ps, nodes, p, n);
    hide EdgesOk, OneParent, EdgeOk;
    forall c | 0 < c < |nodes1| ensures HasParent(nodes1, c) {
      if c < |nodes| {
        assert HasParent(nodes, c);
        var q :| 0 <= q < |nodes| && c in nodes[q].children;
        assert c in nodes1[q].children;
      } else {
        assert c in nodes1[p].children;
      }
    }
  }

  lemma EdgesAdd(ps: seq<PreparedAction>, nodes: seq<Node>, p: nat, n: Node)
    requires EdgesOk(ps, nodes) && p < |nodes| && FitsBelow(ps, nodes, p, n)
    ensures EdgesOk(ps, Added(nodes, p, n))
  {
    hide Sum;
    var nodes1 := Added(nodes, p, n);
    forall q, c | 0 <= q < |nodes1| && c in nodes1[q].children ensures EdgeOk(ps, nodes1, q, c) {
      if q < |nodes| && c in nodes[q].children {
        assert EdgeOk(ps, nodes, q, c);
      } else {
        assert q == p && c == |nodes|;
      }
    }
  }

  lemma NoDupMore(cs: seq<nat>, c: nat)
    requires NoDup(cs) && c !in cs
    ensures NoDup(cs + [c])
  {
  }

  lemma OneParentAdd(ps: seq<PreparedAction>, nodes: seq<Node>, p: nat, n: Node)
    requires EdgesOk(ps, nodes) && OneParent(nodes) && p < |nodes| && n.children == []
    ensures OneParent(Added(nodes, p, n))
  {
    var nodes1 := Added(nodes, p, n);
    forall q, c | 0 <= q < |nodes| && c in nodes[q].children ensures c < |nodes| {
      assert EdgeOk(ps, nodes, q, c);
    }
    hide EdgesOk;
    forall q | 0 <= q < |nodes1| ensures NoDup(nodes1[q].children) {
      if q == p { NoDupMore(nodes[p].children, |nodes|); }
    }
    hide NoDup;
    forall q, r, c | 0 <= q < |nodes1| && 0 <= r < |nodes1| && c in nodes1[q].children && c in nodes1[r].children
      ensures q == r
    {
      assert c == |nodes| || (q < |nodes| && r < |nodes| && c in nodes[q].children && c in nodes[r].children);
    }
  }

  // ---- The queue -----------------------------------------------------------------------------------------------

  ghost predicate ItemOk(ps: seq<PreparedAction>, nodes: seq<Node>, it: Item) {
    && it.parent < |nodes| && Leads(ps, nodes[it.parent], it.action) && it.action < |ps|
    && !nodes[it.parent].pruned
    && exists path :: ChainTo(nodes, path, it.parent, it.tokens)
  }

  ghost predicate Waiting(ps: seq<PreparedAction>, nodes: seq<Node>, it: Item) {
    ItemOk(ps, nodes, it) && nodes[it.parent].children == []
  }

  ghost predicate QueueFine(ps: seq<PreparedAction>, s: State) {
    && (forall i :: 0 <= i < |s.queue| ==> Waiting(ps, s.nodes, s.queue[i]))
    && forall i, j :: 0 <= i < j < |s.queue| ==> s.queue[i].parent != s.queue[j].parent
  }

  /** The node is the end of a run: nothing follows its action, or what follows is a completion without beams. */
  ghost predicate Ended(ps: seq<PreparedAction>, n: Node) {
    n.action < |ps| && (ps[n.action].successors == [] || Starved(ps, n))
  }

  /** What follows the node is a completion that has tokens to find, but no beam to find them with. */
  ghost predicate Starved(ps: seq<PreparedAction>, n: Node) {
    exists k :: Leads(ps, n, k) && Beamless(ps, k)
  }

  ghost predicate Beamless(ps: seq<PreparedAction>, k: nat) {
    k < |ps| && ps[k].body.Free? && ps[k].body.params.beams == 0 < ps[k].body.params.length
  }

  /** No completion is run without beams. */
  ghost predicate Fed(ps: seq<PreparedAction>) {
    forall i :: 0 <= i < |ps| ==> !Beamless(ps, i)
  }

  ghost predicate Queued(q: seq<Item>, i: nat) {
    exists k :: 0 <= k < |q| && q[k].parent == i
  }

  ghost predicate Leaf(nodes: seq<Node>, i: nat) {
    i < |nodes| && nodes[i].children == [] && !nodes[i].pruned
  }

  /** Every open leaf other than `but` is waiting in the queue or has ended. */
  ghost predicate LeavesOk(ps: seq<PreparedAction>, s: State, but: Option<nat>) {
    forall i: nat :: Leaf(s.nodes, i) && Some(i) != but ==> LeafOk(ps, s, i)
  }

  ghost predicate LeafOk(ps: seq<PreparedAction>, s: State, i: nat)
    requires i < |s.nodes|
  {
    Queued(s.queue, i) || Ended(ps, s.nodes[i])
  }

  ghost predicate Inv(ps: seq<PreparedAction>, s: State) {
    TreeOk(ps, s.nodes) && QueueFine(ps, s) && LeavesOk(ps, s, None)
  }

  /** While the item is being evaluated. */
  ghost predicate Busy(ps: seq<PreparedAction>, s: State, it: Item) {
    && TreeOk(ps, s.nodes) && ItemOk(ps, s.nodes, it) && QueueFine(ps, s)
    && !Queued(s.queue, it.parent) && LeavesOk(ps, s, Some(it.parent))
  }

  lemma ItemKept(ps: seq<PreparedAction>, nodes: seq<Node>, p: nat, n: Node, it: Item)
    requires p < |nodes| && ItemOk(ps, nodes, it)
    ensures ItemOk(ps, Added(nodes, p, n), it)
    ensures it.parent != p && Waiting(ps, nodes, it) ==> Waiting(ps, Added(nodes, p, n), it)
  {
    hide Chain, TokensAlong;
    var path: seq<nat> :| ChainTo(nodes, path, it.parent, it.tokens);
    ChainToKept(nodes, p, n, path, it.parent, it.tokens);
  }

  lemma ChainToKept(nodes: seq<Node>, p: nat, n: Node, path: seq<nat>, i: nat, toks: seq<Token>)
    requires p < |nodes| && ChainTo(nodes, path, i, toks)
    ensures ChainTo(Added(nodes, p, n), path, i, toks)
  {
    ChainKept(nodes, p, n, path);
    hide Chain, TokensAlong;
  }

  /** What goes on from the new child waits for it with the tokens up to there. */
  lemma NewItem(ps: seq<PreparedAction>, nodes: seq<Node>, it: Item, n: Node, next: nat)
    requires ItemOk(ps, nodes, it) && n.action == it.action && !n.pruned && n.children == []
    requires Leads(ps, n, next) && next < |ps|
    ensures Waiting(ps, Added(nodes, it.parent, n), Item(next, |nodes|, it.tokens + n.tokens))
  {
    var nodes1 := Added(nodes, it.parent, n);
    var path: seq<nat> :| ChainTo(nodes, path, it.parent, it.tokens);
    ChainToKept(nodes, it.parent, n, path, it.parent, it.tokens);
    ChainMore(nodes1, path, |nodes|);
    hide Chain, TokensAlong;
    assert ChainTo(nodes1, path + [|nodes|], |nodes|, it.tokens + n.tokens);
  }

  lemma QueuedKept(q: seq<Item>, r: seq<Item>, i: nat)
    requires Queued(q, i)
    ensures Queued(q + r, i)
  {
    var k :| 0 <= k < |q| && q[k].parent == i;
    assert (q + r)[k].parent == i;
  }

  /** The queue stays in order when the item's next child comes in. */
  lemma QueueAdd(ps: seq<PreparedAction>, s: State, it: Item, n: Node, new1: seq<Item>)
    requires QueueFine(ps, s) && it.parent < |s.nodes| && !Queued(s.queue, it.parent)
    requires |new1| <= 1 && forall x | x in new1 :: Waiting(ps, Added(s.nodes, it.parent, n), x) && x.parent == |s.nodes|
    ensures QueueFine(ps, State(Added(s.nodes, it.parent, n), s.queue + new1))
    ensures !Queued(s.queue + new1, it.parent)
  {
    hide Waiting;
    var q := s.queue + new1;
    var nodes1 := Added(s.nodes, it.parent, n);
    forall i | 0 <= i < |s.queue| ensures Waiting(ps, nodes1, s.queue[i]) && s.queue[i].parent < |s.nodes| {
      assert Waiting(ps, s.nodes, s.queue[i]);
      WaitingKept(ps, s.nodes, it.parent, n, s.queue[i]);
    }
    forall i | 0 <= i < |q| ensures Waiting(ps, nodes1, q[i]) {
      if i >= |s.queue| { assert q[i] == new1[i - |s.queue|]; }
    }
    forall i, j | 0 <= i < j < |q| ensures q[i].parent != q[j].parent {
      if j >= |s.queue| { assert q[j] == new1[j - |s.queue|]; }
    }
  }

  lemma WaitingKept(ps: seq<PreparedAction>, nodes: seq<Node>, p: nat, n: Node, it: Item)
    requires p < |nodes| && it.parent != p && Waiting(ps, nodes, it)
    ensures Waiting(ps, Added(nodes, p, n), it) && it.parent < |nodes|
  {
    ItemKept(ps, nodes, p, n, it);
  }

  lemma LeavesAdd(ps: seq<PreparedAction>, s: State, it: Item, n: Node, new1: seq<Item>)
    requires it.parent < |s.nodes| && LeavesOk(ps, s, Some(it.parent))
    requires !n.pruned ==> Queued(new1, |s.nodes|) || Ended(ps, n)
    ensures LeavesOk(ps, State(Added(s.nodes, it.parent, n), s.queue + new1), Some(it.parent))
  {
    hide Ended;
    var s1 := State(Added(s.nodes, it.parent, n), s.queue + new1);
    forall i: nat | Leaf(s1.nodes, i) && i != it.parent ensures LeafOk(ps, s1, i) {
      if i < |s.nodes| {
        assert Leaf(s.nodes, i);
        if Queued(s.queue, i) { QueuedKept(s.queue, new1, i); }
      } else if Queued(new1, |s.nodes|) {
        var k :| 0 <= k < |new1| && new1[k].parent == |s.nodes|;
        assert s1.queue[|s.queue| + k].parent == i;
      }
    }
  }

  /** Adding one child of the item being evaluated. */
  lemma AddBusy(ps: seq<PreparedAction>, s: State, it: Item, i: nat, ch: Child)
    requires Busy(ps, s, it) && ChildOk(ps, ps[it.action], i, ch) && forall k | k in ps[it.action].successors :: k < |ps|
    ensures Busy(ps, AddChild(s, it, ch), it)
  {
    hide QueueFine, LeavesOk, TreeOk, Sum, MaxWidth, Waiting, Chain, TokensAlong, Queued;
    var p := s.nodes[it.parent];
    var n := Node(it.action, ch.tokens, ch.costs, p.cost + Sum(ch.costs), p.length + |ch.tokens|, ch.pruned, []);
    var new1 := if ch.pruned || ch.next.None? then [] else [Item(ch.next.value, |s.nodes|, it.tokens + ch.tokens)];
    assert s.queue + [] == s.queue;
    assert AddChild(s, it, ch) == State(Added(s.nodes, it.parent, n), s.queue + new1);
    TreeAdd(ps, s.nodes, it.parent, n);
    if new1 != [] { NewItem(ps, s.nodes, it, n, ch.next.value); }
    QueueAdd(ps, s, it, n, new1);
    QueuedFirst(new1, |s.nodes|);
    LeavesAdd(ps, s, it, n, new1);
    ItemKept(ps, s.nodes, it.parent, n, it);
  }

  lemma QueuedFirst(q: seq<Item>, i: nat)
    ensures q != [] && q[0].parent == i ==> Queued(q, i)
  {
  }

  lemma {:induction false} AddAllBusy(ps: seq<PreparedAction>, s: State, it: Item, chs: seq<Child>)
    requires Busy(ps, s, it) && ChildrenOk(ps, ps[it.action], chs) && forall k | k in ps[it.action].successors :: k < |ps|
    ensures Busy(ps, AddAll(s, it, chs), it)
    ensures AddAll(s, it, chs).nodes[it.parent].children == [] ==> chs == []
  {
    hide AddChild, Busy, ChildOk;
    BusyParent(ps, s, it);
    if chs != [] {
      AddAllBusy(ps, s, it, chs[..|chs|-1]);
      AddBusy(ps, AddAll(s, it, chs[..|chs|-1]), it, |chs| - 1, chs[|chs|-1]);
      AddChildMore(AddAll(s, it, chs[..|chs|-1]), it, chs[|chs|-1]);
    }
  }

  lemma BusyParent(ps: seq<PreparedAction>, s: State, it: Item)
    requires Busy(ps, s, it)
    ensures it.parent < |s.nodes| && it.action < |ps|
  {
  }

  lemma AddChildMore(s: State, it: Item, ch: Child)
    requires it.parent < |s.nodes|
    ensures AddChild(s, it, ch).nodes[it.parent].children != []
  {
  }

  // ---- Every reachable state -----------------------------------------------------------------------------------

  lemma InitialInv(m: Model, ps: seq<PreparedAction>)
    requires Playable(m, ps)
    ensures Inv(ps, Initial(ps))
  {
    hide TreeOk, Waiting, ModelOk;
    var s := Initial(ps);
    var a := ps[0];
    assert ActionPlayable(m, ps, a);
    hide Playable, ActionPlayable;
    InitialTree(ps, s.nodes);
    if a.successors != [] {
      assert a.successors[0] in a.successors;
      InitialWaiting(ps, s.nodes, s.queue[0]);
      QueuedFirst(s.queue, 0);
    }
  }

  lemma InitialTree(ps: seq<PreparedAction>, nodes: seq<Node>)
    requires |ps| > 0 && nodes == Initial(ps).nodes
    ensures TreeOk(ps, nodes)
  {
    ZerosSum(|nodes[0].tokens|);
    hide Sum;
  }

  lemma InitialWaiting(ps: seq<PreparedAction>, nodes: seq<Node>, it: Item)
    requires |ps| > 0 && nodes == Initial(ps).nodes && it.parent == 0 && it.tokens == nodes[0].tokens
    requires it.action in ps[0].successors && it.action < |ps|
    ensures Waiting(ps, nodes, it)
  {
    assert [0][..0] == [];
    assert TokensAlong(nodes, []) == [];
    assert TokensAlong(nodes, [0]) == [] + nodes[0].tokens;
    assert ChainTo(nodes, [0], 0, nodes[0].tokens);
  }

  lemma {:induction false} ZerosSum(n: nat)
    ensures Sum(Zeros(n)) == 0.0
  {
    if n > 0 {
      assert Zeros(n)[..n-1] == Zeros(n - 1);
      ZerosSum(n - 1);
    }
  }

  lemma FrontBusy(ps: seq<PreparedAction>, s: State)
    requires Inv(ps, s) && s.queue != []
    ensures Busy(ps, State(s.nodes, s.queue[1..]), s.queue[0]) && s.nodes[s.queue[0].parent].children == []
  {
    hide TreeOk, ItemOk, Ended;
    var it, rest := s.queue[0], s.queue[1..];
    assert Waiting(ps, s.nodes, it);
    forall i: nat | Leaf(s.nodes, i) && i != it.parent ensures LeafOk(ps, State(s.nodes, rest), i) {
      assert LeafOk(ps, s, i);
      if Queued(s.queue, i) {
        var k :| 0 <= k < |s.queue| && s.queue[k].parent == i;
        assert rest[k-1].parent == i;
      }
    }
  }

  lemma BusyDone(ps: seq<PreparedAction>, s: State, it: Item)
    requires Busy(ps, s, it) && (s.nodes[it.parent].children != [] || Ended(ps, s.nodes[it.parent]))
    ensures Inv(ps, s)
  {
    hide TreeOk, QueueFine, ItemOk, Ended;
  }

  /** What the evaluator keeps in every step. */
  lemma StepInv(m: Model, ps: seq<PreparedAction>, s: State)
    requires Playable(m, ps) && Inv(ps, s) && QueueOk(ps, s) && s.queue != []
    ensures Inv(ps, StepQueue(m, ps, s))
  {
    hide Inv, Busy, Children, ChildrenOk, AddAll, ModelOk, Ended, ActionPlayable;
    var it := s.queue[0];
    var s1 := State(s.nodes, s.queue[1..]);
    FrontBusy(ps, s);
    ChildrenFit(m, ps, it.action, it.tokens);
    SuccessorsIn(m, ps, ps[it.action]);
    var chs := Children(m, ps, ps[it.action], it.tokens);
    AddAllBusy(ps, s1, it, chs);
    if chs == [] {
      ChildlessEnds(m, ps, s1, it);
      AddNone(s1, it);
    }
    BusyDone(ps, AddAll(s1, it, chs), it);
  }

  lemma SuccessorsIn(m: Model, ps: seq<PreparedAction>, a: PreparedAction)
    requires ActionPlayable(m, ps, a)
    ensures forall k | k in a.successors :: k < |ps|
  {
  }

  /** Only a completion without beams adds no child. */
  lemma ChildlessEnds(m: Model, ps: seq<PreparedAction>, s: State, it: Item)
    requires Playable(m, ps) && Busy(ps, s, it) && ActionPlayable(m, ps, ps[it.action])
    requires Children(m, ps, ps[it.action], it.tokens) == []
    ensures Ended(ps, s.nodes[it.parent])
  {
    hide QueueFine, LeavesOk, TreeOk, Completed, Chain, ModelOk;
    var a := ps[it.action];
    if a.body.Free? {
      CompletedSome(m, a.body.params, it.tokens);
    }
  }

  lemma FinishInv(m: Model, ps: seq<PreparedAction>, lv: seq<nat>, s: State)
    requires Playable(m, ps) && Descends(ps, lv) && QueueOk(ps, s) && Inv(ps, s)
    ensures Inv(ps, Finish(m, ps, lv, s))
    decreases Potential(MaxWidth(ps), lv, s.queue)
  {
    hide Inv, Playable, Descends, StepQueue, QueueOk, Potential, MaxWidth;
    if s.queue == [] {
      FinishDone(m, ps, lv, s);
    } else {
      StepInv(m, ps, s);
      StepDecreases(m, ps, lv, s);
      FinishStep(m, ps, lv, s);
      FinishInv(m, ps, lv, StepQueue(m, ps, s));
    }
  }
}
