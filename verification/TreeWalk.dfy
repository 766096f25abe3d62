/** From the finished tree to one path: collecting the complete paths and choosing the best of them. */
module TreeWalk {
  import opened Sampling
  import opened BeamSearch
  import opened Prepared
  import opened Evaluation
  import opened EvaluationTree

  /** Children come later in the arena. */
  ghost predicate Downward(nodes: seq<Node>) {
    forall p, c :: 0 <= p < |nodes| && c in nodes[p].children ==> p < c < |nodes|
  }

  function PrefixAll(pre: seq<nat>, ws: seq<seq<nat>>): (r: seq<seq<nat>>)
    ensures |r| == |ws| && forall i :: 0 <= i < |r| ==> r[i] == pre + ws[i]
  {
    seq(|ws|, i requires 0 <= i < |ws| => pre + ws[i])
  }

  /** The paths from node i down to leaves that were not pruned. */
  ghost function Leaves(nodes: seq<Node>, i: nat): seq<seq<nat>>
    requires Downward(nodes) && i < |nodes|
    decreases |nodes| - i, |nodes[i].children| + 1
  {
    if nodes[i].children == [] then (if nodes[i].pruned then [] else [[i]])
    else PrefixAll([i], LeavesOf(nodes, i, |nodes[i].children|))
  }

  /** The paths through the first n children of i. */
  ghost function LeavesOf(nodes: seq<Node>, i: nat, n: nat): seq<seq<nat>>
    requires Downward(nodes) && i < |nodes| && n <= |nodes[i].children|
    decreases |nodes| - i, n
  {
    if n == 0 then []
    else
      var c := nodes[i].children[n-1];
      assert c in nodes[i].children;
      LeavesOf(nodes, i, n - 1) + Leaves(nodes, c)
  }

  lemma PrefixNone(ws: seq<seq<nat>>)
    ensures PrefixAll([], ws) == ws
  {
    assert forall i :: 0 <= i < |ws| ==> PrefixAll([], ws)[i] == ws[i];
  }

  lemma PrefixTwice(a: seq<nat>, b: seq<nat>, ws: seq<seq<nat>>)
    ensures PrefixAll(a, PrefixAll(b, ws)) == PrefixAll(a + b, ws)
  {
    var l, r := PrefixAll(a, PrefixAll(b, ws)), PrefixAll(a + b, ws);
    forall i | 0 <= i < |ws| ensures l[i] == r[i] {
      assert a + (b + ws[i]) == (a + b) + ws[i];
    }
  }

  lemma PrefixAppend(a: seq<nat>, v: seq<seq<nat>>, w: seq<seq<nat>>)
    ensures PrefixAll(a, v + w) == PrefixAll(a, v) + PrefixAll(a, w)
  {
  }

  class PathCollector {
    var current: seq<nat>
    var paths: seq<seq<nat>>

    constructor ()
      ensures current == [] && paths == []
    {
      current, paths := [], [];
    }

    /** collect_complete_paths: push the node, descend, pop it again. */
    method Collect(nodes: seq<Node>, i: nat)
      requires Downward(nodes) && i < |nodes|
      modifies this
      ensures current == old(current)
      ensures paths == old(paths) + PrefixAll(old(current), Leaves(nodes, i))
      decreases |nodes| - i
    {
      hide Downward;
      ghost var before := current;
      current := current + [i];
      if nodes[i].children == [] {
        if !nodes[i].pruned { paths := paths + [current]; }
      } else {
        var cs := nodes[i].children;
        ghost var had := paths;
        for n := 0 to |cs|
          invariant current == before + [i]
          invariant paths == had + PrefixAll(before + [i], LeavesOf(nodes, i, n))
        {
          ChildBelow(nodes, i, n);
          Collect(nodes, cs[n]);
          PrefixAppend(before + [i], LeavesOf(nodes, i, n), Leaves(nodes, cs[n]));
        }
        PrefixTwice(before, [i], LeavesOf(nodes, i, |cs|));
      }
      current := current[..|current|-1];
    }
  }

  lemma ChildBelow(nodes: seq<Node>, i: nat, n: nat)
    requires Downward(nodes) && i < |nodes| && n < |nodes[i].children|
    ensures i < nodes[i].children[n] < |nodes|
    ensures LeavesOf(nodes, i, n + 1) == LeavesOf(nodes, i, n) + Leaves(nodes, nodes[i].children[n])
  {
    assert nodes[i].children[n] in nodes[i].children;
  }

  // ---- What is collected -----------------------------------------------------------------------------------------

  /** A path downwards, from any node to a leaf that was not pruned. */
  ghost predicate LeadsToLeaf(nodes: seq<Node>, path: seq<nat>) {
    && |path| > 0 && path[0] < |nodes|
    && (if |path| == 1 then Leaf(nodes, path[0])
        else path[1] in nodes[path[0]].children && LeadsToLeaf(nodes, path[1..]))
  }

  lemma {:induction false} LeavesAre(nodes: seq<Node>, i: nat, path: seq<nat>)
    requires Downward(nodes) && i < |nodes|
    ensures path in Leaves(nodes, i) <==> LeadsToLeaf(nodes, path) && path[0] == i
    decreases |nodes| - i, |nodes[i].children| + 1
  {
    if nodes[i].children != [] {
      var ws := LeavesOf(nodes, i, |nodes[i].children|);
      if path in Leaves(nodes, i) {
        var k :| 0 <= k < |ws| && PrefixAll([i], ws)[k] == path;
        assert path == [i] + ws[k] && path[1..] == ws[k];
        LeavesOfAre(nodes, i, |nodes[i].children|, path[1..]);
      }
      if LeadsToLeaf(nodes, path) && path[0] == i {
        LeavesOfAre(nodes, i, |nodes[i].children|, path[1..]);
        var k :| 0 <= k < |ws| && ws[k] == path[1..];
        assert path == [i] + ws[k];
        assert PrefixAll([i], ws)[k] == path;
      }
    } else if LeadsToLeaf(nodes, path) && path[0] == i {
      assert path == [i];
    }
  }

  lemma {:induction false} LeavesOfAre(nodes: seq<Node>, i: nat, n: nat, path: seq<nat>)
    requires Downward(nodes) && i < |nodes| && n <= |nodes[i].children|
    ensures path in LeavesOf(nodes, i, n) <==> LeadsToLeaf(nodes, path) && path[0] in nodes[i].children[..n]
    decreases |nodes| - i, n
  {
    if n > 0 {
      var c := nodes[i].children[n-1];
      assert c in nodes[i].children;
      LeavesOfAre(nodes, i, n - 1, path);
      LeavesAre(nodes, c, path);
      assert nodes[i].children[..n] == nodes[i].children[..n-1] + [c];
    }
  }

  lemma {:induction false} LeadsDown(nodes: seq<Node>, path: seq<nat>)
    requires Downward(nodes)
    ensures LeadsToLeaf(nodes, path) <==>
      && |path| > 0 && (forall i :: 0 <= i < |path| ==> path[i] < |nodes|)
      && (forall i: nat :: i + 1 < |path| ==> LinkAt(nodes, path, i)) && Leaf(nodes, path[|path|-1])
    decreases |path|
  {
    if |path| > 1 {
      var rest := path[1..];
      LeadsDown(nodes, rest);
      if LeadsToLeaf(nodes, path) {
        forall i: nat | i + 1 < |path| ensures LinkAt(nodes, path, i) {
          if i > 0 { assert LinkAt(nodes, rest, i - 1); }
        }
        forall i | 0 <= i < |path| ensures path[i] < |nodes| {
          if i > 0 { assert rest[i-1] == path[i]; }
        }
      }
      if (forall i :: 0 <= i < |path| ==> path[i] < |nodes|) && (forall i: nat :: i + 1 < |path| ==> LinkAt(nodes, path, i)) {
        assert LinkAt(nodes, path, 0);
        forall i: nat | i + 1 < |rest| ensures LinkAt(nodes, rest, i) {
          assert LinkAt(nodes, path, i + 1);
        }
      }
    }
  }

  lemma TreeDownward(ps: seq<PreparedAction>, nodes: seq<Node>)
    requires TreeOk(ps, nodes)
    ensures Downward(nodes)
  {
    forall p, c | 0 <= p < |nodes| && c in nodes[p].children ensures p < c < |nodes| {
      assert EdgeOk(ps, nodes, p, c);
    }
  }

  /** The path is at an end of the automaton, or waits in front of a completion that never gets a beam. */
  ghost predicate AtEnd(ps: seq<PreparedAction>, nodes: seq<Node>, path: seq<nat>) {
    && |path| > 0 && path[|path|-1] < |nodes|
    && var n := nodes[path[|path|-1]];
      n.action < |ps| && (ps[n.action].successors != [] <==> Starved(ps, n))
  }

  lemma EndedAtEnd(ps: seq<PreparedAction>, nodes: seq<Node>, path: seq<nat>)
    requires |path| > 0 && path[|path|-1] < |nodes| && Ended(ps, nodes[path[|path|-1]])
    ensures AtEnd(ps, nodes, path)
    ensures Fed(ps) ==> ps[nodes[path[|path|-1]].action].successors == []
  {
  }

  /** Once the queue is empty, the collected paths are exactly those from the root to a node that was not pruned and has
      no children. What the last action of such a path could go on with is exactly a completion without beams;
      if there is none of these, the path is at an end of the automaton. */
  lemma CollectedAreComplete(ps: seq<PreparedAction>, s: State, path: seq<nat>)
    requires Inv(ps, s) && s.queue == []
    ensures Downward(s.nodes) && |s.nodes| > 0
    ensures path in Leaves(s.nodes, 0) <==> Chain(s.nodes, path) && Leaf(s.nodes, path[|path|-1])
    ensures path in Leaves(s.nodes, 0) ==> Ended(ps, s.nodes[path[|path|-1]]) && AtEnd(ps, s.nodes, path)
    ensures path in Leaves(s.nodes, 0) && Fed(ps) ==> ps[s.nodes[path[|path|-1]].action].successors == []
  {
    hide Ended, Leaf, AtEnd, Fed;
    TreeDownward(ps, s.nodes);
    LeavesAre(s.nodes, 0, path);
    LeadsDown(s.nodes, path);
    hide Downward, Leaves, LeadsToLeaf, LinkAt, TreeOk;
    if path in Leaves(s.nodes, 0) {
      assert LeafOk(ps, s, path[|path|-1]);
      EndedAtEnd(ps, s.nodes, path);
    }
  }

  // ---- Choosing ----------------------------------------------------------------------------------------------------

  function LeafScore(m: Model, n: Node): real {
    if n.length == 0 then 0.0 else m.proba(n.cost, n.length)
  }

  ghost predicate EndsIn(nodes: seq<Node>, path: seq<nat>) {
    |path| > 0 && path[|path|-1] < |nodes|
  }

  function ScoreOf(m: Model, nodes: seq<Node>, path: seq<nat>): real {
    if |path| > 0 && path[|path|-1] < |nodes| then LeafScore(m, nodes[path[|path|-1]]) else -1.0
  }

  /** The score of a path: the probability of all the costs and all the tokens along it, 0 if it has no token. */
  ghost function PathScore(m: Model, nodes: seq<Node>, path: seq<nat>): real
    requires Chain(nodes, path)
  {
    var n := |TokensAlong(nodes, path)|;
    if n == 0 then 0.0 else m.proba(CostAlong(nodes, path), n)
  }

  /** What is compared for the leaves is the score of the whole paths to them. */
  lemma ScoreOfPath(m: Model, ps: seq<PreparedAction>, nodes: seq<Node>, path: seq<nat>)
    requires TreeOk(ps, nodes) && Chain(nodes, path)
    ensures ScoreOf(m, nodes, path) == PathScore(m, nodes, path)
  {
    TotalsAlong(ps, nodes, path);
    hide TokensAlong, CostAlong, TreeOk;
  }

  /** The choice of walk_ftt_to_frame: the first path whose leaf has the highest score. */
  method BestPath(m: Model, nodes: seq<Node>, paths: seq<seq<nat>>) returns (path: seq<nat>)
    requires ModelOk(m) && forall p | p in paths :: EndsIn(nodes, p)
    ensures paths == [] ==> path == []
    ensures paths != [] ==> exists k ::
      && 0 <= k < |paths| && paths[k] == path
      && (forall j :: 0 <= j < |paths| ==> ScoreOf(m, nodes, paths[j]) <= ScoreOf(m, nodes, path))
      && (forall j :: 0 <= j < k ==> ScoreOf(m, nodes, paths[j]) < ScoreOf(m, nodes, path))
  {
    path := [];
    var best := -1.0;
    ghost var k := -1;
    for i := 0 to |paths|
      invariant k < i
      invariant k == -1 ==> i == 0 && best == -1.0 && path == []
      invariant k >= 0 ==> paths[k] == path && best == ScoreOf(m, nodes, path)
      invariant forall j :: 0 <= j < i ==> ScoreOf(m, nodes, paths[j]) <= best
      invariant k >= 0 ==> forall j :: 0 <= j < k ==> ScoreOf(m, nodes, paths[j]) < best
      invariant -1 <= k
    {
      assert EndsIn(nodes, paths[i]);
      var s := LeafScore(m, nodes[paths[i][|paths[i]|-1]]);
      if s > best {
        best, path := s, paths[i];
        k := i;
      }
    }
  }

  // ---- Some run survives ----------------------------------------------------------------------------------------------

  ghost predicate Generous(ps: seq<PreparedAction>) {
    forall i :: 0 <= i < |ps| ==> WidthOf(ps[i].body) > 0
  }

  ghost predicate Alive(nodes: seq<Node>) {
    exists i :: Leaf(nodes, i)
  }

  lemma {:induction false} FirstChildStays(s: State, it: Item, chs: seq<Child>)
    requires it.parent < |s.nodes| && chs != []
    ensures var n := AddAll(s, it, chs).nodes[|s.nodes|]; n.pruned == chs[0].pruned && n.children == []
  {
    if |chs| > 1 {
      FirstChildStays(s, it, chs[..|chs|-1]);
    } else {
      assert chs[..0] == [];
    }
  }

  lemma StepAlive(m: Model, ps: seq<PreparedAction>, s: State)
    requires Playable(m, ps) && QueueOk(ps, s) && s.queue != [] && Generous(ps) && Alive(s.nodes)
    ensures Alive(StepQueue(m, ps, s).nodes)
  {
    hide Children, ModelOk, ActionPlayable, MaxWidth, AddAll;
    var it := s.queue[0];
    var s1 := State(s.nodes, s.queue[1..]);
    ChildrenFit(m, ps, it.action, it.tokens);
    var chs := Children(m, ps, ps[it.action], it.tokens);
    if chs == [] {
      AddNone(s1, it);
    } else {
      FirstChildStays(s1, it, chs);
      assert ChildOk(ps, ps[it.action], 0, chs[0]);
      assert Leaf(StepQueue(m, ps, s).nodes, |s.nodes|);
    }
  }

  lemma FinishAlive(m: Model, ps: seq<PreparedAction>, lv: seq<nat>, s: State)
    requires Playable(m, ps) && Descends(ps, lv) && QueueOk(ps, s) && Generous(ps) && Alive(s.nodes)
    ensures Alive(Finish(m, ps, lv, s).nodes)
    decreases Potential(MaxWidth(ps), lv, s.queue)
  {
    hide Playable, Descends, StepQueue, QueueOk, Potential, MaxWidth, Generous, Alive;
    if s.queue == [] {
      FinishDone(m, ps, lv, s);
    } else {
      StepAlive(m, ps, s);
      StepDecreases(m, ps, lv, s);
      FinishStep(m, ps, lv, s);
      FinishAlive(m, ps, lv, StepQueue(m, ps, s));
    }
  }

  /** If every width is at least one, pruning never kills the last run: some path is always collected. It has come to an
      end of the automaton, unless a completion without beams stopped it. */
  lemma SomeRunSurvives(m: Model, ps: seq<PreparedAction>, lv: seq<nat>) returns (path: seq<nat>)
    requires Playable(m, ps) && Descends(ps, lv) && Generous(ps)
    ensures QueueOk(ps, Initial(ps))
    ensures var nodes := Finish(m, ps, lv, Initial(ps)).nodes;
      Downward(nodes) && |nodes| > 0 && path in Leaves(nodes, 0) && AtEnd(ps, nodes, path)
    ensures Fed(ps) ==> var n := Finish(m, ps, lv, Initial(ps)).nodes[path[|path|-1]]; ps[n.action].successors == []
  {
    hide Inv, Playable, Descends, Generous, Finish, Leaves, Downward, QueueOk, Fed, Ended;
    InitialOk(m, ps);
    InitialInv(m, ps);
    InitialAlive(ps);
    FinishInv(m, ps, lv, Initial(ps));
    FinishAlive(m, ps, lv, Initial(ps));
    var s := Finish(m, ps, lv, Initial(ps));
    var i :| Leaf(s.nodes, i);
    InvTree(ps, s);
    path := ChainExists(ps, s.nodes, i);
    CollectedAreComplete(ps, s, path);
  }

  // ---- A run without beams ------------------------------------------------------------------------------------------------

  /** A text, a completion and a closing text. */
  function Starving(start: PreparedAction, middle: PreparedAction, end: PreparedAction, c: Params): seq<PreparedAction>
    requires start.body.Fixed? && end.body.Fixed?
  {
    [start.(successors := [1]), middle.(successors := [2], body := Free(c)), end.(successors := [])]
  }

  /** If the completion has tokens to find but no beam, evaluation ends at once, and the path it collects consists of
      the opening text alone: it is the path of a finished run, although the automaton goes on from there. */
  lemma StarvedRun(m: Model, start: PreparedAction, middle: PreparedAction, end: PreparedAction, c: Params)
    requires ModelOk(m) && start.body.Fixed? && end.body.Fixed?
    requires c.beams == 0 < c.length && Admits(m, c.mask)
    ensures var ps := Starving(start, middle, end, c);
      Playable(m, ps) && Descends(ps, [2, 1, 0]) && QueueOk(ps, Initial(ps)) && ps[0].successors != []
    ensures var ps := Starving(start, middle, end, c);
      var nodes := Finish(m, ps, [2, 1, 0], Initial(ps)).nodes;
      Downward(nodes) && |nodes| > 0 && Leaves(nodes, 0) == [[0]] && nodes[0].action == 0
  {
    hide ModelOk, Admits, Completed;
    var ps := Starving(start, middle, end, c);
    StarvingPlays(m, start, middle, end, c);
    InitialOk(m, ps);
    var s := Initial(ps);
    CompletedSome(m, c, s.queue[0].tokens);
    StarvedStep(m, ps, s);
    FinishStep(m, ps, [2, 1, 0], s);
    FinishDone(m, ps, [2, 1, 0], StepQueue(m, ps, s));
  }

  lemma StarvingPlays(m: Model, start: PreparedAction, middle: PreparedAction, end: PreparedAction, c: Params)
    requires ModelOk(m) && start.body.Fixed? && end.body.Fixed?
    requires c.beams == 0 < c.length && Admits(m, c.mask)
    ensures Playable(m, Starving(start, middle, end, c)) && Descends(Starving(start, middle, end, c), [2, 1, 0])
  {
    hide ModelOk, Admits;
    var ps, lv := Starving(start, middle, end, c), [2, 1, 0];
    forall i | 0 <= i < |ps| ensures ActionPlayable(m, ps, ps[i]) && StepsDown(ps, lv, i) {
      if i == 0 { } else if i == 1 { } else { }
    }
  }

  lemma StarvedStep(m: Model, ps: seq<PreparedAction>, s: State)
    requires Playable(m, ps) && QueueOk(ps, s) && s.queue != []
    requires var a := ps[s.queue[0].action]; a.body.Free? && Completed(m, a.body.params, s.queue[0].tokens) == []
    ensures StepQueue(m, ps, s) == State(s.nodes, s.queue[1..])
  {
    hide Completed;
    AddNone(State(s.nodes, s.queue[1..]), s.queue[0]);
  }

  lemma InvTree(ps: seq<PreparedAction>, s: State)
    requires Inv(ps, s)
    ensures TreeOk(ps, s.nodes)
  {
  }

  lemma InitialAlive(ps: seq<PreparedAction>)
    requires |ps| > 0
    ensures Alive(Initial(ps).nodes)
  {
    assert Leaf(Initial(ps).nodes, 0);
  }

  /** A path from the root to a leaf that was not pruned. */
  ghost predicate CompleteRun(nodes: seq<Node>, path: seq<nat>) {
    Chain(nodes, path) && Leaf(nodes, path[|path|-1])
  }

  /** The selection of the path that walk_ftt_to_frame turns into the frame: a complete run with the best score,
      and none only if no run is left. */
  method SelectPath(m: Model, ps: seq<PreparedAction>, ghost s: State, nodes: seq<Node>) returns (path: seq<nat>)
    requires ModelOk(m) && Inv(ps, s) && s.queue == [] && nodes == s.nodes
    ensures path != [] ==> CompleteRun(nodes, path) && Ended(ps, nodes[path[|path|-1]]) && AtEnd(ps, nodes, path)
    ensures path != [] ==> forall p | CompleteRun(nodes, p) :: PathScore(m, nodes, p) <= PathScore(m, nodes, path)
    ensures path == [] <==> !Alive(nodes)
  {
    hide Inv, Ended, ModelOk, Leaves, Downward, Alive, EndsIn, ScoreOf, AtEnd, PathScore, Chain;
    CollectedAll(ps, s);
    var c := new PathCollector();
    c.Collect(nodes, 0);
    PrefixNone(Leaves(nodes, 0));
    assert [] + Leaves(nodes, 0) == c.paths;
    path := BestPath(m, nodes, c.paths);
    assert c.paths != [] ==> path in c.paths;
    forall p | CompleteRun(nodes, p) ensures PathScore(m, nodes, p) <= PathScore(m, nodes, path) {
      assert p in c.paths;
      var j :| 0 <= j < |c.paths| && c.paths[j] == p;
      CompleteScore(m, ps, s, p);
      CompleteScore(m, ps, s, path);
    }
  }

  lemma CompleteScore(m: Model, ps: seq<PreparedAction>, s: State, path: seq<nat>)
    requires Inv(ps, s) && CompleteRun(s.nodes, path)
    ensures Chain(s.nodes, path) && ScoreOf(m, s.nodes, path) == PathScore(m, s.nodes, path)
  {
    hide Chain, TreeOk;
    ScoreOfPath(m, ps, s.nodes, path);
  }

  lemma ChainEnds(nodes: seq<Node>, p: seq<nat>)
    requires Chain(nodes, p)
    ensures EndsIn(nodes, p) && p != []
  {
  }

  lemma CollectedAll(ps: seq<PreparedAction>, s: State)
    requires Inv(ps, s) && s.queue == []
    ensures Downward(s.nodes) && |s.nodes| > 0
    ensures forall p | p in Leaves(s.nodes, 0) :: EndsIn(s.nodes, p) && p != [] && Ended(ps, s.nodes[p[|p|-1]]) && AtEnd(ps, s.nodes, p)
    ensures forall p :: p in Leaves(s.nodes, 0) <==> CompleteRun(s.nodes, p)
    ensures Leaves(s.nodes, 0) == [] <==> !Alive(s.nodes)
  {
    hide Inv, Ended, Leaves, Downward, Chain, AtEnd, Fed;
    InvTree(ps, s);
    CollectedAreComplete(ps, s, []);
    forall p ensures p in Leaves(s.nodes, 0) <==> CompleteRun(s.nodes, p) {
      CollectedAreComplete(ps, s, p);
    }
    forall p | p in Leaves(s.nodes, 0)
      ensures EndsIn(s.nodes, p) && p != [] && Ended(ps, s.nodes[p[|p|-1]]) && AtEnd(ps, s.nodes, p)
    {
      CollectedAreComplete(ps, s, p);
      ChainEnds(s.nodes, p);
    }
    if i :| Leaf(s.nodes, i) {
      var path := ChainExists(ps, s.nodes, i);
      assert CompleteRun(s.nodes, path);
    }
    if Leaves(s.nodes, 0) != [] {
      var p := Leaves(s.nodes, 0)[0];
      assert p in Leaves(s.nodes, 0) && CompleteRun(s.nodes, p);
    }
  }
}
