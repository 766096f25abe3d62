/** The evaluator as an object: it can be advanced by a budget of token evaluations at a time. */
module EvaluatorClass {
  import opened Schema
  import opened Sampling
  import opened BeamSearch
  import opened Prepared
  import opened Evaluation
  import opened EvaluationTree

  lemma SumStep(cs: seq<real>, i: nat)
    requires i < |cs|
    ensures Sum(cs[..i+1]) == Sum(cs[..i]) + cs[i]
  {
    assert cs[..i+1][..i] == cs[..i];
  }

  /** eval_sequences: decode the tokens one by one and look up the cost of each. */
  method EvalSequences(m: Model, toks: seq<Token>, ctx: seq<Token>) returns (costs: seq<real>, evals: nat)
    ensures costs == Costs(m, ctx, toks) && evals == |toks|
  {
    costs := [];
    var loaded := ctx;
    for i := 0 to |toks|
      invariant loaded == ctx + toks[..i]
      invariant |costs| == i && forall j :: 0 <= j < i ==> costs[j] == m.cost(ctx + toks[..j], toks[j])
    {
      costs := costs + [m.cost(loaded, toks[i])];
      loaded := loaded + [toks[i]];
    }
    evals := |toks|;
  }

  /** Evaluate every choice after the same context. */
  method RankChoices(m: Model, choices: seq<seq<Token>>, ctx: seq<Token>)
    returns (results: seq<seq<real>>, keys: seq<Key>, spent: nat)
    ensures |results| == |choices| && forall k :: 0 <= k < |choices| ==> results[k] == Costs(m, ctx, choices[k])
    ensures keys == ChoiceKeys(m, choices, ctx) && spent == Lengths(choices)
  {
    hide Costs;
    results, keys, spent := [], [], 0;
    for idx := 0 to |choices|
      invariant |results| == |keys| == idx && spent == Lengths(choices[..idx])
      invariant forall k :: 0 <= k < idx ==> results[k] == Costs(m, ctx, choices[k])
      invariant forall k :: 0 <= k < idx ==> keys[k] == Key(false, Proba(m, Costs(m, ctx, choices[k])))
    {
      var costs, n := EvalSequences(m, choices[idx], ctx);
      LengthsMore(choices, idx);
      results, keys, spent := results + [costs], keys + [Key(false, Proba(m, costs))], spent + n;
    }
    assert choices[..|choices|] == choices;
  }

  lemma LengthsMore(choices: seq<seq<Token>>, i: nat)
    requires i < |choices|
    ensures Lengths(choices[..i+1]) == Lengths(choices[..i]) + |choices[i]|
  {
    assert choices[..i+1][..i] == choices[..i];
  }

  class Evaluator {
    const m: Model
    const ps: seq<PreparedAction>
    ghost const lv: seq<nat>
    var nodes: seq<Node>
    var queue: seq<Item>
    var started: bool

    constructor (m: Model, ps: seq<PreparedAction>, ghost lv: seq<nat>)
      requires Playable(m, ps) && Descends(ps, lv)
      ensures this.m == m && this.ps == ps && this.lv == lv
      ensures Valid() && !started
    {
      this.m, this.ps, this.lv := m, ps, lv;
      nodes, queue, started := [], [], false;
    }

    ghost function Snap(): State
      reads this
    {
      State(nodes, queue)
    }

    ghost predicate Valid()
      reads this
    {
      && Playable(m, ps) && Descends(ps, lv)
      && (if started then QueueOk(ps, Snap()) && Inv(ps, Snap()) else nodes == [] && queue == [])
    }

    /** The state the evaluation is heading for. */
    ghost function Target(): State
      requires Valid()
      reads this
    {
      InitialOk(m, ps);
      Finish(m, ps, lv, if started then Snap() else Initial(ps))
    }

    /** grow: a new node below parent, with the totals counted from the root. */
    method Grow(parent: nat, action: nat, tokens: seq<Token>, costs: seq<real>) returns (child: nat)
      requires parent < |nodes|
      modifies this`nodes
      ensures child == |old(nodes)|
      ensures var p := old(nodes)[parent];
        nodes == old(nodes)[parent := p.(children := p.children + [child])] +
          [Node(action, tokens, costs, p.cost + Sum(costs), p.length + |tokens|, false, [])]
    {
      child := |nodes|;
      var p := nodes[parent];
      var lp := p.cost;
      for i := 0 to |costs|
        invariant nodes == old(nodes) && lp == p.cost + Sum(costs[..i])
      {
        SumStep(costs, i);
        lp := lp + costs[i];
      }
      assert costs[..|costs|] == costs;
      nodes := nodes[parent := p.(children := p.children + [child])] +
        [Node(action, tokens, costs, lp, p.length + |tokens|, false, [])];
    }

    method Enqueue(action: nat, parent: nat, it: Item)
      requires parent < |nodes|
      modifies this`queue
      ensures queue == old(queue) + [Item(action, parent, it.tokens + nodes[parent].tokens)]
    {
      queue := queue + [Item(action, parent, it.tokens + nodes[parent].tokens)];
    }

    /** Grow one child, mark it, and go on from it unless it is pruned. */
    method Attach(it: Item, ch: Child)
      requires it.parent < |nodes|
      modifies this`nodes, this`queue
      ensures Snap() == AddChild(old(Snap()), it, ch)
    {
      hide Sum;
      var child := Grow(it.parent, it.action, ch.tokens, ch.costs);
      if ch.pruned {
        nodes := nodes[child := nodes[child].(pruned := true)];
      } else if ch.next.Some? {
        Enqueue(ch.next.value, child, it);
      }
    }

    /** The item is about a known action and node, and the action leads to known ones. */
    ghost predicate Known(it: Item)
      reads this`nodes
    {
      && ModelOk(m) && it.action < |ps| && it.parent < |nodes|
      && forall k | k in ps[it.action].successors :: k < |ps|
    }

    /** evaluate_text: with several successors there is an error, but only after the child has grown. */
    method EvaluateText(it: Item) returns (ok: bool, spent: nat)
      requires Known(it) && ps[it.action].body.Fixed?
      modifies this`nodes, this`queue
      ensures ok <==> |ps[it.action].successors| <= 1
      ensures ok ==> ActionPlayable(m, ps, ps[it.action])
      ensures ok ==> Snap() == AddAll(old(Snap()), it, Children(m, ps, ps[it.action], it.tokens))
      ensures !ok ==> Snap() == AddChild(old(Snap()), it, FixedChild(m, ps[it.action], it.tokens).(next := None))
      ensures spent == Spent(m, ps[it.action], it.tokens)
    {
      hide ModelOk, AddChild;
      var a := ps[it.action];
      var costs := Zeros(|a.body.tokens|);
      spent := 0;
      if a.body.evaluate {
        costs, spent := EvalSequences(m, a.body.tokens, it.tokens);
      }
      ghost var s := Snap();
      var ch := Child(a.body.tokens, costs, false, if |a.successors| == 1 then Some(a.successors[0]) else None);
      Attach(it, ch);
      ok := |a.successors| <= 1;
      if ok {
        assert ActionPlayable(m, ps, a);
        assert Children(m, ps, a, it.tokens) == [ch];
        AddAllMore(s, it, [ch], 0);
        assert [ch][..1] == [ch] && [ch][..0] == [];
      }
    }

    /** evaluate_completion: there is an error when tokens are asked for and none is admitted. */
    method EvaluateCompletion(it: Item) returns (ok: bool, spent: nat)
      requires Known(it) && ps[it.action].body.Free? && |ps[it.action].successors| == 1
      modifies this`nodes, this`queue
      ensures ok <==> ps[it.action].body.params.length == 0 || Admits(m, ps[it.action].body.params.mask)
      ensures ok ==> ActionPlayable(m, ps, ps[it.action])
      ensures ok ==> Snap() == AddAll(old(Snap()), it, Children(m, ps, ps[it.action], it.tokens))
      ensures ok ==> spent == Spent(m, ps[it.action], it.tokens)
      ensures !ok ==> Snap() == old(Snap())
    {
      hide ModelOk, AddChild, AddAll, Completed, Search, Admits;
      var a := ps[it.action];
      var c := a.body.params;
      var beams;
      ok, beams, spent := RunSearch(m, c, it.tokens);
      if !ok { return; }
      ghost var s, chs := Snap(), Children(m, ps, a, it.tokens);
      AddNone(s, it);
      for count := 0 to |beams|
        invariant it.parent < |nodes|
        invariant Snap() == AddAll(s, it, chs[..count])
      {
        var pruned := count >= c.width || (count > 0 && beams[count].Proba(m) < c.threshold);
        Attach(it, Child(beams[count].tokens, beams[count].costs, pruned, Some(a.successors[0])));
        AddAllMore(s, it, chs, count);
      }
      assert chs[..|beams|] == chs;
    }

    /** evaluate_choice: there is an error when there are no choices, or not one successor for each. */
    method EvaluateChoice(it: Item) returns (ok: bool, spent: nat)
      requires Known(it) && ps[it.action].body.Select?
      modifies this`nodes, this`queue
      ensures ok <==> ps[it.action].body.choices != [] && |ps[it.action].successors| == |ps[it.action].body.choices|
      ensures ok ==> ActionPlayable(m, ps, ps[it.action])
      ensures ok ==> Snap() == AddAll(old(Snap()), it, Children(m, ps, ps[it.action], it.tokens))
      ensures ok ==> spent == Spent(m, ps[it.action], it.tokens)
      ensures !ok ==> Snap() == old(Snap())
    {
      hide ModelOk, AddChild, AddAll, Costs;
      var a := ps[it.action];
      var choices := a.body.choices;
      if choices == [] || |a.successors| != |choices| { return false, 0; }
      ok := true;
      var results, keys;
      results, keys, spent := RankChoices(m, choices, it.tokens);
      var order := ChoiceOrder(m, choices, it.tokens);
      ghost var s, chs := Snap(), Children(m, ps, a, it.tokens);
      AddNone(s, it);
      for count := 0 to |order|
        invariant it.parent < |nodes|
        invariant Snap() == AddAll(s, it, chs[..count])
      {
        var k := order[count];
        var pruned := count >= a.body.width || (count > 0 && keys[k].score < a.body.threshold);
        Attach(it, Child(choices[k], results[k], pruned, Some(a.successors[k])));
        AddAllMore(s, it, chs, count);
      }
      assert chs[..|order|] == chs;
    }

    /** advance: evaluate items until the queue is empty or the budget is used up. Wherever it stops, the
        state it is heading for is the same; and no item meets an error. */
    method Advance(max: Option<nat>) returns (spent: nat)
      requires Valid()
      modifies this
      ensures Valid() && started && Target() == old(Target())
      ensures queue == [] || (max.Some? && spent >= max.value)
      ensures queue == [] ==> Snap() == old(Target())
    {
      hide Playable, Descends, QueueOk, Children, AddAll, Potential, MaxWidth, StepQueue, Finish, Initial, Spent, Inv;
      InitialOk(m, ps);
      InitialInv(m, ps);
      PlayableParts(m, ps);
      ghost var target := Target();
      if !started {
        var s := Initial(ps);
        nodes, queue, started := s.nodes, s.queue, true;
      }
      spent := 0;
      while queue != [] && (max.None? || spent < max.value)
        invariant started && Valid() && Finish(m, ps, lv, Snap()) == target
        decreases Potential(MaxWidth(ps), lv, queue)
      {
        ghost var s := Snap();
        var it := queue[0];
        FrontOk(ps, s);
        FinishStep(m, ps, lv, s);
        StepDecreases(m, ps, lv, s);
        StepQueueOk(m, ps, s);
        StepInv(m, ps, s);
        assert ActionPlayable(m, ps, ps[it.action]);
        var ok, n;
        match ps[it.action].body {
          case Fixed(_, _) => ok, n := EvaluateText(it);
          case Free(_) => ok, n := EvaluateCompletion(it);
          case Select(_, _, _) => ok, n := EvaluateChoice(it);
        }
        assert ok;
        StepIs(m, ps, s);
        spent := spent + n;
        queue := queue[1..];
      }
      FinishDone(m, ps, lv, Snap());
    }
  }
}
