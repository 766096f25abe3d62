/** The evaluator: a first-in first-out queue of open paths grows a tree of nodes. */
module Evaluation {
  import opened Schema
  import opened Sampling
  import opened BeamSearch
  import opened Prepared

  /** A node of the tree; cost and length are counted from the root. Children are indices into the arena. */
  datatype Node = Node(
    action: nat,
    tokens: seq<Token>,
    costs: seq<real>,
    cost: real,
    length: nat,
    pruned: bool,
    children: seq<nat>)

  /** An open path: the action to evaluate next, the node it goes on from, and all tokens up to there. */
  datatype Item = Item(action: nat, parent: nat, tokens: seq<Token>)

  datatype State = State(nodes: seq<Node>, queue: seq<Item>)

  // ---- What the evaluator presupposes -----------------------------------------------------------------------

  ghost predicate ActionPlayable(m: Model, ps: seq<PreparedAction>, a: PreparedAction) {
    && (forall k | k in a.successors :: k < |ps|)
    && match a.body
       case Fixed(_, _) => |a.successors| <= 1
       case Free(c) => |a.successors| == 1 && (c.length == 0 || Admits(m, c.mask))
       case Select(choices, _, _) => choices != [] && |a.successors| == |choices|
  }

  ghost predicate Playable(m: Model, ps: seq<PreparedAction>) {
    ModelOk(m) && |ps| > 0 && forall i :: 0 <= i < |ps| ==> ActionPlayable(m, ps, ps[i])
  }

  /** The successors of every action are on a lower level. */
  ghost predicate Descends(ps: seq<PreparedAction>, lv: seq<nat>) {
    |lv| == |ps| && forall i :: 0 <= i < |ps| ==> StepsDown(ps, lv, i)
  }

  ghost predicate StepsDown(ps: seq<PreparedAction>, lv: seq<nat>, i: nat)
    requires i < |ps| && |lv| == |ps|
  {
    forall k | k in ps[i].successors :: k < |lv| && lv[k] < lv[i]
  }

  // ---- One step as a function ---------------------------------------------------------------------------------

  /** A node to be added, and the action that follows it. */
  datatype Child = Child(tokens: seq<Token>, costs: seq<real>, pruned: bool, next: Option<nat>)

  function PrunedAt(count: nat, width: nat, proba: real, threshold: real): bool {
    count >= width || (count > 0 && proba < threshold)
  }

  function Zeros(n: nat): (r: seq<real>)
    ensures |r| == n
  {
    seq(n, _ => 0.0)
  }

  function FixedChild(m: Model, a: PreparedAction, ctx: seq<Token>): Child
    requires a.body.Fixed?
  {
    var toks := a.body.tokens;
    Child(toks, if a.body.evaluate then Costs(m, ctx, toks) else Zeros(|toks|), false,
          if a.successors == [] then None else Some(a.successors[0]))
  }

  function FreeChild(m: Model, a: PreparedAction, bs: seq<Beam>, i: nat): Child
    requires a.body.Free? && i < |bs| && a.successors != []
  {
    var c := a.body.params;
    Child(bs[i].tokens, bs[i].costs, PrunedAt(i, c.width, bs[i].Proba(m), c.threshold), Some(a.successors[0]))
  }

  function ChoiceKeys(m: Model, choices: seq<seq<Token>>, ctx: seq<Token>): (r: seq<Key>)
    ensures |r| == |choices|
  {
    seq(|choices|, i requires 0 <= i < |choices| => Key(false, Proba(m, Costs(m, ctx, choices[i]))))
  }

  /** The order in which the choices are ranked. */
  function ChoiceOrder(m: Model, choices: seq<seq<Token>>, ctx: seq<Token>): (r: seq<nat>)
    requires ModelOk(m)
    ensures |r| == |choices| && forall i :: 0 <= i < |r| ==> r[i] < |choices|
  {
    var keys := ChoiceKeys(m, choices, ctx);
    assert IsRanking(keys, m.rank(keys));
    m.rank(keys)
  }

  function SelectChild(m: Model, a: PreparedAction, ctx: seq<Token>, i: nat, k: nat): Child
    requires a.body.Select? && k < |a.body.choices| && |a.successors| == |a.body.choices|
  {
    var costs := Costs(m, ctx, a.body.choices[k]);
    Child(a.body.choices[k], costs, PrunedAt(i, a.body.width, Proba(m, costs), a.body.threshold), Some(a.successors[k]))
  }

  /** What evaluating an action after ctx adds to the tree. */
  function Children(m: Model, ps: seq<PreparedAction>, a: PreparedAction, ctx: seq<Token>): seq<Child>
    requires ModelOk(m) && ActionPlayable(m, ps, a)
  {
    match a.body
    case Fixed(_, _) => [FixedChild(m, a, ctx)]
    case Free(c) =>
      var bs := Completed(m, c, ctx);
      seq(|bs|, i requires 0 <= i < |bs| => FreeChild(m, a, bs, i))
    case Select(choices, _, _) =>
      var order := ChoiceOrder(m, choices, ctx);
      seq(|choices|, i requires 0 <= i < |choices| => SelectChild(m, a, ctx, i, order[i]))
  }

  function Lengths(choices: seq<seq<Token>>): nat {
    if choices == [] then 0 else Lengths(choices[..|choices|-1]) + |choices[|choices|-1]|
  }

  /** The number of token evaluations this takes. */
  function Spent(m: Model, a: PreparedAction, ctx: seq<Token>): nat
    requires ModelOk(m)
  {
    match a.body
    case Fixed(toks, evaluate) => if evaluate then |toks| else 0
    case Free(c) => Search(m, c, ctx, [START], c.length).evals
    case Select(choices, _, _) => Lengths(choices)
  }

  /** grow and enqueue. */
  function AddChild(s: State, it: Item, ch: Child): State
    requires it.parent < |s.nodes|
  {
    var id := |s.nodes|;
    var p := s.nodes[it.parent];
    var n := Node(it.action, ch.tokens, ch.costs, p.cost + Sum(ch.costs), p.length + |ch.tokens|, ch.pruned, []);
    State(
      s.nodes[it.parent := p.(children := p.children + [id])] + [n],
      if ch.pruned || ch.next.None? then s.queue else s.queue + [Item(ch.next.value, id, it.tokens + ch.tokens)])
  }

  function AddAll(s: State, it: Item, chs: seq<Child>): (r: State)
    requires it.parent < |s.nodes|
    ensures |r.nodes| == |s.nodes| + |chs|
  {
    if chs == [] then s else AddChild(AddAll(s, it, chs[..|chs|-1]), it, chs[|chs|-1])
  }

  ghost predicate QueueOk(ps: seq<PreparedAction>, s: State) {
    forall i :: 0 <= i < |s.queue| ==> s.queue[i].action < |ps| && s.queue[i].parent < |s.nodes|
  }

  /** Take the first item and evaluate it. */
  ghost function StepQueue(m: Model, ps: seq<PreparedAction>, s: State): State
    requires Playable(m, ps) && QueueOk(ps, s) && s.queue != []
  {
    var it := s.queue[0];
    AddAll(State(s.nodes, s.queue[1..]), it, Children(m, ps, ps[it.action], it.tokens))
  }

  /** initial: the root is action 0, whose text is not evaluated. */
  function Initial(ps: seq<PreparedAction>): State
    requires |ps| > 0
  {
    var a := ps[0];
    var toks := if a.body.Fixed? then a.body.tokens else [];
    State([Node(0, toks, Zeros(|toks|), 0.0, |toks|, false, [])],
          if a.successors == [] then [] else [Item(a.successors[0], 0, toks)])
  }

  // ---- Termination ----------------------------------------------------------------------------------------------

  function WidthOf(b: PreparedBody): nat {
    match b
    case Fixed(_, _) => 1
    case Free(c) => c.width
    case Select(_, width, _) => width
  }

  /** At least 1 and at least every width. */
  function MaxWidth(ps: seq<PreparedAction>): (w: nat)
    ensures w >= 1
  {
    if ps == [] then 1
    else
      var w := MaxWidth(ps[..|ps|-1]);
      if WidthOf(ps[|ps|-1].body) > w then WidthOf(ps[|ps|-1].body) else w
  }

  lemma {:induction false} MaxWidthBounds(ps: seq<PreparedAction>, i: nat)
    requires i < |ps|
    ensures WidthOf(ps[i].body) <= MaxWidth(ps)
  {
    if i < |ps| - 1 {
      MaxWidthBounds(ps[..|ps|-1], i);
    }
  }

  function Pow(b: nat, n: nat): (r: nat)
    ensures b > 0 ==> r > 0
  {
    if n == 0 then 1 else b * Pow(b, n - 1)
  }

  /** The potential of a queue: an item on level l counts (B + 1) to the power of l. */
  function Potential(b: nat, lv: seq<nat>, queue: seq<Item>): nat {
    if queue == [] then 0
    else
      var it := queue[|queue|-1];
      Potential(b, lv, queue[..|queue|-1]) + (if it.action < |lv| then Pow(b + 1, lv[it.action]) else 0)
  }

  lemma {:induction false} PotentialAppend(b: nat, lv: seq<nat>, q: seq<Item>, r: seq<Item>)
    ensures Potential(b, lv, q + r) == Potential(b, lv, q) + Potential(b, lv, r)
  {
    if r == [] {
      assert q + r == q;
    } else {
      assert (q + r)[..|q + r|-1] == q + r[..|r|-1];
      PotentialAppend(b, lv, q, r[..|r|-1]);
    }
  }

  lemma {:induction false} PowMono(b: nat, i: nat, j: nat)
    requires b > 0 && i <= j
    ensures Pow(b, i) <= Pow(b, j)
    decreases j
  {
    if i < j {
      PowMono(b, i, j - 1);
      assert Pow(b, j) == b * Pow(b, j - 1);
      MulAtLeast(b, Pow(b, j - 1));
    }
  }

  lemma MulAtLeast(b: nat, x: nat)
    requires b > 0
    ensures b * x >= x
  {
  }

  lemma MulSuccessor(n: nat, n1: nat, x: nat)
    requires n1 == n + 1
    ensures n1 * x == n * x + x
  {
  }

  /** Items on levels below l count at most Pow(b + 1, l - 1) each. */
  lemma {:induction false} PotentialBounded(b: nat, lv: seq<nat>, q: seq<Item>, l: nat)
    requires l > 0 && forall i :: 0 <= i < |q| ==> q[i].action < |lv| && lv[q[i].action] < l
    ensures Potential(b, lv, q) <= |q| * Pow(b + 1, l - 1)
  {
    hide Pow;
    var x := Pow(b + 1, l - 1);
    if q != [] {
      var front := q[..|q|-1];
      PotentialBounded(b, lv, front, l);
      PowMono(b + 1, lv[q[|q|-1].action], l - 1);
      MulSuccessor(|front|, |q|, x);
    }
  }

  /** The items the children put on the queue. */
  function NewItems(it: Item, id: nat, chs: seq<Child>): seq<Item> {
    if chs == [] then []
    else
      var ch := chs[|chs|-1];
      NewItems(it, id, chs[..|chs|-1]) +
      if ch.pruned || ch.next.None? then [] else [Item(ch.next.value, id + |chs| - 1, it.tokens + ch.tokens)]
  }

  lemma {:induction false} AddAllQueue(s: State, it: Item, chs: seq<Child>)
    requires it.parent < |s.nodes|
    ensures AddAll(s, it, chs).queue == s.queue + NewItems(it, |s.nodes|, chs)
  {
    if chs != [] { AddAllQueue(s, it, chs[..|chs|-1]); }
  }

  /** A choice goes on with the successor of the alternative taken. */
  ghost predicate Picks(a: PreparedAction, toks: seq<Token>, k: nat) {
    k in a.successors && (a.body.Select? ==> exists j :: 0 <= j < |a.successors| && PicksAt(a, toks, k, j))
  }

  ghost predicate PicksAt(a: PreparedAction, toks: seq<Token>, k: nat, j: nat)
    requires j < |a.successors|
  {
    a.body.Select? && j < |a.body.choices| && a.body.choices[j] == toks && a.successors[j] == k
  }

  /** Action k follows the node; the root is not evaluated, so no alternative has been taken there. */
  ghost predicate Leads(ps: seq<PreparedAction>, n: Node, k: nat) {
    && n.action < |ps| && k in ps[n.action].successors
    && (n.action == 0 || Picks(ps[n.action], n.tokens, k))
  }

  /** What is known of the children of an action: where they lead, and that few of them are kept. */
  ghost predicate ChildOk(ps: seq<PreparedAction>, a: PreparedAction, i: nat, ch: Child) {
    && (ch.next.Some? ==> Picks(a, ch.tokens, ch.next.value))
    && (ch.next.None? ==> a.successors == [] && !ch.pruned)
    && (i >= MaxWidth(ps) ==> ch.pruned)
    && (i == 0 && WidthOf(a.body) > 0 ==> !ch.pruned)
  }

  ghost predicate ChildrenOk(ps: seq<PreparedAction>, a: PreparedAction, chs: seq<Child>) {
    forall i :: 0 <= i < |chs| ==> ChildOk(ps, a, i, chs[i])
  }

  lemma ChildrenFit(m: Model, ps: seq<PreparedAction>, i: nat, ctx: seq<Token>)
    requires Playable(m, ps) && i < |ps|
    ensures ActionPlayable(m, ps, ps[i]) && ChildrenOk(ps, ps[i], Children(m, ps, ps[i], ctx))
    ensures ps[i].body.Free? || Children(m, ps, ps[i], ctx) != []
  {
    hide ModelOk, Completed, ChoiceOrder, Costs, Admits, MaxWidth;
    MaxWidthBounds(ps, i);
    var a := ps[i];
    assert ActionPlayable(m, ps, a);
    if a.body.Select? {
      var order := ChoiceOrder(m, a.body.choices, ctx);
      forall j | 0 <= j < |order| ensures ChildOk(ps, a, j, SelectChild(m, a, ctx, j, order[j])) {
        assert a.successors[order[j]] in a.successors;
        assert PicksAt(a, a.body.choices[order[j]], a.successors[order[j]], order[j]);
      }
    }
  }

  lemma ChoiceChild(m: Model, ps: seq<PreparedAction>, a: PreparedAction, ctx: seq<Token>, i: nat)
    requires ModelOk(m) && ActionPlayable(m, ps, a) && a.body.Select? && i < |a.body.choices|
    ensures |Children(m, ps, a, ctx)| == |a.body.choices|
    ensures Children(m, ps, a, ctx)[i] == SelectChild(m, a, ctx, i, ChoiceOrder(m, a.body.choices, ctx)[i])
    ensures Proba(m, Children(m, ps, a, ctx)[i].costs) ==
      ChoiceKeys(m, a.body.choices, ctx)[ChoiceOrder(m, a.body.choices, ctx)[i]].score
  {
    hide ModelOk, ChoiceOrder, Costs, Proba, PrunedAt;
  }

  lemma ChoicesRanked(m: Model, choices: seq<seq<Token>>, ctx: seq<Token>)
    requires ModelOk(m)
    ensures IsRanking(ChoiceKeys(m, choices, ctx), ChoiceOrder(m, choices, ctx))
  {
    assert IsRanking(ChoiceKeys(m, choices, ctx), m.rank(ChoiceKeys(m, choices, ctx)));
    hide IsRanking;
  }

  /** Of two children of a choice, the earlier is at least as probable, and is kept if the later is. */
  lemma ChoicesInOrder(m: Model, ps: seq<PreparedAction>, a: PreparedAction, ctx: seq<Token>, i: nat, j: nat)
    requires ModelOk(m) && ActionPlayable(m, ps, a) && a.body.Select? && i < j < |a.body.choices|
    ensures |Children(m, ps, a, ctx)| == |a.body.choices|
    ensures var chs := Children(m, ps, a, ctx);
      Proba(m, chs[i].costs) >= Proba(m, chs[j].costs) && (!chs[j].pruned ==> !chs[i].pruned)
  {
    hide ModelOk, ChoiceOrder, Costs, Proba, Children, ActionPlayable;
    ChoicesRanked(m, a.body.choices, ctx);
    ChoiceChild(m, ps, a, ctx, i);
    ChoiceChild(m, ps, a, ctx, j);
    var keys, order := ChoiceKeys(m, a.body.choices, ctx), ChoiceOrder(m, a.body.choices, ctx);
    assert Ahead(keys[order[i]], keys[order[j]]);
  }

  /** Some child stands for the k-th choice. */
  ghost predicate Covered(a: PreparedAction, chs: seq<Child>, k: nat)
    requires a.body.Select? && k < |a.body.choices| && |a.successors| == |a.body.choices|
  {
    exists i :: 0 <= i < |chs| && chs[i].tokens == a.body.choices[k] && chs[i].next == Some(a.successors[k])
  }

  lemma ChoiceCovered(m: Model, ps: seq<PreparedAction>, a: PreparedAction, ctx: seq<Token>, k: nat)
    requires ModelOk(m) && ActionPlayable(m, ps, a) && a.body.Select? && k < |a.body.choices|
    ensures Covered(a, Children(m, ps, a, ctx), k)
  {
    hide ModelOk, ChoiceOrder, ChoiceKeys, Costs, Proba, Children, IsRanking;
    ChoicesRanked(m, a.body.choices, ctx);
    var order := ChoiceOrder(m, a.body.choices, ctx);
    RankingCovers(ChoiceKeys(m, a.body.choices, ctx), order, k);
    var i: nat :| i < |order| && order[i] == k;
    ChoiceChild(m, ps, a, ctx, i);
  }

  /** No child pruned is more probable than one that is kept. */
  ghost predicate KeptAhead(m: Model, chs: seq<Child>, i: nat, j: nat)
    requires i < |chs| && j < |chs|
  {
    !chs[i].pruned && chs[j].pruned ==> i < j && Proba(m, chs[i].costs) >= Proba(m, chs[j].costs)
  }

  /** Child i of a choice is as probable as its text is likely after ctx, and it is pruned exactly from the width on or if
      it is not the first and falls below the threshold. */
  ghost predicate ChoiceJudged(m: Model, a: PreparedAction, ctx: seq<Token>, chs: seq<Child>, i: nat)
    requires a.body.Select? && i < |chs|
  {
    && Charged(m, ctx, chs[i].tokens, chs[i].costs)
    && Proba(m, chs[i].costs) == Likely(m, ctx, chs[i].tokens)
    && (chs[i].pruned <==> i >= a.body.width || (i > 0 && Likely(m, ctx, chs[i].tokens) < a.body.threshold))
  }

  lemma ChoiceIsJudged(m: Model, ps: seq<PreparedAction>, a: PreparedAction, ctx: seq<Token>, i: nat)
    requires ModelOk(m) && ActionPlayable(m, ps, a) && a.body.Select? && i < |a.body.choices|
    requires |Children(m, ps, a, ctx)| == |a.body.choices|
    ensures ChoiceJudged(m, a, ctx, Children(m, ps, a, ctx), i)
  {
    hide ModelOk, ChoiceOrder, Costs, Proba, Children, Likely;
    ChoiceChild(m, ps, a, ctx, i);
    var text := a.body.choices[ChoiceOrder(m, a.body.choices, ctx)[i]];
    CostsCharge(m, ctx, text, [], 0);
    ChargedLikely(m, ctx, text, Costs(m, ctx, text));
  }

  /** Every choice becomes one child, and the children kept are a prefix of the ranking by probability:
      at most width of them, none less probable than one that is pruned, and at least one when the width
      allows any. */
  lemma ChoicesKeepBest(m: Model, ps: seq<PreparedAction>, a: PreparedAction, ctx: seq<Token>)
    requires ModelOk(m) && ActionPlayable(m, ps, a) && a.body.Select?
    ensures var chs := Children(m, ps, a, ctx);
      && |chs| == |a.body.choices|
      && (forall k :: 0 <= k < |a.body.choices| ==> Covered(a, chs, k))
      && (forall i :: 0 <= i < |chs| ==> ChoiceJudged(m, a, ctx, chs, i))
      && (forall i, j :: 0 <= i < |chs| && 0 <= j < |chs| ==> KeptAhead(m, chs, i, j))
      && (forall i :: a.body.width <= i < |chs| ==> chs[i].pruned)
      && (a.body.width > 0 ==> !chs[0].pruned)
  {
    hide ModelOk, ChoiceOrder, ChoiceKeys, Costs, Proba, Children, Covered, KeptAhead, ChoiceJudged;
    var chs := Children(m, ps, a, ctx);
    ChoiceChild(m, ps, a, ctx, 0);
    forall i | a.body.width <= i < |chs| ensures chs[i].pruned { ChoiceChild(m, ps, a, ctx, i); }
    forall i | 0 <= i < |chs| ensures ChoiceJudged(m, a, ctx, chs, i) { ChoiceIsJudged(m, ps, a, ctx, i); }
    forall k | 0 <= k < |a.body.choices| ensures Covered(a, chs, k) { ChoiceCovered(m, ps, a, ctx, k); }
    forall i, j | 0 <= i < |chs| && 0 <= j < |chs| ensures KeptAhead(m, chs, i, j) {
      ChoicesApart(m, ps, a, ctx, i, j);
    }
  }

  lemma ChoicesApart(m: Model, ps: seq<PreparedAction>, a: PreparedAction, ctx: seq<Token>, i: nat, j: nat)
    requires ModelOk(m) && ActionPlayable(m, ps, a) && a.body.Select? && i < |a.body.choices| && j < |a.body.choices|
    requires |Children(m, ps, a, ctx)| == |a.body.choices|
    ensures KeptAhead(m, Children(m, ps, a, ctx), i, j)
  {
    hide ModelOk, ActionPlayable, Children, Proba;
    if i < j { ChoicesInOrder(m, ps, a, ctx, i, j); }
    if j < i { ChoicesInOrder(m, ps, a, ctx, j, i); }
  }

  lemma {:induction false} NewItemsFew(ps: seq<PreparedAction>, a: PreparedAction, it: Item, id: nat, chs: seq<Child>)
    requires ChildrenOk(ps, a, chs)
    ensures |NewItems(it, id, chs)| <= |chs| && |NewItems(it, id, chs)| <= MaxWidth(ps)
    ensures forall k :: 0 <= k < |NewItems(it, id, chs)| ==> NewItems(it, id, chs)[k].action in a.successors
  {
    hide MaxWidth;
    if chs != [] {
      NewItemsFew(ps, a, it, id, chs[..|chs|-1]);
      assert ChildOk(ps, a, |chs| - 1, chs[|chs|-1]);
    }
  }

  lemma PotentialFront(b: nat, lv: seq<nat>, q: seq<Item>)
    requires q != [] && q[0].action < |lv|
    ensures Potential(b, lv, q) == Pow(b + 1, lv[q[0].action]) + Potential(b, lv, q[1..])
  {
    assert q == [q[0]] + q[1..];
    PotentialAppend(b, lv, [q[0]], q[1..]);
    assert [q[0]][..0] == [];
  }

  lemma MulPositive(a: nat, x: nat)
    requires a > 0 && x > 0
    ensures a * x > 0
  {
  }

  lemma MulBound(n: nat, b: nat, x: nat)
    requires n <= b && x > 0
    ensures n * x < (b + 1) * x
  {
    MulPositive(b + 1 - n, x);
    assert (b + 1 - n) * x + n * x == (b + 1) * x;
  }

  /** Every step lowers the potential: the item it takes weighs more than the few items on lower levels
      it is replaced by. */
  lemma StepDecreases(m: Model, ps: seq<PreparedAction>, lv: seq<nat>, s: State)
    requires Playable(m, ps) && Descends(ps, lv) && QueueOk(ps, s) && s.queue != []
    ensures Potential(MaxWidth(ps), lv, StepQueue(m, ps, s).queue) < Potential(MaxWidth(ps), lv, s.queue)
  {
    hide Children, MaxWidth, ModelOk, ActionPlayable, ChildrenOk, Pow, Potential, AddAll;
    var it := s.queue[0];
    var b, a, l := MaxWidth(ps), ps[it.action], lv[it.action];
    ChildrenFit(m, ps, it.action, it.tokens);
    var chs := Children(m, ps, a, it.tokens);
    var added := NewItems(it, |s.nodes|, chs);
    AddAllQueue(State(s.nodes, s.queue[1..]), it, chs);
    NewItemsFew(ps, a, it, |s.nodes|, chs);
    PotentialAppend(b, lv, s.queue[1..], added);
    PotentialFront(b, lv, s.queue);
    assert StepsDown(ps, lv, it.action);
    if l > 0 {
      PotentialBounded(b, lv, added, l);
      MulBound(|added|, b, Pow(b + 1, l - 1));
      PowUnfold(b + 1, l);
    } else {
      NoNewItems(b, lv, added, it.action, ps);
    }
  }

  lemma PowUnfold(b: nat, n: nat)
    requires n > 0
    ensures Pow(b, n) == b * Pow(b, n - 1)
  {
  }

  lemma NoNewItems(b: nat, lv: seq<nat>, q: seq<Item>, i: nat, ps: seq<PreparedAction>)
    requires |lv| == |ps| && i < |ps| && StepsDown(ps, lv, i) && lv[i] == 0
    requires forall k :: 0 <= k < |q| ==> q[k].action in ps[i].successors
    ensures Potential(b, lv, q) == 0
  {
    assert forall k :: k !in ps[i].successors;
  }

  lemma StepQueueOk(m: Model, ps: seq<PreparedAction>, s: State)
    requires Playable(m, ps) && QueueOk(ps, s) && s.queue != []
    ensures QueueOk(ps, StepQueue(m, ps, s))
  {
    hide Children, MaxWidth, ModelOk;
    var it := s.queue[0];
    ChildrenFit(m, ps, it.action, it.tokens);
    var chs := Children(m, ps, ps[it.action], it.tokens);
    AddAllQueue(State(s.nodes, s.queue[1..]), it, chs);
    NewItemsFew(ps, ps[it.action], it, |s.nodes|, chs);
    NewParents(it, |s.nodes|, chs);
    hide AddAll, NewItems, ChildrenOk;
  }

  lemma {:induction false} NewParents(it: Item, id: nat, chs: seq<Child>)
    ensures forall k :: 0 <= k < |NewItems(it, id, chs)| ==> id <= NewItems(it, id, chs)[k].parent < id + |chs|
  {
    if chs != [] { NewParents(it, id, chs[..|chs|-1]); }
  }

  /** The state in which the queue has run empty. */
  ghost function Finish(m: Model, ps: seq<PreparedAction>, lv: seq<nat>, s: State): (r: State)
    requires Playable(m, ps) && Descends(ps, lv) && QueueOk(ps, s)
    ensures r.queue == []
    decreases Potential(MaxWidth(ps), lv, s.queue)
  {
    if s.queue == [] then s
    else
      StepDecreases(m, ps, lv, s);
      StepQueueOk(m, ps, s);
      Finish(m, ps, lv, StepQueue(m, ps, s))
  }

  // ---- Composing steps --------------------------------------------------------------------------------------------

  lemma AddAllMore(s: State, it: Item, chs: seq<Child>, i: nat)
    requires it.parent < |s.nodes| && i < |chs|
    ensures AddAll(s, it, chs[..i+1]) == AddChild(AddAll(s, it, chs[..i]), it, chs[i])
  {
    assert chs[..i+1][..i] == chs[..i];
  }

  lemma {:induction false} AddAllNodes(nodes: seq<Node>, q: seq<Item>, r: seq<Item>, it: Item, chs: seq<Child>)
    requires it.parent < |nodes|
    ensures AddAll(State(nodes, q), it, chs).nodes == AddAll(State(nodes, r), it, chs).nodes
  {
    if chs != [] { AddAllNodes(nodes, q, r, it, chs[..|chs|-1]); }
  }

  /** Popping the item before or after evaluating it makes no difference. */
  lemma PopLater(s: State, it: Item, chs: seq<Child>)
    requires it.parent < |s.nodes| && s.queue != []
    ensures var t := AddAll(s, it, chs);
      t.queue != [] && State(t.nodes, t.queue[1..]) == AddAll(State(s.nodes, s.queue[1..]), it, chs)
  {
    AddAllQueue(s, it, chs);
    AddAllQueue(State(s.nodes, s.queue[1..]), it, chs);
    AddAllNodes(s.nodes, s.queue, s.queue[1..], it, chs);
  }

  lemma AddNone(s: State, it: Item)
    requires it.parent < |s.nodes|
    ensures AddAll(s, it, []) == s
  {
  }

  lemma InitialOk(m: Model, ps: seq<PreparedAction>)
    requires Playable(m, ps)
    ensures |ps| > 0 && QueueOk(ps, Initial(ps))
  {
    assert ActionPlayable(m, ps, ps[0]);
    if ps[0].successors != [] { assert ps[0].successors[0] in ps[0].successors; }
  }

  lemma PlayableParts(m: Model, ps: seq<PreparedAction>)
    requires Playable(m, ps)
    ensures ModelOk(m) && forall i :: 0 <= i < |ps| ==> ActionPlayable(m, ps, ps[i])
  {
  }

  lemma FrontOk(ps: seq<PreparedAction>, s: State)
    requires QueueOk(ps, s) && s.queue != []
    ensures s.queue[0].action < |ps| && s.queue[0].parent < |s.nodes|
  {
  }

  lemma FinishStep(m: Model, ps: seq<PreparedAction>, lv: seq<nat>, s: State)
    requires Playable(m, ps) && Descends(ps, lv) && QueueOk(ps, s) && s.queue != []
    ensures QueueOk(ps, StepQueue(m, ps, s))
    ensures Finish(m, ps, lv, s) == Finish(m, ps, lv, StepQueue(m, ps, s))
  {
    StepQueueOk(m, ps, s);
    hide StepQueue, Playable, Descends, QueueOk;
  }

  lemma FinishDone(m: Model, ps: seq<PreparedAction>, lv: seq<nat>, s: State)
    requires Playable(m, ps) && Descends(ps, lv) && QueueOk(ps, s)
    ensures s.queue == [] ==> Finish(m, ps, lv, s) == s
  {
  }

  lemma StepIs(m: Model, ps: seq<PreparedAction>, s: State)
    requires Playable(m, ps) && QueueOk(ps, s) && s.queue != []
    ensures var it := s.queue[0];
      ActionPlayable(m, ps, ps[it.action]) &&
      var t := AddAll(s, it, Children(m, ps, ps[it.action], it.tokens));
      t.queue != [] && StepQueue(m, ps, s) == State(t.nodes, t.queue[1..])
  {
    var it := s.queue[0];
    assert ActionPlayable(m, ps, ps[it.action]);
    hide Children, AddAll;
    PopLater(s, it, Children(m, ps, ps[it.action], it.tokens));
  }
}
