/** Free completion by beam search: expanding, stopping and pruning beams. */
module BeamSearch {
  import opened Schema
  import opened Sampling

  /** The parameters of a completion, with its stop sequence tokenized and its mask built. */
  datatype Params = Params(
    length: nat,
    beams: nat,
    width: nat,
    threshold: real,
    stop: seq<Token>,
    mask: seq<bool>,
    repetition: Option<real>,
    diversity: Option<real>)

  datatype Beam = Beam(
    tokens: seq<Token>,
    costs: seq<real>,
    cost: real,
    penalty: real,
    diversity: real,
    stopped: bool)
  {
    function Proba(m: Model): real {
      if costs == [] then 0.0 else m.proba(cost, |costs|)
    }

    function Score(m: Model): real {
      var p := this.Proba(m) + diversity;
      if penalty == 0.0 then m.overZero(p) else p / penalty
    }
  }

  const START := Beam([], [], 0.0, 1.0, 0.0, false)

  predicate EndsWith(toks: seq<Token>, stop: seq<Token>) {
    |stop| <= |toks| && toks[|toks|-|stop|..] == stop
  }

  // ---- One round as a function --------------------------------------------------------------------------

  /** The beam with one more token; a stop sequence it now ends with is cut off. */
  function Extend(m: Model, c: Params, base: seq<Token>, b: Beam, tok: Token): Beam {
    var toks := b.tokens + [tok];
    var k := m.cost(base + b.tokens, tok);
    Beam(
      if EndsWith(toks, c.stop) then toks[..|toks|-|c.stop|] else toks,
      b.costs + [k], b.cost + k,
      if c.repetition.Some? then m.repetition(base + toks, b.penalty, c.repetition.value) else b.penalty,
      b.diversity,
      EndsWith(toks, c.stop))
  }

  function ExtendAll(m: Model, c: Params, base: seq<Token>, b: Beam, toks: seq<Token>): seq<Beam> {
    seq(|toks|, i requires 0 <= i < |toks| => Extend(m, c, base, b, toks[i]))
  }

  function Expand(m: Model, c: Params, base: seq<Token>, b: Beam): seq<Beam>
    requires ModelOk(m)
  {
    ExtendAll(m, c, base, b, TopK(m, c.mask, c.beams, base + b.tokens))
  }

  /** Stopped beams stay, the others are expanded. */
  function NextBeams(m: Model, c: Params, base: seq<Token>, bs: seq<Beam>): seq<Beam>
    requires ModelOk(m)
  {
    if bs == [] then []
    else
      var b := bs[|bs|-1];
      NextBeams(m, c, base, bs[..|bs|-1]) + (if b.stopped then [b] else Expand(m, c, base, b))
  }

  function Active(bs: seq<Beam>): nat {
    if bs == [] then 0 else Active(bs[..|bs|-1]) + (if bs[|bs|-1].stopped then 0 else 1)
  }

  function Texts(bs: seq<Beam>): (r: seq<seq<Token>>)
    ensures |r| == |bs| && forall i :: 0 <= i < |bs| ==> r[i] == bs[i].tokens
  {
    seq(|bs|, i requires 0 <= i < |bs| => bs[i].tokens)
  }

  function Diversified(m: Model, c: Params, bs: seq<Beam>): (r: seq<Beam>)
    ensures |r| == |bs|
    ensures forall i :: 0 <= i < |bs| ==> SameText(r[i], bs[i])
    ensures forall i :: 0 <= i < |bs| ==>
      r[i].diversity == if c.diversity.None? then bs[i].diversity else m.diversity(Texts(bs), i, c.diversity.value)
  {
    if c.diversity.Some? then
      seq(|bs|, i requires 0 <= i < |bs| => bs[i].(diversity := m.diversity(Texts(bs), i, c.diversity.value)))
    else bs
  }

  predicate SameText(a: Beam, b: Beam) {
    a.tokens == b.tokens && a.costs == b.costs && a.cost == b.cost && a.stopped == b.stopped && a.penalty == b.penalty
  }

  predicate AllStopped(bs: seq<Beam>) {
    forall i :: 0 <= i < |bs| ==> bs[i].stopped
  }

  function PruneKeys(m: Model, bs: seq<Beam>): (r: seq<Key>)
    ensures |r| == |bs|
  {
    seq(|bs|, i requires 0 <= i < |bs| => Key(bs[i].stopped, bs[i].Score(m)))
  }

  function ScoreKeys(m: Model, bs: seq<Beam>): (r: seq<Key>)
    ensures |r| == |bs|
  {
    seq(|bs|, i requires 0 <= i < |bs| => Key(false, bs[i].Score(m)))
  }

  function Sorted(m: Model, bs: seq<Beam>, keys: seq<Key>): seq<Beam>
    requires ModelOk(m) && |keys| == |bs|
  {
    assert IsRanking(keys, m.rank(keys));
    Pick(bs, m.rank(keys))
  }

  /** All stopped beams and the first k of the others. */
  function KeepFirst(bs: seq<Beam>, k: nat): seq<Beam> {
    if bs == [] then []
    else if bs[0].stopped then [bs[0]] + KeepFirst(bs[1..], k)
    else if k > 0 then [bs[0]] + KeepFirst(bs[1..], k - 1)
    else KeepFirst(bs[1..], 0)
  }

  function Pruned(m: Model, bs: seq<Beam>, width: nat): seq<Beam>
    requires ModelOk(m)
  {
    KeepFirst(Sorted(m, bs, PruneKeys(m, bs)), width)
  }

  datatype Round = Round(done: bool, beams: seq<Beam>, evals: nat)

  function Step(m: Model, c: Params, base: seq<Token>, bs: seq<Beam>): Round
    requires ModelOk(m)
  {
    var next := Diversified(m, c, NextBeams(m, c, base, bs));
    if AllStopped(next) then Round(true, next, Active(bs)) else Round(false, Pruned(m, next, c.beams), Active(bs))
  }

  /** At most n rounds. */
  function Search(m: Model, c: Params, base: seq<Token>, bs: seq<Beam>, n: nat): Round
    requires ModelOk(m)
    decreases n
  {
    if n == 0 then Round(false, bs, 0)
    else
      var r := Step(m, c, base, bs);
      if r.done then r
      else
        var s := Search(m, c, base, r.beams, n - 1);
        Round(s.done, s.beams, r.evals + s.evals)
  }

  /** The beams of a completion, the best first. */
  function Completed(m: Model, c: Params, base: seq<Token>): seq<Beam>
    requires ModelOk(m)
  {
    var bs := Search(m, c, base, [START], c.length).beams;
    Sorted(m, bs, ScoreKeys(m, bs))
  }

  ghost predicate Admits(m: Model, mask: seq<bool>) {
    exists t :: 0 <= t < |mask| && mask[t] && m.sampled(t)
  }

  // ---- Some beam is always left -----------------------------------------------------------------------------

  lemma {:induction false} NoBeams(m: Model, c: Params, base: seq<Token>, bs: seq<Beam>)
    requires ModelOk(m) && c.beams == 0
    ensures AllStopped(NextBeams(m, c, base, bs))
  {
    hide ModelOk;
    if bs != [] {
      var b := bs[|bs|-1];
      NoBeams(m, c, base, bs[..|bs|-1]);
      if !b.stopped {
        NoTokens(m, c, base + b.tokens);
        assert Expand(m, c, base, b) == [];
      }
    }
  }

  lemma NoTokens(m: Model, c: Params, ctx: seq<Token>)
    requires ModelOk(m) && c.beams == 0
    ensures TopK(m, c.mask, c.beams, ctx) == []
  {
  }

  /** A round that does not stop every beam leaves at least one. */
  lemma ActiveSurvives(m: Model, c: Params, base: seq<Token>, bs: seq<Beam>)
    requires ModelOk(m)
    ensures var next := Diversified(m, c, NextBeams(m, c, base, bs)); !AllStopped(next) ==> Pruned(m, next, c.beams) != []
  {
    hide ModelOk, NextBeams;
    var next := Diversified(m, c, NextBeams(m, c, base, bs));
    if c.beams == 0 {
      NoBeams(m, c, base, bs);
    }
    hide Diversified;
    if !AllStopped(next) { SortedSize(m, next, PruneKeys(m, next)); }
  }

  lemma SortedSize(m: Model, bs: seq<Beam>, keys: seq<Key>)
    requires ModelOk(m) && |keys| == |bs|
    ensures |Sorted(m, bs, keys)| == |bs|
  {
    assert IsRanking(keys, m.rank(keys));
  }

  // ---- The methods --------------------------------------------------------------------------------------

  method ExpandBeam(m: Model, c: Params, base: seq<Token>, beam: Beam, beams: seq<Beam>)
    returns (ok: bool, r: seq<Beam>, evals: nat)
    requires ModelOk(m)
    ensures ok <==> Admits(m, c.mask)
    ensures ok ==> r == beams + Expand(m, c, base, beam) && evals == 1
  {
    hide ModelOk, TopK, Extend, Admits;
    var tokens, costs;
    ok, tokens, costs := EvalTopkTokens(m, c.mask, c.beams, base + beam.tokens);
    AdmitsSome(m, c.mask);
    r, evals := beams, 1;
    if !ok { return; }
    for i := 0 to |tokens|
      invariant r == beams + ExtendAll(m, c, base, beam, tokens[..i])
    {
      var b := ExtendBeam(m, c, base, beam, tokens[i], costs[i]);
      ExtendAllMore(m, c, base, beam, tokens, i);
      r := r + [b];
    }
    assert tokens[..|tokens|] == tokens;
  }

  lemma AdmitsSome(m: Model, mask: seq<bool>)
    ensures Admits(m, mask) <==> exists t :: 0 <= t < |mask| && mask[t] && m.sampled(t)
  {
  }

  lemma ExtendAllMore(m: Model, c: Params, base: seq<Token>, b: Beam, toks: seq<Token>, i: nat)
    requires i < |toks|
    ensures ExtendAll(m, c, base, b, toks[..i+1]) == ExtendAll(m, c, base, b, toks[..i]) + [Extend(m, c, base, b, toks[i])]
  {
    hide Extend;
  }

  /** One new beam: the copy of the old one gets the token, the penalty is updated on the whole text, and a
      stop sequence at the end is erased. */
  method ExtendBeam(m: Model, c: Params, base: seq<Token>, beam: Beam, tok: Token, cost: real) returns (b: Beam)
    requires cost == m.cost(base + beam.tokens, tok)
    ensures b == Extend(m, c, base, beam, tok)
  {
    b := beam.(tokens := beam.tokens + [tok], costs := beam.costs + [cost], cost := beam.cost + cost);
    if c.repetition.Some? { b := b.(penalty := m.repetition(base + b.tokens, b.penalty, c.repetition.value)); }
    b := b.(stopped := |c.stop| <= |b.tokens| && b.tokens[|b.tokens|-|c.stop|..] == c.stop);
    if b.stopped { b := b.(tokens := b.tokens[..|b.tokens|-|c.stop|]); }
  }

  /** prune_beams. */
  method PruneBeams(m: Model, beams: seq<Beam>, beamWidth: nat) returns (pruned: seq<Beam>)
    requires ModelOk(m)
    ensures pruned == Pruned(m, beams, beamWidth)
  {
    hide ModelOk, Sorted, PruneKeys, KeepFirst;
    var sorted := Sorted(m, beams, PruneKeys(m, beams));
    pruned := [];
    KeepUnfold(sorted, |sorted|, 0);
    var keptActive := 0;
    for i := 0 to |sorted|
      invariant keptActive <= beamWidth
      invariant KeepFirst(sorted, beamWidth) == pruned + KeepFirst(sorted[i..], beamWidth - keptActive)
    {
      KeepUnfold(sorted, i, beamWidth - keptActive);
      if sorted[i].stopped {
        pruned := pruned + [sorted[i]];
      } else if keptActive < beamWidth {
        pruned := pruned + [sorted[i]];
        keptActive := keptActive + 1;
      }
    }
  }

  lemma KeepUnfold(bs: seq<Beam>, i: nat, k: nat)
    requires i <= |bs|
    ensures KeepFirst(bs[i..], k) ==
      if i == |bs| then []
      else if bs[i].stopped then [bs[i]] + KeepFirst(bs[i+1..], k)
      else if k > 0 then [bs[i]] + KeepFirst(bs[i+1..], k - 1)
      else KeepFirst(bs[i+1..], 0)
    ensures forall n: nat :: KeepFirst(bs[|bs|..], n) == []
  {
    if i < |bs| { assert bs[i..][1..] == bs[i+1..]; }
  }

  lemma NextNone(m: Model, c: Params, base: seq<Token>)
    requires ModelOk(m)
    ensures NextBeams(m, c, base, []) == [] && Active([]) == 0
  {
  }

  lemma NextUnfold(m: Model, c: Params, base: seq<Token>, bs: seq<Beam>, i: nat)
    requires ModelOk(m) && i < |bs|
    ensures NextBeams(m, c, base, bs[..i+1]) ==
      NextBeams(m, c, base, bs[..i]) + (if bs[i].stopped then [bs[i]] else Expand(m, c, base, bs[i]))
    ensures Active(bs[..i+1]) == Active(bs[..i]) + (if bs[i].stopped then 0 else 1)
  {
    hide ModelOk, Expand;
    assert bs[..i+1][..i] == bs[..i];
  }

  /** beam_search_step. The check that some beam is left never fails. */
  method BeamSearchStep(m: Model, c: Params, base: seq<Token>, current: seq<Beam>)
    returns (ok: bool, r: Round)
    requires ModelOk(m)
    ensures ok <==> Admits(m, c.mask) || AllStopped(current)
    ensures ok ==> r == Step(m, c, base, current)
  {
    hide ModelOk, NextBeams, Active, Expand, Diversified, Pruned, Admits;
    var next, evals: nat := [], 0;
    NextNone(m, c, base);
    for i := 0 to |current|
      invariant next == NextBeams(m, c, base, current[..i]) && evals == Active(current[..i])
      invariant Admits(m, c.mask) || AllStopped(current[..i])
    {
      NextUnfold(m, c, base, current, i);
      if current[i].stopped {
        next := next + [current[i]];
      } else {
        var fine, n;
        fine, next, n := ExpandBeam(m, c, base, current[i], next);
        if !fine { return false, Round(false, [], 0); }
        evals := evals + n;
      }
    }
    assert current[..|current|] == current;
    next := Diversified(m, c, next);
    if AllStopped(next) { return true, Round(true, next, evals); }
    ActiveSurvives(m, c, base, current);
    next := PruneBeams(m, next, c.beams);
    assert next != [];
    return true, Round(false, next, evals);
  }

  /** The search of evaluate_completion. */
  method RunSearch(m: Model, c: Params, base: seq<Token>) returns (ok: bool, beams: seq<Beam>, evals: nat)
    requires ModelOk(m)
    ensures c.length == 0 || Admits(m, c.mask) <==> ok
    ensures ok ==> beams == Completed(m, c, base) && evals == Search(m, c, base, [START], c.length).evals
  {
    hide Step, NextBeams, Pruned, Sorted, ModelOk, Admits, Diversified;
    beams, evals := [START], 0;
    ghost var whole := Search(m, c, base, [START], c.length);
    var pos := 0;
    while pos < c.length
      invariant 0 <= pos <= c.length
      invariant whole == Plus(Search(m, c, base, beams, c.length - pos), evals)
      invariant pos > 0 ==> Admits(m, c.mask)
      invariant pos == 0 ==> beams == [START]
    {
      assert pos == 0 ==> !beams[0].stopped && !AllStopped(beams);
      SearchUnfold(m, c, base, beams, c.length - pos);
      var r;
      ok, r := BeamSearchStep(m, c, base, beams);
      if !ok { return; }
      beams, evals, pos := r.beams, evals + r.evals, pos + 1;
      if r.done { break; }
    }
    ok := true;
    beams := Sorted(m, beams, ScoreKeys(m, beams));
  }

  lemma SearchUnfold(m: Model, c: Params, base: seq<Token>, bs: seq<Beam>, n: nat)
    requires ModelOk(m) && n > 0
    ensures var r := Step(m, c, base, bs);
      Search(m, c, base, bs, n) == if r.done then r else Plus(Search(m, c, base, r.beams, n - 1), r.evals)
  {
  }

  function Plus(r: Round, n: nat): Round {
    r.(evals := r.evals + n)
  }

  // ---- Stop sequences, lengths and masks --------------------------------------------------------------------

  /** The stop sequence does not occur in toks. */
  ghost predicate Clean(stop: seq<Token>, toks: seq<Token>) {
    forall i :: !OccursAt(stop, toks, i)
  }

  predicate OccursAt(stop: seq<Token>, toks: seq<Token>, i: int) {
    0 <= i <= |toks| - |stop| && toks[i..i+|stop|] == stop
  }

  ghost predicate Admitted(m: Model, c: Params, toks: seq<Token>) {
    forall t | t in toks :: 0 <= t < |c.mask| && c.mask[t] && m.sampled(t)
  }

  /** All that was generated, the stop sequence included. */
  function Generated(c: Params, b: Beam): seq<Token> {
    b.tokens + if b.stopped then c.stop else []
  }

  /** The penalty after text, updated with every token on all that stands there then. */
  function PenaltyAfter(m: Model, c: Params, base: seq<Token>, text: seq<Token>): real {
    if text == [] || c.repetition.None? then 1.0
    else m.repetition(base + text, PenaltyAfter(m, c, base, text[..|text|-1]), c.repetition.value)
  }

  /** Every token was among the best after all tokens before it. */
  ghost predicate Chosen(m: Model, c: Params, base: seq<Token>, text: seq<Token>)
    requires ModelOk(m)
  {
    forall i :: 0 <= i < |text| ==> text[i] in TopK(m, c.mask, c.beams, base + text[..i])
  }

  /** What is true of a beam after p rounds. Each token generated was charged after all tokens before it. A stopped beam
      is what was generated before the first occurrence of the stop sequence; an active one holds p tokens and no
      occurrence. */
  ghost predicate BeamOk(m: Model, c: Params, base: seq<Token>, p: nat, b: Beam)
    requires ModelOk(m)
  {
    && Admitted(m, c, b.tokens) && b.cost == Sum(b.costs)
    && Chosen(m, c, base, Generated(c, b))
    && Charged(m, base, Generated(c, b), b.costs) && b.penalty == PenaltyAfter(m, c, base, Generated(c, b))
    && (if b.stopped then
          && |b.costs| <= p && |b.tokens| + |c.stop| == |b.costs|
          && (c.stop != [] ==> Clean(c.stop, b.tokens + c.stop[..|c.stop|-1]))
          && (c.stop == [] ==> |b.tokens| == 1)
        else
          && |b.tokens| == p && |b.costs| == p
          && (c.stop != [] ==> Clean(c.stop, b.tokens))
          && (c.stop == [] ==> p == 0))
  }

  /** The score of a text and its diversity bonus. */
  function Rated(m: Model, c: Params, base: seq<Token>, text: seq<Token>, bonus: real): real {
    var p, q := Likely(m, base, text) + bonus, PenaltyAfter(m, c, base, text);
    if q == 0.0 then m.overZero(p) else p / q
  }

  /** The beam has the probability and the score of all it generated. */
  ghost predicate Judged(m: Model, c: Params, base: seq<Token>, b: Beam) {
    && b.Proba(m) == Likely(m, base, Generated(c, b))
    && b.Score(m) == Rated(m, c, base, Generated(c, b), b.diversity)
  }

  /** The probability of a beam is how likely all it generated is, and its score is what that text is rated at. */
  lemma BeamLikely(m: Model, c: Params, base: seq<Token>, p: nat, b: Beam)
    requires ModelOk(m) && BeamOk(m, c, base, p, b)
    ensures Judged(m, c, base, b)
  {
    hide ModelOk, Admitted, Chosen, Clean, PenaltyAfter;
    ChargedLikely(m, base, Generated(c, b), b.costs);
    assert b.costs == [] <==> Generated(c, b) == [];
  }

  ghost predicate BeamsOk(m: Model, c: Params, base: seq<Token>, p: nat, bs: seq<Beam>)
    requires ModelOk(m)
  {
    forall i :: 0 <= i < |bs| ==> BeamOk(m, c, base, p, bs[i])
  }

  lemma CleanExtend(stop: seq<Token>, toks: seq<Token>, tok: Token)
    requires stop != [] && Clean(stop, toks)
    ensures !EndsWith(toks + [tok], stop) ==> Clean(stop, toks + [tok])
    ensures EndsWith(toks + [tok], stop) ==>
      var n := |toks| + 1 - |stop|;
      (toks + [tok])[..n] + stop[..|stop|-1] == toks && (toks + [tok])[..n] + stop == toks + [tok]
  {
    var more := toks + [tok];
    if EndsWith(more, stop) {
      assert more == more[..|more|-|stop|] + stop;
      assert toks == more[..|toks|];
    } else {
      forall i ensures !OccursAt(stop, more, i) {
        assert !OccursAt(stop, toks, i);
        if 0 <= i && i + |stop| <= |toks| {
          assert more[i..i+|stop|] == toks[i..i+|stop|];
        } else if 0 <= i && i + |stop| == |more| {
          assert more[i..i+|stop|] == more[|more|-|stop|..];
        }
      }
    }
  }

  lemma SumAppend(cs: seq<real>, x: real)
    ensures Sum(cs + [x]) == Sum(cs) + x
  {
    assert (cs + [x])[..|cs|] == cs;
  }

  lemma AdmittedMore(m: Model, c: Params, toks: seq<Token>, tok: Token)
    requires Admitted(m, c, toks) && 0 <= tok < |c.mask| && c.mask[tok] && m.sampled(tok)
    ensures Admitted(m, c, toks + [tok]) && forall n | 0 <= n <= |toks| + 1 :: Admitted(m, c, (toks + [tok])[..n])
  {
    var more := toks + [tok];
    forall n | 0 <= n <= |more| ensures Admitted(m, c, more[..n]) {
      forall t | t in more[..n] ensures t in more {}
    }
  }

  /** One token more keeps what is true of a beam; with the stop sequence put back its text is the old one and the
      token, and it has stopped exactly if that ends with the stop sequence. */
  lemma ExtendOk(m: Model, c: Params, base: seq<Token>, p: nat, b: Beam, tok: Token)
    requires ModelOk(m) && BeamOk(m, c, base, p, b) && !b.stopped && tok in TopK(m, c.mask, c.beams, base + b.tokens)
    ensures var r := Extend(m, c, base, b, tok);
      && BeamOk(m, c, base, p + 1, r)
      && r.tokens + (if r.stopped then c.stop else []) == b.tokens + [tok]
      && (r.stopped <==> exists before :: b.tokens + [tok] == before + c.stop)
  {
    hide ModelOk, Clean, Sum, Admitted, Charged, PenaltyAfter, TopK, Chosen, Extend, EndsWith;
    var toks := b.tokens + [tok];
    assert b.tokens + [] == b.tokens && Generated(c, b) == b.tokens;
    TopKBest(m, c.mask, c.beams, base + b.tokens);
    ExtendParts(m, c, base, b, tok);
    ChosenMore(m, c, base, b.tokens, tok);
    ChargedMore(m, base, b.tokens, b.costs, tok);
    PenaltyMore(m, c, base, b.tokens, tok);
    SumAppend(b.costs, m.cost(base + b.tokens, tok));
    AdmittedMore(m, c, b.tokens, tok);
    EndsWithIs(toks, c.stop);
    ExtendClean(m, c, base, p, b, tok);
  }

  /** What the new beam is made of. */
  lemma ExtendParts(m: Model, c: Params, base: seq<Token>, b: Beam, tok: Token)
    ensures var r, toks := Extend(m, c, base, b, tok), b.tokens + [tok];
      && Generated(c, r) == toks && r.tokens == toks[..|r.tokens|] && (r.stopped <==> EndsWith(toks, c.stop))
      && r.costs == b.costs + [m.cost(base + b.tokens, tok)] && r.cost == b.cost + m.cost(base + b.tokens, tok)
      && r.penalty == (if c.repetition.None? then b.penalty else m.repetition(base + toks, b.penalty, c.repetition.value))
  {
    var toks := b.tokens + [tok];
    EndsWithIs(toks, c.stop);
    assert toks + [] == toks && toks[..|toks|] == toks;
  }

  /** Cutting the stop sequence off leaves the text before its first occurrence. */
  lemma ExtendClean(m: Model, c: Params, base: seq<Token>, p: nat, b: Beam, tok: Token)
    requires |b.tokens| == p && (c.stop != [] ==> Clean(c.stop, b.tokens)) && (c.stop == [] ==> p == 0)
    ensures var r := Extend(m, c, base, b, tok);
      if r.stopped then
        && |r.tokens| + |c.stop| == p + 1
        && (c.stop != [] ==> Clean(c.stop, r.tokens + c.stop[..|c.stop|-1]))
        && (c.stop == [] ==> |r.tokens| == 1)
      else
        |r.tokens| == p + 1 && c.stop != [] && Clean(c.stop, r.tokens)
  {
    hide Clean;
    var toks := b.tokens + [tok];
    if c.stop != [] {
      CleanExtend(c.stop, b.tokens, tok);
    } else {
      assert toks[|toks|..] == [];
    }
  }

  lemma ChosenMore(m: Model, c: Params, base: seq<Token>, text: seq<Token>, tok: Token)
    requires ModelOk(m) && Chosen(m, c, base, text) && tok in TopK(m, c.mask, c.beams, base + text)
    ensures Chosen(m, c, base, text + [tok])
  {
    hide ModelOk, TopK;
    var more := text + [tok];
    forall i | 0 <= i < |more| ensures more[i] in TopK(m, c.mask, c.beams, base + more[..i]) {
      assert more[..i] == text[..i];
    }
  }

  lemma PenaltyMore(m: Model, c: Params, base: seq<Token>, text: seq<Token>, tok: Token)
    ensures PenaltyAfter(m, c, base, text + [tok]) ==
      if c.repetition.None? then PenaltyAfter(m, c, base, text)
      else m.repetition(base + (text + [tok]), PenaltyAfter(m, c, base, text), c.repetition.value)
  {
    assert (text + [tok])[..|text|] == text;
  }

  lemma EndsWithIs(toks: seq<Token>, stop: seq<Token>)
    ensures EndsWith(toks, stop) <==> exists before :: toks == before + stop
    ensures EndsWith(toks, stop) ==> toks[..|toks|-|stop|] + stop == toks
  {
    if EndsWith(toks, stop) {
      assert toks == toks[..|toks|-|stop|] + stop;
    }
    forall before | toks == before + stop ensures EndsWith(toks, stop) {
      assert (before + stop)[|before|..] == stop;
    }
  }

  lemma ExpandOk(m: Model, c: Params, base: seq<Token>, p: nat, b: Beam)
    requires ModelOk(m) && BeamOk(m, c, base, p, b) && !b.stopped
    ensures BeamsOk(m, c, base, p + 1, Expand(m, c, base, b))
  {
    hide BeamOk, Extend, TopK;
    var toks := TopK(m, c.mask, c.beams, base + b.tokens);
    TopKBest(m, c.mask, c.beams, base + b.tokens);
    hide ModelOk;
    forall i | 0 <= i < |toks| ensures BeamOk(m, c, base, p + 1, Extend(m, c, base, b, toks[i])) {
      assert toks[i] in toks;
      ExtendOk(m, c, base, p, b, toks[i]);
    }
  }

  lemma {:induction false} NextOk(m: Model, c: Params, base: seq<Token>, p: nat, bs: seq<Beam>)
    requires ModelOk(m) && BeamsOk(m, c, base, p, bs)
    ensures BeamsOk(m, c, base, p + 1, NextBeams(m, c, base, bs))
  {
    hide ModelOk, Expand, Clean, Sum;
    if bs != [] {
      var b := bs[|bs|-1];
      NextOk(m, c, base, p, bs[..|bs|-1]);
      if !b.stopped { ExpandOk(m, c, base, p, b); }
    }
  }

  lemma DiversifiedOk(m: Model, c: Params, base: seq<Token>, p: nat, bs: seq<Beam>)
    requires ModelOk(m) && BeamsOk(m, c, base, p, bs)
    ensures BeamsOk(m, c, base, p, Diversified(m, c, bs))
  {
    var r := Diversified(m, c, bs);
    hide ModelOk, Diversified, Clean, Sum, Admitted, Charged, Chosen, PenaltyAfter;
    forall i | 0 <= i < |r| ensures BeamOk(m, c, base, p, r[i]) {
      assert BeamOk(m, c, base, p, bs[i]) && SameText(r[i], bs[i]);
    }
  }

  /** A round carries on every stopped beam, and every active one with each of its best tokens; and nothing else. */
  lemma {:induction false} NextBeamsAre(m: Model, c: Params, base: seq<Token>, bs: seq<Beam>, r: Beam)
    requires ModelOk(m)
    ensures r in NextBeams(m, c, base, bs) <==>
      (r.stopped && r in bs) || exists b :: b in bs && !b.stopped && Continues(m, c, base, b, r)
  {
    hide ModelOk, Expand, Continues;
    if bs != [] {
      var front, last := bs[..|bs|-1], bs[|bs|-1];
      NextBeamsAre(m, c, base, front, r);
      ExpandAre(m, c, base, last, r);
      assert bs == front + [last];
    }
  }

  /** r is b with one of its best tokens. */
  ghost predicate Continues(m: Model, c: Params, base: seq<Token>, b: Beam, r: Beam)
    requires ModelOk(m)
  {
    exists t :: t in TopK(m, c.mask, c.beams, base + b.tokens) && r == Extend(m, c, base, b, t)
  }

  lemma ExpandAre(m: Model, c: Params, base: seq<Token>, b: Beam, r: Beam)
    requires ModelOk(m)
    ensures r in Expand(m, c, base, b) <==> Continues(m, c, base, b, r)
  {
    hide ModelOk, TopK, Extend;
    var toks := TopK(m, c.mask, c.beams, base + b.tokens);
    if t :| t in toks && r == Extend(m, c, base, b, t) {
      var i :| 0 <= i < |toks| && toks[i] == t;
      assert Expand(m, c, base, b)[i] == r;
    }
  }

  lemma SortedFrom(m: Model, bs: seq<Beam>, keys: seq<Key>)
    requires ModelOk(m) && |keys| == |bs|
    ensures forall b | b in Sorted(m, bs, keys) :: b in bs
  {
    var order := m.rank(keys);
    assert IsRanking(keys, order);
    forall b | b in Sorted(m, bs, keys) ensures b in bs {
      var i :| 0 <= i < |order| && Pick(bs, order)[i] == b;
    }
  }

  lemma {:induction false} KeepFrom(bs: seq<Beam>, k: nat)
    ensures forall b | b in KeepFirst(bs, k) :: b in bs
  {
    if bs != [] {
      KeepFrom(bs[1..], if bs[0].stopped then k else if k > 0 then k - 1 else 0);
    }
  }

  lemma AllOf(m: Model, c: Params, base: seq<Token>, p: nat, bs: seq<Beam>, some: seq<Beam>)
    requires ModelOk(m) && BeamsOk(m, c, base, p, bs) && forall b | b in some :: b in bs
    ensures BeamsOk(m, c, base, p, some)
  {
    hide ModelOk, BeamOk;
    forall i | 0 <= i < |some| ensures BeamOk(m, c, base, p, some[i]) {
      assert some[i] in bs;
    }
  }

  /** One round keeps what is true of the beams. */
  lemma StepOk(m: Model, c: Params, base: seq<Token>, p: nat, bs: seq<Beam>)
    requires ModelOk(m) && BeamsOk(m, c, base, p, bs)
    ensures BeamsOk(m, c, base, p + 1, Step(m, c, base, bs).beams)
  {
    hide ModelOk, BeamsOk, NextBeams, Diversified, Sorted, KeepFirst;
    NextOk(m, c, base, p, bs);
    DiversifiedOk(m, c, base, p + 1, NextBeams(m, c, base, bs));
    var next := Diversified(m, c, NextBeams(m, c, base, bs));
    var sorted := Sorted(m, next, PruneKeys(m, next));
    SortedFrom(m, next, PruneKeys(m, next));
    KeepFrom(sorted, c.beams);
    AllOf(m, c, base, p + 1, next, sorted);
    AllOf(m, c, base, p + 1, sorted, KeepFirst(sorted, c.beams));
  }

  /** After the search every beam is as long as the rounds it took, at most the limit, or all have stopped. */
  lemma {:induction false} SearchOk(m: Model, c: Params, base: seq<Token>, p: nat, bs: seq<Beam>, n: nat) returns (q: nat)
    requires ModelOk(m) && BeamsOk(m, c, base, p, bs)
    ensures p <= q <= p + n && BeamsOk(m, c, base, q, Search(m, c, base, bs, n).beams)
    ensures if Search(m, c, base, bs, n).done then AllStopped(Search(m, c, base, bs, n).beams) else q == p + n
    decreases n
  {
    hide ModelOk, BeamsOk, Step;
    if n == 0 {
      q := p;
    } else {
      StepOk(m, c, base, p, bs);
      var r := Step(m, c, base, bs);
      DoneStopped(m, c, base, bs);
      if r.done { q := p + 1; } else { q := SearchOk(m, c, base, p + 1, r.beams, n - 1); }
    }
  }

  lemma DoneStopped(m: Model, c: Params, base: seq<Token>, bs: seq<Beam>)
    requires ModelOk(m)
    ensures Step(m, c, base, bs).done ==> AllStopped(Step(m, c, base, bs).beams)
  {
  }

  /** A completion honours its stop sequence, its length limit and its vocabulary. */
  lemma CompletionOk(m: Model, c: Params, base: seq<Token>) returns (q: nat)
    requires ModelOk(m)
    ensures q <= c.length && BeamsOk(m, c, base, q, Completed(m, c, base))
    ensures forall b | b in Completed(m, c, base) :: (b.stopped || |b.tokens| == c.length) && Judged(m, c, base, b)
  {
    hide ModelOk, Search, Sorted, Clean, Admitted, Sum, Judged, Chosen, Charged, PenaltyAfter;
    StartOk(m, c, base);
    q := SearchOk(m, c, base, 0, [START], c.length);
    var bs := Search(m, c, base, [START], c.length).beams;
    SortedFrom(m, bs, ScoreKeys(m, bs));
    AllOf(m, c, base, q, bs, Completed(m, c, base));
    forall b | b in Completed(m, c, base) ensures Judged(m, c, base, b) { BeamLikely(m, c, base, q, b); }
  }

  lemma StartOk(m: Model, c: Params, base: seq<Token>)
    requires ModelOk(m)
    ensures BeamOk(m, c, base, 0, START)
  {
  }

  // ---- Pruning ------------------------------------------------------------------------------------------------

  lemma {:induction false} ActiveFront(b: Beam, bs: seq<Beam>)
    ensures Active([b] + bs) == (if b.stopped then 0 else 1) + Active(bs)
  {
    var all := [b] + bs;
    if bs == [] {
      assert all[..0] == [];
    } else {
      assert all[..|all|-1] == [b] + bs[..|bs|-1];
      ActiveFront(b, bs[..|bs|-1]);
    }
  }

  ghost predicate ByScore(m: Model, bs: seq<Beam>) {
    forall i, j :: 0 <= i < j < |bs| && !bs[i].stopped && !bs[j].stopped ==> bs[i].Score(m) >= bs[j].Score(m)
  }

  lemma {:induction false} KeepCount(bs: seq<Beam>, k: nat)
    ensures forall b | b in bs && b.stopped :: b in KeepFirst(bs, k)
    ensures Active(KeepFirst(bs, k)) <= k
    ensures forall d | d in bs && d !in KeepFirst(bs, k) :: Active(KeepFirst(bs, k)) == k
  {
    hide Active;
    ActiveNone();
    if bs != [] {
      var rest := bs[1..];
      var k' := if bs[0].stopped then k else if k > 0 then k - 1 else 0;
      KeepCount(rest, k');
      ActiveFront(bs[0], KeepFirst(rest, k'));
    }
  }

  lemma ActiveNone()
    ensures Active([]) == 0
  {
  }

  lemma {:induction false} KeepBest(m: Model, bs: seq<Beam>, k: nat)
    requires ByScore(m, bs)
    ensures forall a, d | a in KeepFirst(bs, k) && !a.stopped && d in bs && d !in KeepFirst(bs, k) :: a.Score(m) >= d.Score(m)
  {
    if bs != [] {
      var rest := bs[1..];
      var k' := if bs[0].stopped then k else if k > 0 then k - 1 else 0;
      HeadBest(m, bs);
      KeepCount(bs, k);
      KeepFrom(rest, k');
      hide ByScore, Active;
      KeepBest(m, rest, k');
      if !bs[0].stopped && k == 0 { KeepNone(rest); }
    }
  }

  lemma {:induction false} KeepNone(bs: seq<Beam>)
    ensures forall a | a in KeepFirst(bs, 0) :: a.stopped
  {
    if bs != [] { KeepNone(bs[1..]); }
  }

  lemma HeadBest(m: Model, bs: seq<Beam>)
    requires ByScore(m, bs) && bs != []
    ensures ByScore(m, bs[1..])
    ensures forall d | d in bs[1..] && !bs[0].stopped && !d.stopped :: bs[0].Score(m) >= d.Score(m)
  {
    forall d | d in bs[1..] && !bs[0].stopped && !d.stopped ensures bs[0].Score(m) >= d.Score(m) {
      var j :| 0 <= j < |bs[1..]| && bs[1..][j] == d;
      assert bs[j+1] == d;
    }
  }

  lemma SortedByScore(m: Model, bs: seq<Beam>)
    requires ModelOk(m)
    ensures var s := Sorted(m, bs, PruneKeys(m, bs)); ByScore(m, s) && forall b :: b in s <==> b in bs
  {
    var keys := PruneKeys(m, bs);
    var order := m.rank(keys);
    assert IsRanking(keys, order);
    var s := Pick(bs, order);
    forall i, j | 0 <= i < j < |s| && !s[i].stopped && !s[j].stopped ensures s[i].Score(m) >= s[j].Score(m) {
      assert Ahead(keys[order[i]], keys[order[j]]);
    }
    forall b | b in bs ensures b in s {
      var c: nat :| c < |bs| && bs[c] == b;
      RankingCovers(keys, order, c);
      var j :| 0 <= j < |order| && order[j] == c;
      assert s[j] == b;
    }
    SortedFrom(m, bs, keys);
  }

  /** Pruning keeps every stopped beam, at most width active ones, drops an active one only when width are
      kept, and keeps none with a lower score than one it drops. */
  lemma PruneKeepsBest(m: Model, bs: seq<Beam>, width: nat)
    requires ModelOk(m)
    ensures var r := Pruned(m, bs, width);
      && (forall b | b in r :: b in bs) && (forall b | b in bs && b.stopped :: b in r)
      && Active(r) <= width
      && (forall d | d in bs && d !in r :: Active(r) == width)
      && forall a, d | a in r && !a.stopped && d in bs && d !in r :: a.Score(m) >= d.Score(m)
  {
    hide ModelOk, Sorted, ByScore, Active, PruneKeys;
    SortedByScore(m, bs);
    var s := Sorted(m, bs, PruneKeys(m, bs));
    KeepBest(m, s, width);
    KeepCount(s, width);
    KeepFrom(s, width);
  }

  // ---- A completion with beams yields something ---------------------------------------------------------------

  lemma ExpandSome(m: Model, c: Params, base: seq<Token>, b: Beam)
    requires ModelOk(m) && Admits(m, c.mask) && c.beams > 0
    ensures Expand(m, c, base, b) != []
  {
    hide ModelOk, TopK, Admits, Extend, Candidates;
    AdmitsSome(m, c.mask);
    CandidatesEmpty(m, c.mask);
    TopKBest(m, c.mask, c.beams, base + b.tokens);
  }

  lemma StepSome(m: Model, c: Params, base: seq<Token>, bs: seq<Beam>)
    requires ModelOk(m) && Admits(m, c.mask) && c.beams > 0 && bs != []
    ensures Step(m, c, base, bs).beams != []
  {
    hide ModelOk, Admits, Expand, Diversified, Pruned;
    var b := bs[|bs|-1];
    ExpandSome(m, c, base, b);
    ActiveSurvives(m, c, base, bs);
  }

  lemma {:induction false} SearchSome(m: Model, c: Params, base: seq<Token>, bs: seq<Beam>, n: nat)
    requires ModelOk(m) && bs != [] && (n > 0 ==> Admits(m, c.mask) && c.beams > 0)
    ensures Search(m, c, base, bs, n).beams != []
    decreases n
  {
    hide ModelOk, Admits, Step;
    if n > 0 {
      StepSome(m, c, base, bs);
      var r := Step(m, c, base, bs);
      if !r.done { SearchSome(m, c, base, r.beams, n - 1); }
    }
  }

  /** The only completion without result is one of positive length that may keep no beam. */
  lemma CompletedSome(m: Model, c: Params, base: seq<Token>)
    requires ModelOk(m) && (c.length == 0 || Admits(m, c.mask))
    ensures Completed(m, c, base) == [] <==> c.length > 0 && c.beams == 0
  {
    hide ModelOk, Admits, Search, Sorted;
    var bs := Search(m, c, base, [START], c.length).beams;
    SortedSize(m, bs, ScoreKeys(m, bs));
    if c.length == 0 || c.beams > 0 {
      SearchSome(m, c, base, [START], c.length);
    } else {
      SearchNone(m, c, base, c.length);
    }
  }

  lemma SearchNone(m: Model, c: Params, base: seq<Token>, n: nat)
    requires ModelOk(m) && c.beams == 0 && n > 0
    ensures Search(m, c, base, [START], n).beams == []
  {
    hide ModelOk, TopK;
    NoTokens(m, c, base + START.tokens);
    assert Expand(m, c, base, START) == [];
    assert [START][..0] == [];
    assert NextBeams(m, c, base, [START]) == [];
  }
}
