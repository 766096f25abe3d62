/** What pruning keeps of the results of a completion. They are ranked by score, but pruned by probability; so the
    kept ones are the first of the ranking only under a condition. */
module KeptCompletions {
  import opened Schema
  import opened Traversal
  import opened Sampling
  import opened BeamSearch
  import opened Prepared
  import opened Evaluation

  ghost predicate RankedByScore(m: Model, bs: seq<Beam>) {
    forall i, j :: 0 <= i < j < |bs| ==> bs[i].Score(m) >= bs[j].Score(m)
  }

  /** No child is kept behind one that is pruned. */
  ghost predicate KeptFirst(chs: seq<Child>) {
    forall i, j :: 0 <= i < j < |chs| && chs[i].pruned ==> chs[j].pruned
  }

  /** Result i, not the first, falls below the threshold, and a later one within the width does not. */
  ghost predicate Overtaken(m: Model, c: Params, bs: seq<Beam>, i: nat, j: nat)
    requires i < |bs| && j < |bs|
  {
    0 < i < j < c.width && bs[i].Proba(m) < c.threshold <= bs[j].Proba(m)
  }

  ghost predicate SomeOvertaken(m: Model, c: Params, bs: seq<Beam>) {
    exists i, j :: 0 <= i < |bs| && 0 <= j < |bs| && Overtaken(m, c, bs, i, j)
  }

  /** The child carries the tokens and costs of the beam. */
  ghost predicate Carries(ch: Child, b: Beam) {
    ch.tokens == b.tokens && ch.costs == b.costs
  }

  // ---- The ranking -------------------------------------------------------------------------------------------

  lemma CompletedRanked(m: Model, c: Params, base: seq<Token>)
    requires ModelOk(m)
    ensures RankedByScore(m, Completed(m, c, base))
  {
    hide Search;
    SortedRanked(m, Search(m, c, base, [START], c.length).beams);
  }

  lemma SortedRanked(m: Model, bs: seq<Beam>)
    requires ModelOk(m)
    ensures RankedByScore(m, Sorted(m, bs, ScoreKeys(m, bs)))
  {
    var keys := ScoreKeys(m, bs);
    var order := m.rank(keys);
    assert IsRanking(keys, order);
    var s := Pick(bs, order);
    forall i, j | 0 <= i < j < |s| ensures s[i].Score(m) >= s[j].Score(m) {
      assert Ahead(keys[order[i]], keys[order[j]]);
    }
  }

  lemma CompletionChild(m: Model, ps: seq<PreparedAction>, a: PreparedAction, ctx: seq<Token>)
    requires ModelOk(m) && ActionPlayable(m, ps, a) && a.body.Free?
    ensures var c := a.body.params; var bs, chs := Completed(m, c, ctx), Children(m, ps, a, ctx);
      |chs| == |bs| && forall i :: 0 <= i < |chs| ==>
        Carries(chs[i], bs[i]) && (chs[i].pruned <==> i >= c.width || (i > 0 && bs[i].Proba(m) < c.threshold))
  {
    hide ModelOk, Completed, Admits;
    var bs, chs := Completed(m, a.body.params, ctx), Children(m, ps, a, ctx);
    assert forall i :: 0 <= i < |bs| ==> chs[i] == FreeChild(m, a, bs, i);
  }

  // ---- Exactly when the kept results are the first ones -----------------------------------------------------

  /** The results come in the order of their scores, one child each; the first is kept if the width allows any, and
      none from the width on. Those kept are the first of the ranking exactly if none within the width that falls
      below the threshold is followed there by one that does not; so in any case if the width is at most two, or
      the threshold rules nothing out. */
  lemma CompletionsKept(m: Model, ps: seq<PreparedAction>, a: PreparedAction, ctx: seq<Token>)
    requires ModelOk(m) && ActionPlayable(m, ps, a) && a.body.Free?
    ensures var c := a.body.params; var bs, chs := Completed(m, c, ctx), Children(m, ps, a, ctx);
      && |chs| == |bs| && (forall i :: 0 <= i < |chs| ==> Carries(chs[i], bs[i])) && RankedByScore(m, bs)
      && (forall b | b in bs :: Judged(m, c, ctx, b))
      && (c.width > 0 && chs != [] ==> !chs[0].pruned)
      && (forall i :: c.width <= i < |chs| ==> chs[i].pruned)
      && (KeptFirst(chs) <==> !SomeOvertaken(m, c, bs))
      && (c.width <= 2 || c.threshold <= 0.0 ==> KeptFirst(chs))
  {
    hide ModelOk, Completed, Children, ActionPlayable, Carries, RankedByScore, Judged, BeamsOk, Beam.Proba;
    var c := a.body.params;
    var bs, chs := Completed(m, c, ctx), Children(m, ps, a, ctx);
    CompletedRanked(m, c, ctx);
    CompletionChild(m, ps, a, ctx);
    var q := CompletionOk(m, c, ctx);
    if i, j :| 0 <= i < |bs| && 0 <= j < |bs| && Overtaken(m, c, bs, i, j) {
      assert chs[i].pruned && !chs[j].pruned;
    }
    if i, j :| 0 <= i < j < |chs| && chs[i].pruned && !chs[j].pruned {
      assert Overtaken(m, c, bs, i, j);
    }
    forall i | 0 <= i < |bs| ensures bs[i].Proba(m) >= 0.0 { ProbaPositive(m, bs[i]); }
  }

  lemma ProbaPositive(m: Model, b: Beam)
    requires ModelOk(m)
    ensures b.Proba(m) >= 0.0
  {
  }

  // ---- Without repetition penalty and diversity bonus -------------------------------------------------------

  /** Nothing but the probability makes up the score. */
  ghost predicate Plain(b: Beam) {
    b.penalty == 1.0 && b.diversity == 0.0
  }

  ghost predicate AllPlain(bs: seq<Beam>) {
    forall b | b in bs :: Plain(b)
  }

  lemma PlainScore(m: Model, b: Beam)
    requires Plain(b)
    ensures b.Score(m) == b.Proba(m)
  {
    hide Beam.Proba;
  }

  lemma {:induction false} NextPlain(m: Model, c: Params, base: seq<Token>, bs: seq<Beam>)
    requires ModelOk(m) && c.repetition.None? && AllPlain(bs)
    ensures AllPlain(NextBeams(m, c, base, bs))
  {
    hide ModelOk, TopK;
    if bs != [] {
      var front, b := bs[..|bs|-1], bs[|bs|-1];
      forall x | x in front ensures Plain(x) {}
      NextPlain(m, c, base, front);
      assert b in bs;
    }
  }

  lemma StepPlain(m: Model, c: Params, base: seq<Token>, bs: seq<Beam>)
    requires ModelOk(m) && c.repetition.None? && c.diversity.None? && AllPlain(bs)
    ensures AllPlain(Step(m, c, base, bs).beams)
  {
    hide ModelOk, NextBeams, Sorted, KeepFirst, Plain;
    NextPlain(m, c, base, bs);
    var next := NextBeams(m, c, base, bs);
    SortedFrom(m, next, PruneKeys(m, next));
    KeepFrom(Sorted(m, next, PruneKeys(m, next)), c.beams);
  }

  lemma {:induction false} SearchPlain(m: Model, c: Params, base: seq<Token>, bs: seq<Beam>, n: nat)
    requires ModelOk(m) && c.repetition.None? && c.diversity.None? && AllPlain(bs)
    ensures AllPlain(Search(m, c, base, bs, n).beams)
    decreases n
  {
    hide ModelOk, Step, AllPlain;
    if n > 0 {
      StepPlain(m, c, base, bs);
      SearchPlain(m, c, base, Step(m, c, base, bs).beams, n - 1);
    }
  }

  lemma CompletedPlain(m: Model, c: Params, base: seq<Token>)
    requires ModelOk(m) && c.repetition.None? && c.diversity.None?
    ensures AllPlain(Completed(m, c, base))
  {
    hide ModelOk, Search, Sorted;
    SearchPlain(m, c, base, [START], c.length);
    var bs := Search(m, c, base, [START], c.length).beams;
    SortedFrom(m, bs, ScoreKeys(m, bs));
  }

  /** The probability of the child is that of its beam. */
  lemma SameProba(m: Model, c: Params, base: seq<Token>, i: nat)
    requires ModelOk(m) && i < |Completed(m, c, base)|
    ensures Proba(m, Completed(m, c, base)[i].costs) == Completed(m, c, base)[i].Proba(m)
  {
    hide ModelOk, Completed, Sum, Admitted, Clean;
    var q := CompletionOk(m, c, base);
    assert BeamOk(m, c, base, q, Completed(m, c, base)[i]);
  }

  /** Without penalty and bonus the ranking is that by probability, and the results kept are its first, as for
      choices: at most width of them, none less probable than one that is pruned. */
  lemma CompletionsKeepBest(m: Model, ps: seq<PreparedAction>, a: PreparedAction, ctx: seq<Token>)
    requires ModelOk(m) && ActionPlayable(m, ps, a) && a.body.Free?
    requires a.body.params.repetition.None? && a.body.params.diversity.None?
    ensures var c := a.body.params; var chs := Children(m, ps, a, ctx);
      && |chs| == |Completed(m, c, ctx)|
      && KeptFirst(chs)
      && (forall i, j :: 0 <= i < |chs| && 0 <= j < |chs| ==> KeptAhead(m, chs, i, j))
      && (forall i :: c.width <= i < |chs| ==> chs[i].pruned)
      && (c.width > 0 && chs != [] ==> !chs[0].pruned)
  {
    hide ModelOk, Completed, Children, ActionPlayable, KeptAhead, KeptFirst, SomeOvertaken, AllPlain, RankedByScore, Carries;
    var c := a.body.params;
    var bs, chs := Completed(m, c, ctx), Children(m, ps, a, ctx);
    CompletionsKept(m, ps, a, ctx);
    CompletedPlain(m, c, ctx);
    forall i, j | 0 <= i < j < |bs| ensures Proba(m, chs[i].costs) >= Proba(m, chs[j].costs) {
      InOrderOfProba(m, c, ctx, i, j);
      assert Carries(chs[i], bs[i]) && Carries(chs[j], bs[j]);
      CarriedCosts(chs[i], bs[i]);
      CarriedCosts(chs[j], bs[j]);
    }
    OvertakenFalls(m, c, ctx);
    forall i, j | 0 <= i < |chs| && 0 <= j < |chs| ensures KeptAhead(m, chs, i, j) {
      PrefixAhead(m, chs, i, j);
    }
  }

  lemma CarriedCosts(ch: Child, b: Beam)
    requires Carries(ch, b)
    ensures ch.costs == b.costs
  {
  }

  lemma InOrderOfProba(m: Model, c: Params, base: seq<Token>, i: nat, j: nat)
    requires ModelOk(m) && i < j < |Completed(m, c, base)| && AllPlain(Completed(m, c, base))
    ensures var bs := Completed(m, c, base);
      bs[i].Proba(m) >= bs[j].Proba(m) && Proba(m, bs[i].costs) >= Proba(m, bs[j].costs)
  {
    hide ModelOk, Completed, Plain, Beam.Score, Beam.Proba, Proba;
    var bs := Completed(m, c, base);
    CompletedRanked(m, c, base);
    SameProba(m, c, base, i);
    SameProba(m, c, base, j);
    assert bs[i] in bs && bs[j] in bs;
    PlainScore(m, bs[i]);
    PlainScore(m, bs[j]);
  }

  /** In a ranking by probability none is overtaken. */
  lemma OvertakenFalls(m: Model, c: Params, base: seq<Token>)
    requires ModelOk(m) && AllPlain(Completed(m, c, base))
    ensures !SomeOvertaken(m, c, Completed(m, c, base))
  {
    hide ModelOk, Completed, AllPlain, Beam.Proba, Proba;
    var bs := Completed(m, c, base);
    forall i, j | 0 <= i < |bs| && 0 <= j < |bs| ensures !Overtaken(m, c, bs, i, j) {
      if i < j { InOrderOfProba(m, c, base, i, j); }
    }
  }

  lemma PrefixAhead(m: Model, chs: seq<Child>, i: nat, j: nat)
    requires i < |chs| && j < |chs| && KeptFirst(chs)
    requires forall i, j :: 0 <= i < j < |chs| ==> Proba(m, chs[i].costs) >= Proba(m, chs[j].costs)
    ensures KeptAhead(m, chs, i, j)
  {
    hide Proba;
  }

  // ---- Results that are not the first of the ranking --------------------------------------------------------

  /** Of tokens 0, 1 and 2 the probabilities are twice, half and once the threshold; a text that ends with 2 is penalised. */
  function SkewedModel(threshold: real): Model {
    Model(
      3, t => true, (ctx, t) => t as real,
      (cost, n) => if cost == 0.0 then 2.0 * threshold else if cost == 1.0 then threshold / 2.0 else threshold,
      p => p,
      (toks: seq<Token>, penalty, weight) => if toks != [] && toks[|toks|-1] == 2 then 4.0 else penalty,
      (texts, i, weight) => 0.0,
      SortOrder)
  }

  /** One token out of three, with a repetition penalty. */
  function OneToken(beams: nat, width: nat, threshold: real, stop: seq<Token>, weight: real): Params {
    Params(1, beams, width, threshold, stop, [true, true, true], Some(weight), None)
  }

  /** The beam that took token k. */
  function Taken(m: Model, c: Params, base: seq<Token>, k: Token): Beam {
    Extend(m, c, base, START, k)
  }

  ghost predicate HasThree(m: Model, c: Params, base: seq<Token>, bs: seq<Beam>) {
    |bs| == 3 && forall k :: 0 <= k < 3 ==> Taken(m, c, base, k) in bs
  }

  lemma SkewedOk(threshold: real)
    requires threshold > 0.0
    ensures ModelOk(SkewedModel(threshold))
  {
    var m := SkewedModel(threshold);
    ModelExists(m);
    assert m.(rank := SortOrder) == m;
  }

  lemma TakenScores(beams: nat, width: nat, threshold: real, stop: seq<Token>, weight: real, base: seq<Token>)
    requires threshold > 0.0
    ensures var m, c := SkewedModel(threshold), OneToken(beams, width, threshold, stop, weight);
      && Taken(m, c, base, 0).Proba(m) == 2.0 * threshold && Taken(m, c, base, 0).Score(m) == 2.0 * threshold
      && Taken(m, c, base, 1).Proba(m) == threshold / 2.0 && Taken(m, c, base, 1).Score(m) == threshold / 2.0
      && Taken(m, c, base, 2).Proba(m) == threshold && Taken(m, c, base, 2).Score(m) == threshold / 4.0
  {
    hide Extend, Beam.Proba, Beam.Score;
    TakenScore(beams, width, threshold, stop, weight, base, 0, 2.0 * threshold, 1.0);
    TakenScore(beams, width, threshold, stop, weight, base, 1, threshold / 2.0, 1.0);
    TakenScore(beams, width, threshold, stop, weight, base, 2, threshold, 4.0);
  }

  lemma TakenScore(beams: nat, width: nat, threshold: real, stop: seq<Token>, weight: real, base: seq<Token>,
                   k: Token, p: real, penalty: real)
    requires p == SkewedModel(threshold).proba(k as real, 1) && penalty == if k == 2 then 4.0 else 1.0
    ensures var m, c := SkewedModel(threshold), OneToken(beams, width, threshold, stop, weight);
      Taken(m, c, base, k).Proba(m) == p && Taken(m, c, base, k).Score(m) == p / penalty
  {
    var m, c := SkewedModel(threshold), OneToken(beams, width, threshold, stop, weight);
    TakenParts(m, c, base, k);
    SkewedParts(threshold, base, k, weight);
    hide SkewedModel, Extend;
    var b := Taken(m, c, base, k);
    assert b.cost == k as real && b.penalty == penalty;
  }

  lemma SkewedParts(threshold: real, base: seq<Token>, k: Token, weight: real)
    ensures var m := SkewedModel(threshold);
      m.cost(base, k) == k as real && m.repetition(base + [k], 1.0, weight) == if k == 2 then 4.0 else 1.0
  {
    assert (base + [k])[|base + [k]|-1] == k;
  }

  lemma TakenParts(m: Model, c: Params, base: seq<Token>, k: Token)
    requires c.repetition.Some?
    ensures var b := Taken(m, c, base, k);
      && |b.costs| == 1 && b.cost == m.cost(base, k) && b.diversity == 0.0
      && b.penalty == m.repetition(base + [k], 1.0, c.repetition.value)
  {
    hide EndsWith;
    assert base + [] == base && [] + [k] == [k];
  }

  /** Three distinct tokens below three are all of them. */
  lemma AllThree(toks: seq<Token>)
    requires |toks| == 3 && NoDup(toks) && forall t | t in toks :: 0 <= t < 3
    ensures 0 in toks && 1 in toks && 2 in toks
  {
    assert toks[0] in toks && toks[1] in toks && toks[2] in toks;
    assert toks[0] != toks[1] && toks[0] != toks[2] && toks[1] != toks[2];
  }

  lemma FirstRound(m: Model, c: Params, base: seq<Token>)
    requires ModelOk(m) && c.mask == [true, true, true] && c.beams >= 3 && forall t :: m.sampled(t)
    ensures HasThree(m, c, base, NextBeams(m, c, base, [START]))
  {
    hide ModelOk, Extend, TopK;
    assert [START][..0] == [] && NextBeams(m, c, base, []) == [];
    assert NextBeams(m, c, base, [START]) == Expand(m, c, base, START);
    var toks := TopK(m, c.mask, c.beams, base + START.tokens);
    TopKBest(m, c.mask, c.beams, base + START.tokens);
    ThreeCandidates(m, c.mask);
    AllThree(toks);
    forall k | 0 <= k < 3 ensures Taken(m, c, base, k) in Expand(m, c, base, START) {
      var i :| 0 <= i < |toks| && toks[i] == k;
      assert Expand(m, c, base, START)[i] == Taken(m, c, base, k);
    }
  }

  lemma ThreeCandidates(m: Model, mask: seq<bool>)
    requires mask == [true, true, true] && forall t :: m.sampled(t)
    ensures |Candidates(m, mask, |mask|)| == 3
  {
    assert |Candidates(m, mask, 0)| == 0;
    assert |Candidates(m, mask, 1)| == 1;
    assert |Candidates(m, mask, 2)| == 2;
  }

  lemma SortedHas(m: Model, bs: seq<Beam>, keys: seq<Key>)
    requires ModelOk(m) && |keys| == |bs|
    ensures forall b | b in bs :: b in Sorted(m, bs, keys)
  {
    var order := m.rank(keys);
    assert IsRanking(keys, order);
    forall b | b in bs ensures b in Sorted(m, bs, keys) {
      var i: nat :| i < |bs| && bs[i] == b;
      RankingCovers(keys, order, i);
      var j :| 0 <= j < |order| && order[j] == i;
      assert Pick(bs, order)[j] == b;
    }
  }

  lemma SortedThree(m: Model, c: Params, base: seq<Token>, bs: seq<Beam>, keys: seq<Key>)
    requires ModelOk(m) && |keys| == |bs| && HasThree(m, c, base, bs)
    ensures HasThree(m, c, base, Sorted(m, bs, keys))
  {
    hide ModelOk, Sorted, Taken;
    SortedHas(m, bs, keys);
    SortedSize(m, bs, keys);
  }

  /** If there is room for all, none is dropped. */
  lemma {:induction false} KeepAll(bs: seq<Beam>, k: nat)
    requires |bs| <= k
    ensures KeepFirst(bs, k) == bs
  {
    if bs != [] {
      KeepAll(bs[1..], if bs[0].stopped then k else k - 1);
      assert bs == [bs[0]] + bs[1..];
    }
  }

  lemma SearchThree(m: Model, c: Params, base: seq<Token>)
    requires ModelOk(m) && c.length == 1 && c.mask == [true, true, true] && c.beams >= 3 && c.diversity.None?
    requires forall t :: m.sampled(t)
    ensures HasThree(m, c, base, Completed(m, c, base))
  {
    hide ModelOk, NextBeams, Sorted, KeepFirst, HasThree;
    FirstRound(m, c, base);
    var next := NextBeams(m, c, base, [START]);
    SortedThree(m, c, base, next, PruneKeys(m, next));
    ThreeSize(m, c, base, Sorted(m, next, PruneKeys(m, next)));
    KeepAll(Sorted(m, next, PruneKeys(m, next)), c.beams);
    var r := Step(m, c, base, [START]);
    assert HasThree(m, c, base, r.beams);
    assert Search(m, c, base, r.beams, 0).beams == r.beams;
    SortedThree(m, c, base, r.beams, ScoreKeys(m, r.beams));
  }

  lemma ThreeSize(m: Model, c: Params, base: seq<Token>, bs: seq<Beam>)
    requires HasThree(m, c, base, bs)
    ensures |bs| == 3
  {
  }

  /** It does happen, for every threshold above zero and every width from three on: the second result falls below the
      threshold, and the third, with a lower score but a higher probability, is kept. */
  lemma KeptNotFirst(ps: seq<PreparedAction>, a: PreparedAction, ctx: seq<Token>, beams: nat, width: nat, threshold: real,
                     stop: seq<Token>, weight: real)
    requires beams >= 3 && width >= 3 && threshold > 0.0 && a.body == Free(OneToken(beams, width, threshold, stop, weight))
    requires |a.successors| == 1 && a.successors[0] < |ps|
    ensures var m := SkewedModel(threshold);
      && ModelOk(m) && ActionPlayable(m, ps, a)
      && var chs := Children(m, ps, a, ctx);
        |chs| == 3 && !chs[0].pruned && chs[1].pruned && !chs[2].pruned
  {
    hide ModelOk, Completed, Extend, Beam.Proba, Beam.Score;
    var m, c := SkewedModel(threshold), a.body.params;
    SkewedOk(threshold);
    assert c.mask[0] && m.sampled(0);
    SearchThree(m, c, ctx);
    CompletedRanked(m, c, ctx);
    TakenScores(beams, width, threshold, stop, weight, ctx);
    var bs := Completed(m, c, ctx);
    InScoreOrder(m, bs, Taken(m, c, ctx, 0), Taken(m, c, ctx, 1), Taken(m, c, ctx, 2));
    CompletionChild(m, ps, a, ctx);
  }

  lemma InScoreOrder(m: Model, bs: seq<Beam>, a: Beam, b: Beam, c: Beam)
    requires |bs| == 3 && a in bs && b in bs && c in bs && RankedByScore(m, bs)
    requires a.Score(m) > b.Score(m) > c.Score(m)
    ensures bs == [a, b, c]
  {
    hide Beam.Score;
    var i :| 0 <= i < 3 && bs[i] == a;
    var j :| 0 <= j < 3 && bs[j] == b;
    var k :| 0 <= k < 3 && bs[k] == c;
    assert i < j < k;
  }
}
