/** The language model as an oracle, the masks that restrict it, and the selection of its best tokens. */
module Sampling {
  import opened Traversal

  type Token = int

  /** A sort key: stopped beams come first, then the higher score. */
  datatype Key = Key(first: bool, score: real)

  /** What the evaluator asks of a model and of the libraries around it. Everything is a function of the
      tokens seen so far. cost is a negative log probability; rank is the order a sort by descending key gives;
      overZero is what a division by zero yields. */
  datatype Model = Model(
    vocabSize: nat,
    sampled: Token -> bool,
    cost: (seq<Token>, Token) -> real,
    proba: (real, nat) -> real,
    overZero: real -> real,
    repetition: (seq<Token>, real, real) -> real,
    diversity: (seq<seq<Token>>, nat, real) -> real,
    rank: seq<Key> -> seq<nat>)

  predicate Ahead(a: Key, b: Key) {
    (a.first && !b.first) || (a.first == b.first && a.score >= b.score)
  }

  /** order lists every index once, and no key comes before one that should be ahead of it. */
  ghost predicate IsRanking(keys: seq<Key>, order: seq<nat>) {
    && |order| == |keys| && NoDup(order)
    && (forall i :: 0 <= i < |order| ==> order[i] < |keys|)
    && forall i, j :: 0 <= i < j < |order| ==> Ahead(keys[order[i]], keys[order[j]])
  }

  ghost predicate ModelOk(m: Model) {
    && (forall keys :: IsRanking(keys, m.rank(keys)))
    && forall c, n :: m.proba(c, n) >= 0.0
  }

  /** The costs of a sequence of tokens, one after the other. */
  function Costs(m: Model, ctx: seq<Token>, toks: seq<Token>): (r: seq<real>)
    ensures |r| == |toks|
  {
    seq(|toks|, i requires 0 <= i < |toks| => m.cost(ctx + toks[..i], toks[i]))
  }

  /** Every token is charged after the context and the tokens before it. */
  ghost predicate Charged(m: Model, ctx: seq<Token>, text: seq<Token>, costs: seq<real>) {
    |costs| == |text| && forall i :: 0 <= i < |text| ==> costs[i] == m.cost(ctx + text[..i], text[i])
  }

  /** Costs is the one way of charging that charges a single token after the context, and the rest of a text after what
      stands before it. */
  lemma CostsCharge(m: Model, ctx: seq<Token>, a: seq<Token>, b: seq<Token>, t: Token)
    ensures Charged(m, ctx, a, Costs(m, ctx, a))
    ensures Costs(m, ctx, [t]) == [m.cost(ctx, t)]
    ensures Costs(m, ctx, a + b) == Costs(m, ctx, a) + Costs(m, ctx + a, b)
  {
    assert ctx + [] == ctx && [t][..0] == [];
    var all, parts := Costs(m, ctx, a + b), Costs(m, ctx, a) + Costs(m, ctx + a, b);
    forall i | 0 <= i < |a + b| ensures all[i] == parts[i] {
      if i < |a| {
        assert (a + b)[..i] == a[..i];
      } else {
        assert ctx + (a + b)[..i] == (ctx + a) + b[..i - |a|];
      }
    }
  }

  lemma ChargedMore(m: Model, ctx: seq<Token>, text: seq<Token>, costs: seq<real>, t: Token)
    requires Charged(m, ctx, text, costs)
    ensures Charged(m, ctx, text + [t], costs + [m.cost(ctx + text, t)])
  {
    var more := text + [t];
    forall i | 0 <= i < |more| ensures (costs + [m.cost(ctx + text, t)])[i] == m.cost(ctx + more[..i], more[i]) {
      assert more[..i] == text[..i];
    }
  }

  function Sum(cs: seq<real>): real {
    if cs == [] then 0.0 else Sum(cs[..|cs|-1]) + cs[|cs|-1]
  }

  function Proba(m: Model, cs: seq<real>): real {
    if cs == [] then 0.0 else m.proba(Sum(cs), |cs|)
  }

  /** What it costs to say text after ctx. */
  function CostOf(m: Model, ctx: seq<Token>, text: seq<Token>): real
    decreases |text|
  {
    if text == [] then 0.0 else m.cost(ctx, text[0]) + CostOf(m, ctx + [text[0]], text[1..])
  }

  /** How likely text is after ctx, judged by its whole cost and the number of its tokens; an empty one is not at all. */
  function Likely(m: Model, ctx: seq<Token>, text: seq<Token>): real {
    if text == [] then 0.0 else m.proba(CostOf(m, ctx, text), |text|)
  }

  lemma {:induction false} CostOfMore(m: Model, ctx: seq<Token>, text: seq<Token>, t: Token)
    ensures CostOf(m, ctx, text + [t]) == CostOf(m, ctx, text) + m.cost(ctx + text, t)
    decreases |text|
  {
    if text == [] {
      assert ctx + [] == ctx && ([t])[1..] == [] && text + [t] == [t];
    } else {
      assert (text + [t])[1..] == text[1..] + [t] && (ctx + [text[0]]) + text[1..] == ctx + text;
      CostOfMore(m, ctx + [text[0]], text[1..], t);
    }
  }

  /** The probability computed from the costs charged for a text is how likely the text is. */
  lemma {:induction false} ChargedLikely(m: Model, ctx: seq<Token>, text: seq<Token>, costs: seq<real>)
    requires Charged(m, ctx, text, costs)
    ensures Sum(costs) == CostOf(m, ctx, text) && Proba(m, costs) == Likely(m, ctx, text)
    decreases |text|
  {
    if text != [] {
      var n := |text| - 1;
      forall i | 0 <= i < n ensures costs[..n][i] == m.cost(ctx + text[..n][..i], text[..n][i]) {
        assert text[..n][..i] == text[..i];
      }
      ChargedLikely(m, ctx, text[..n], costs[..n]);
      assert text == text[..n] + [text[n]];
      CostOfMore(m, ctx, text[..n], text[n]);
    }
  }

  // ---- Rankings -------------------------------------------------------------------------------------

  function Below(n: nat): set<nat> {
    if n == 0 then {} else Below(n - 1) + {n - 1}
  }

  lemma {:induction false} BelowIs(n: nat)
    ensures |Below(n)| == n && forall k: nat :: k in Below(n) <==> k < n
  {
    if n > 0 { BelowIs(n - 1); }
  }

  /** A ranking misses no index. */
  lemma RankingCovers(keys: seq<Key>, order: seq<nat>, i: nat)
    requires IsRanking(keys, order) && i < |keys|
    ensures i in order
  {
    BelowIs(|keys|);
    if i !in order {
      DistinctCount(order, Below(|keys|) - {i});
    }
  }

  /** A sequence without repetitions is no longer than the set it is drawn from. */
  lemma {:induction false} DistinctCount<T>(s: seq<T>, within: set<T>)
    requires NoDup(s) && forall x | x in s :: x in within
    ensures |s| <= |within|
  {
    if s != [] {
      var last := s[|s|-1];
      var front := s[..|s|-1];
      forall x | x in front ensures x in within - {last} {
        var i :| 0 <= i < |front| && front[i] == x;
      }
      DistinctCount(front, within - {last});
    }
  }

  // ---- Rankings exist ---------------------------------------------------------------------------------

  /** k in front of the first index whose key it is ahead of. */
  function Insert(keys: seq<Key>, order: seq<nat>, k: nat): (r: seq<nat>)
    requires k < |keys| && Within(keys, order)
    ensures |r| == |order| + 1 && Within(keys, r) && forall x :: x in r <==> x == k || x in order
  {
    if order == [] then [k]
    else if Ahead(keys[k], keys[order[0]]) then [k] + order
    else [order[0]] + Insert(keys, order[1..], k)
  }

  ghost predicate Within(keys: seq<Key>, order: seq<nat>) {
    forall i :: 0 <= i < |order| ==> order[i] < |keys|
  }

  /** The first n indices, sorted by insertion. */
  function InsertAll(keys: seq<Key>, n: nat): (r: seq<nat>)
    requires n <= |keys|
    ensures |r| == n && Within(keys, r) && forall x: nat :: x in r <==> x < n
  {
    if n == 0 then [] else Insert(keys, InsertAll(keys, n - 1), n - 1)
  }

  ghost predicate InOrder(keys: seq<Key>, order: seq<nat>) {
    && NoDup(order) && Within(keys, order)
    && forall i, j :: 0 <= i < j < |order| ==> Ahead(keys[order[i]], keys[order[j]])
  }

  lemma {:induction false} InsertInOrder(keys: seq<Key>, order: seq<nat>, k: nat)
    requires InOrder(keys, order) && k < |keys| && k !in order
    ensures InOrder(keys, Insert(keys, order, k))
    decreases |order|
  {
    if order != [] {
      var rest := order[1..];
      var r := if Ahead(keys[k], keys[order[0]]) then order else Insert(keys, rest, k);
      var x := if Ahead(keys[k], keys[order[0]]) then k else order[0];
      if !Ahead(keys[k], keys[order[0]]) { InsertInOrder(keys, rest, k); }
      assert Insert(keys, order, k) == [x] + r;
      forall i | 0 <= i < |r| ensures x != r[i] && Ahead(keys[x], keys[r[i]]) {
        assert r[i] in r;
        if r[i] != k { var j :| 0 <= j < |order| && order[j] == r[i]; }
      }
      hide Insert;
      ConsInOrder(keys, x, r);
    }
  }

  lemma ConsInOrder(keys: seq<Key>, x: nat, r: seq<nat>)
    requires InOrder(keys, r) && x < |keys|
    requires forall i :: 0 <= i < |r| ==> r[i] != x && Ahead(keys[x], keys[r[i]])
    ensures InOrder(keys, [x] + r)
  {
    hide Ahead;
  }

  lemma {:induction false} InsertAllInOrder(keys: seq<Key>, n: nat)
    requires n <= |keys|
    ensures InOrder(keys, InsertAll(keys, n))
  {
    if n > 0 {
      InsertAllInOrder(keys, n - 1);
      InsertInOrder(keys, InsertAll(keys, n - 1), n - 1);
    }
  }

  function SortOrder(keys: seq<Key>): seq<nat> {
    InsertAll(keys, |keys|)
  }

  /** Nothing is asked of a model that cannot be had: whatever its other parts are, a sort gives it a ranking. */
  lemma ModelExists(m: Model)
    requires forall c, n :: m.proba(c, n) >= 0.0
    ensures ModelOk(m.(rank := SortOrder))
  {
    forall keys ensures IsRanking(keys, SortOrder(keys)) {
      InsertAllInOrder(keys, |keys|);
      hide InsertAll, Ahead;
      assert forall i :: 0 <= i < |keys| ==> SortOrder(keys)[i] in SortOrder(keys);
    }
  }

  // ---- Vocabulary masks ---------------------------------------------------------------------------------

  datatype VocabExpr =
    | Tokenize(strings: seq<string>)
    | Regex(pattern: string)
    | Union(left: VocabExpr, right: VocabExpr)
    | Intersect(left: VocabExpr, right: VocabExpr)
    | Diff(left: VocabExpr, right: VocabExpr)
    | Complement(operand: VocabExpr)

  /** The tokenizer and the pattern matcher. */
  datatype Lexicon = Lexicon(tokenize: string -> seq<Token>, matches: (string, Token) -> bool)

  /** The set of tokens an expression denotes. */
  ghost predicate Denotes(lx: Lexicon, ve: VocabExpr, t: Token) {
    match ve
    case Tokenize(ss) => exists s :: s in ss && t in lx.tokenize(s)
    case Regex(p) => lx.matches(p, t)
    case Union(a, b) => Denotes(lx, a, t) || Denotes(lx, b, t)
    case Intersect(a, b) => Denotes(lx, a, t) && Denotes(lx, b, t)
    case Diff(a, b) => Denotes(lx, a, t) && !Denotes(lx, b, t)
    case Complement(a) => !Denotes(lx, a, t)
  }

  /** The tokens of a vocabulary of n that the expression denotes. */
  ghost function Denoted(lx: Lexicon, ve: VocabExpr, n: nat): set<Token> {
    set t: Token | 0 <= t < n && Denotes(lx, ve, t)
  }

  /** The operators are those of sets, complements being taken in the vocabulary; several texts give the tokens of all. */
  lemma SetAlgebra(lx: Lexicon, a: VocabExpr, b: VocabExpr, ss: seq<string>, s: string, n: nat)
    ensures Denoted(lx, Union(a, b), n) == Denoted(lx, a, n) + Denoted(lx, b, n)
    ensures Denoted(lx, Intersect(a, b), n) == Denoted(lx, a, n) * Denoted(lx, b, n)
    ensures Denoted(lx, Diff(a, b), n) == Denoted(lx, a, n) - Denoted(lx, b, n)
    ensures Denoted(lx, Complement(a), n) !! Denoted(lx, a, n)
    ensures forall t: Token :: t in Denoted(lx, Complement(a), n) + Denoted(lx, a, n) <==> 0 <= t < n
    ensures Denoted(lx, Tokenize(ss + [s]), n) ==
      Denoted(lx, Tokenize(ss), n) + (set t: Token | t in lx.tokenize(s) && 0 <= t < n)
    ensures Denoted(lx, Tokenize([]), n) == {}
  {
    forall t: Token ensures Denotes(lx, Tokenize(ss + [s]), t) <==> Denotes(lx, Tokenize(ss), t) || t in lx.tokenize(s) {
      assert s in ss + [s];
    }
  }

  /** build_vocab_mask: operands are built first and combined in place. */
  method BuildVocabMask(lx: Lexicon, n: nat, ve: VocabExpr) returns (m: array<bool>)
    ensures fresh(m) && m.Length == n
    ensures forall t :: 0 <= t < n ==> (m[t] <==> Denotes(lx, ve, t))
    decreases ve
  {
    match ve
    case Tokenize(strings) =>
      m := new bool[n](_ => false);
      for i := 0 to |strings|
        invariant forall t :: 0 <= t < n ==> (m[t] <==> exists s :: s in strings[..i] && t in lx.tokenize(s))
      {
        MarkTokens(lx.tokenize(strings[i]), m);
        assert strings[..i+1] == strings[..i] + [strings[i]];
      }
      assert strings[..|strings|] == strings;
    case Regex(pattern) =>
      m := new bool[n](_ => false);
      for t := 0 to n
        invariant forall k :: 0 <= k < t ==> (m[k] <==> lx.matches(pattern, k))
        invariant forall k :: t <= k < n ==> !m[k]
      {
        if lx.matches(pattern, t) { m[t] := true; }
      }
    case Union(left, right) =>
      m := BuildVocabMask(lx, n, left);
      var b := BuildVocabMask(lx, n, right);
      OrInto(m, b);
    case Intersect(left, right) =>
      m := BuildVocabMask(lx, n, left);
      var b := BuildVocabMask(lx, n, right);
      AndInto(m, b);
    case Diff(left, right) =>
      m := BuildVocabMask(lx, n, left);
      var b := BuildVocabMask(lx, n, right);
      AndNotInto(m, b);
    case Complement(operand) =>
      m := BuildVocabMask(lx, n, operand);
      Flip(m);
  }

  method OrInto(a: array<bool>, b: array<bool>)
    requires a != b && a.Length == b.Length
    modifies a
    ensures forall t :: 0 <= t < a.Length ==> (a[t] <==> old(a[t]) || b[t])
  {
    for i := 0 to a.Length
      invariant forall t :: 0 <= t < i ==> (a[t] <==> old(a[t]) || b[t])
      invariant forall t :: i <= t < a.Length ==> a[t] == old(a[t])
    {
      a[i] := a[i] || b[i];
    }
  }

  method AndInto(a: array<bool>, b: array<bool>)
    requires a != b && a.Length == b.Length
    modifies a
    ensures forall t :: 0 <= t < a.Length ==> (a[t] <==> old(a[t]) && b[t])
  {
    for i := 0 to a.Length
      invariant forall t :: 0 <= t < i ==> (a[t] <==> old(a[t]) && b[t])
      invariant forall t :: i <= t < a.Length ==> a[t] == old(a[t])
    {
      a[i] := a[i] && b[i];
    }
  }

  method AndNotInto(a: array<bool>, b: array<bool>)
    requires a != b && a.Length == b.Length
    modifies a
    ensures forall t :: 0 <= t < a.Length ==> (a[t] <==> old(a[t]) && !b[t])
  {
    for i := 0 to a.Length
      invariant forall t :: 0 <= t < i ==> (a[t] <==> old(a[t]) && !b[t])
      invariant forall t :: i <= t < a.Length ==> a[t] == old(a[t])
    {
      a[i] := a[i] && !b[i];
    }
  }

  method Flip(a: array<bool>)
    modifies a
    ensures forall t :: 0 <= t < a.Length ==> a[t] == !old(a[t])
  {
    for i := 0 to a.Length
      invariant forall t :: 0 <= t < i ==> a[t] == !old(a[t])
      invariant forall t :: i <= t < a.Length ==> a[t] == old(a[t])
    {
      a[i] := !a[i];
    }
  }

  /** Mark the tokens of one string; those outside the vocabulary are ignored. */
  method MarkTokens(toks: seq<Token>, m: array<bool>)
    modifies m
    ensures forall t :: 0 <= t < m.Length ==> (m[t] <==> old(m[t]) || t in toks)
  {
    for j := 0 to |toks|
      invariant forall t :: 0 <= t < m.Length ==> (m[t] <==> old(m[t]) || t in toks[..j])
    {
      if 0 <= toks[j] < m.Length { m[toks[j]] := true; }
      assert toks[..j+1] == toks[..j] + [toks[j]];
    }
    assert toks[..|toks|] == toks;
  }

  // ---- The best tokens under a mask -----------------------------------------------------------------------

  /** The tokens below n that the mask admits and the model samples, in ascending order. */
  function Candidates(m: Model, mask: seq<bool>, n: nat): (r: seq<Token>)
    requires n <= |mask|
    ensures forall t :: t in r <==> 0 <= t < n && mask[t] && m.sampled(t)
    ensures NoDup(r)
  {
    if n == 0 then []
    else
      var rest := Candidates(m, mask, n - 1);
      if mask[n-1] && m.sampled(n - 1) then rest + [n - 1] else rest
  }

  function CostKeys(m: Model, ctx: seq<Token>, cs: seq<Token>): (r: seq<Key>)
    ensures |r| == |cs|
  {
    seq(|cs|, i requires 0 <= i < |cs| => Key(false, -m.cost(ctx, cs[i])))
  }

  function Pick<T>(s: seq<T>, order: seq<nat>): (r: seq<T>)
    requires forall i :: 0 <= i < |order| ==> order[i] < |s|
    ensures |r| == |order|
  {
    seq(|order|, i requires 0 <= i < |order| => s[order[i]])
  }

  /** The k cheapest candidates, cheapest first. */
  function TopK(m: Model, mask: seq<bool>, k: nat, ctx: seq<Token>): seq<Token>
    requires ModelOk(m)
  {
    var cs := Candidates(m, mask, |mask|);
    var keys := CostKeys(m, ctx, cs);
    assert IsRanking(keys, m.rank(keys));
    var sorted := Pick(cs, m.rank(keys));
    if k < |sorted| then sorted[..k] else sorted
  }

  lemma CandidatesEmpty(m: Model, mask: seq<bool>)
    ensures Candidates(m, mask, |mask|) != [] <==> exists t :: 0 <= t < |mask| && mask[t] && m.sampled(t)
  {
    var cs := Candidates(m, mask, |mask|);
    if cs != [] {
      var t := cs[0];
      assert t in cs;
      assert 0 <= t < |mask| && mask[t] && m.sampled(t);
    }
    if t :| 0 <= t < |mask| && mask[t] && m.sampled(t) {
      assert t in cs;
    }
  }

  /** eval_topk_tokens: gather the candidates, sort them by cost, keep the first. There is an error exactly
      when no token is left to choose from. */
  method EvalTopkTokens(m: Model, mask: seq<bool>, maxCandidates: nat, ctx: seq<Token>)
    returns (ok: bool, tokens: seq<Token>, costs: seq<real>)
    requires ModelOk(m)
    ensures ok <==> exists t :: 0 <= t < |mask| && mask[t] && m.sampled(t)
    ensures ok ==> tokens == TopK(m, mask, maxCandidates, ctx) && |costs| == |tokens|
    ensures ok ==> forall i :: 0 <= i < |tokens| ==> costs[i] == m.cost(ctx, tokens[i])
  {
    var candidates: seq<Token> := [];
    for tok := 0 to |mask|
      invariant candidates == Candidates(m, mask, tok)
    {
      if mask[tok] && m.sampled(tok) { candidates := candidates + [tok]; }
    }
    CandidatesEmpty(m, mask);
    tokens, costs := [], [];
    if candidates == [] {
      return false, [], [];
    }
    var keys := CostKeys(m, ctx, candidates);
    assert IsRanking(keys, m.rank(keys));
    candidates := Pick(candidates, m.rank(keys));
    var k := if maxCandidates < |candidates| then maxCandidates else |candidates|;
    for i := 0 to k
      invariant tokens == candidates[..i] && |costs| == i
      invariant forall j :: 0 <= j < i ==> costs[j] == m.cost(ctx, tokens[j])
    {
      tokens, costs := tokens + [candidates[i]], costs + [m.cost(ctx, candidates[i])];
    }
    assert candidates[..|candidates|] == candidates;
    return true, tokens, costs;
  }

  lemma SortedPick(m: Model, ctx: seq<Token>, cs: seq<Token>, order: seq<nat>)
    requires NoDup(cs) && IsRanking(CostKeys(m, ctx, cs), order)
    ensures var sorted := Pick(cs, order);
      && |sorted| == |cs| && NoDup(sorted) && (forall t :: t in sorted <==> t in cs)
      && forall i, j :: 0 <= i < j < |sorted| ==> m.cost(ctx, sorted[i]) <= m.cost(ctx, sorted[j])
  {
    var keys := CostKeys(m, ctx, cs);
    var sorted := Pick(cs, order);
    forall i, j | 0 <= i < j < |sorted| ensures sorted[i] != sorted[j] && m.cost(ctx, sorted[i]) <= m.cost(ctx, sorted[j]) {
      assert Ahead(keys[order[i]], keys[order[j]]);
    }
    forall t | t in cs ensures t in sorted {
      var c: nat :| c < |cs| && cs[c] == t;
      RankingCovers(keys, order, c);
      var j :| 0 <= j < |order| && order[j] == c;
      assert sorted[j] == t;
    }
    forall t | t in sorted ensures t in cs {
      var j :| 0 <= j < |sorted| && sorted[j] == t;
    }
  }

  /** The chosen tokens are admitted and distinct, as many as asked for as far as there are any, and no
      admitted token that was left out is cheaper than a chosen one. */
  lemma TopKBest(m: Model, mask: seq<bool>, k: nat, ctx: seq<Token>)
    requires ModelOk(m)
    ensures var r := TopK(m, mask, k, ctx); var n := |Candidates(m, mask, |mask|)|;
      && NoDup(r) && (forall t | t in r :: 0 <= t < |mask| && mask[t] && m.sampled(t))
      && |r| == (if k < n then k else n)
      && forall t, u | t in r && u !in r && 0 <= u < |mask| && mask[u] && m.sampled(u) :: m.cost(ctx, t) <= m.cost(ctx, u)
  {
    var cs := Candidates(m, mask, |mask|);
    var order := m.rank(CostKeys(m, ctx, cs));
    assert IsRanking(CostKeys(m, ctx, cs), order);
    SortedPick(m, ctx, cs, order);
    hide IsRanking, CostKeys, Candidates;
    var sorted := Pick(cs, order);
    hide Pick;
    var r := TopK(m, mask, k, ctx);
    assert r == if k < |sorted| then sorted[..k] else sorted;
    assert forall j :: 0 <= j < |r| ==> r[j] == sorted[j];
    forall t | t in r ensures t in sorted {
      var i :| 0 <= i < |r| && r[i] == t;
      assert sorted[i] == t;
    }
    forall t, u | t in r && u !in r && 0 <= u < |mask| && mask[u] && m.sampled(u)
      ensures m.cost(ctx, t) <= m.cost(ctx, u)
    {
      var i :| 0 <= i < |r| && r[i] == t;
      assert u in sorted;
      var j :| 0 <= j < |sorted| && sorted[j] == u;
    }
  }
}
