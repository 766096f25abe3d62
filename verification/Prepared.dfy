/** Binding an automaton to a model: successors become indices, texts become tokens. */
module Prepared {
  import opened Schema
  import opened Sampling
  import opened BeamSearch
  import opened Fta
  import opened FtaBuilder

  datatype PreparedBody =
    | Fixed(tokens: seq<Token>, evaluate: bool)
    | Free(params: Params)
    | Select(choices: seq<seq<Token>>, width: nat, threshold: real)

  datatype PreparedAction = PreparedAction(
    uid: Uid,
    field: Option<int>,
    indices: seq<int>,
    successors: seq<nat>,
    body: PreparedBody)

  datatype Outcome =
    | Ready(actions: seq<PreparedAction>)
    | UnknownSuccessor(at: nat, uid: Uid)
    | UnknownVocab(at: nat, ref: string)

  /** The model's tokenizer and vocabulary size, and the vocabularies the automaton carries. */
  datatype Binding = Binding(lexicon: Lexicon, vocabSize: nat, vocabs: map<string, VocabExpr>)

  // ---- What preparing an action means ---------------------------------------------------------------------

  ghost predicate MaskOf(bd: Binding, vocab: Option<string>, mask: seq<bool>) {
    && |mask| == bd.vocabSize
    && match vocab
       case None => forall t :: 0 <= t < |mask| ==> mask[t]
       case Some(ref) => ref in bd.vocabs && forall t :: 0 <= t < |mask| ==> (mask[t] <==> Denotes(bd.lexicon, bd.vocabs[ref], t))
  }

  /** The empty text is not tokenized. */
  function TokensOf(bd: Binding, text: string): seq<Token> {
    if text == [] then [] else bd.lexicon.tokenize(text)
  }

  function TokensOfAll(bd: Binding, texts: seq<string>): (r: seq<seq<Token>>)
    ensures |r| == |texts|
  {
    seq(|texts|, i requires 0 <= i < |texts| => bd.lexicon.tokenize(texts[i]))
  }

  ghost predicate BodyOf(bd: Binding, b: Body, p: PreparedBody) {
    match b
    case Text(text, evaluate) => p == Fixed(TokensOf(bd, text), evaluate)
    case Complete(length, ts, stop, vocab) =>
      p.Free? && MaskOf(bd, vocab, p.params.mask) &&
      p.params == Params(length, ts.beams, ts.width, ts.threshold, bd.lexicon.tokenize(stop),
                                 p.params.mask, ts.repetition, ts.diversity)
    case Choose(choices, width, threshold) => p == Select(TokensOfAll(bd, choices), width, threshold)
  }

  /** Index k is the first action of that uid. */
  ghost predicate FirstOf(actions: seq<Action>, uid: Uid, k: nat) {
    k < |actions| && actions[k].uid == uid && forall j :: 0 <= j < k ==> actions[j].uid != uid
  }

  ghost predicate SuccessorsOf(actions: seq<Action>, uids: seq<Uid>, ks: seq<nat>) {
    |ks| == |uids| && forall j :: 0 <= j < |ks| ==> FirstOf(actions, uids[j], ks[j])
  }

  ghost predicate PreparedOf(bd: Binding, actions: seq<Action>, a: Action, p: PreparedAction) {
    && p.uid == a.uid && p.field == a.field && p.indices == a.indices
    && SuccessorsOf(actions, a.successors, p.successors)
    && BodyOf(bd, a.body, p.body)
  }

  ghost predicate AllPrepared(bd: Binding, actions: seq<Action>, ps: seq<PreparedAction>) {
    |ps| == |actions| && forall i :: 0 <= i < |ps| ==> PreparedOf(bd, actions, actions[i], ps[i])
  }

  predicate VocabKnown(bd: Binding, b: Body) {
    b.Complete? && b.vocab.Some? ==> b.vocab.value in bd.vocabs
  }

  // ---- The methods ------------------------------------------------------------------------------------------

  /** The index of every uid; a uid that occurs twice keeps its first index. */
  method IndexUids(actions: seq<Action>) returns (index: map<Uid, nat>)
    ensures forall uid :: uid in index <==> uid in Uids(actions)
    ensures forall uid | uid in index :: FirstOf(actions, uid, index[uid])
  {
    index := map[];
    for i := 0 to |actions|
      invariant forall uid :: uid in index <==> uid in Uids(actions[..i])
      invariant forall uid | uid in index :: FirstOf(actions, uid, index[uid])
    {
      UidsMore(actions, i);
      if actions[i].uid !in index {
        NotYet(actions, i);
        index := index[actions[i].uid := i];
      }
    }
    assert actions[..|actions|] == actions;
  }

  lemma UidsMore(actions: seq<Action>, i: nat)
    requires i < |actions|
    ensures Uids(actions[..i+1]) == Uids(actions[..i]) + [actions[i].uid]
  {
  }

  lemma NotYet(actions: seq<Action>, i: nat)
    requires i < |actions| && actions[i].uid !in Uids(actions[..i])
    ensures FirstOf(actions, actions[i].uid, i)
  {
    forall j | 0 <= j < i ensures actions[j].uid != actions[i].uid {
      assert Uids(actions[..i])[j] == actions[j].uid;
    }
  }

  /** uid is the first of the uids that names no action. */
  ghost predicate FirstUnknown(actions: seq<Action>, uids: seq<Uid>, uid: Uid) {
    exists j :: 0 <= j < |uids| && uids[j] == uid && uid !in Uids(actions) && forall i :: 0 <= i < j ==> uids[i] in Uids(actions)
  }

  /** Every successor names an action, and the vocabulary is in the table. */
  ghost predicate Preparable(bd: Binding, actions: seq<Action>, a: Action) {
    VocabKnown(bd, a.body) && forall s | s in a.successors :: s in Uids(actions)
  }

  lemma ResolvedKnown(actions: seq<Action>, uids: seq<Uid>, ks: seq<nat>)
    requires SuccessorsOf(actions, uids, ks)
    ensures forall s | s in uids :: s in Uids(actions)
  {
    forall s | s in uids ensures s in Uids(actions) {
      var j :| 0 <= j < |uids| && uids[j] == s;
      assert FirstOf(actions, uids[j], ks[j]);
      assert Uids(actions)[ks[j]] == s;
    }
  }

  method ResolveSuccessors(actions: seq<Action>, index: map<Uid, nat>, uids: seq<Uid>)
    returns (unknown: Option<Uid>, ks: seq<nat>)
    requires forall uid :: uid in index <==> uid in Uids(actions)
    requires forall uid | uid in index :: FirstOf(actions, uid, index[uid])
    ensures unknown.None? ==> SuccessorsOf(actions, uids, ks)
    ensures unknown.Some? ==> FirstUnknown(actions, uids, unknown.value)
  {
    hide FirstOf;
    ks := [];
    for j := 0 to |uids|
      invariant SuccessorsOf(actions, uids[..j], ks) && forall i :: 0 <= i < j ==> uids[i] in Uids(actions)
    {
      if uids[j] !in index { return Some(uids[j]), ks; }
      ks := ks + [index[uids[j]]];
      assert uids[..j+1] == uids[..j] + [uids[j]];
    }
    assert uids[..|uids|] == uids;
    return None, ks;
  }

  method PrepareBody(bd: Binding, b: Body) returns (p: PreparedBody)
    requires VocabKnown(bd, b)
    ensures BodyOf(bd, b, p)
  {
    match b
    case Text(text, evaluate) =>
      p := Fixed(TokensOf(bd, text), evaluate);
    case Complete(length, ts, stop, vocab) =>
      var mask: array<bool>;
      if vocab.Some? {
        mask := BuildVocabMask(bd.lexicon, bd.vocabSize, bd.vocabs[vocab.value]);
      } else {
        mask := new bool[bd.vocabSize](_ => true);
      }
      p := Free(Params(length, ts.beams, ts.width, ts.threshold, bd.lexicon.tokenize(stop), mask[..],
                           ts.repetition, ts.diversity));
    case Choose(choices, width, threshold) =>
      var tokens: seq<seq<Token>> := [];
      for i := 0 to |choices|
        invariant tokens == TokensOfAll(bd, choices[..i])
      {
        tokens := tokens + [bd.lexicon.tokenize(choices[i])];
        assert choices[..i+1] == choices[..i] + [choices[i]];
      }
      assert choices[..|choices|] == choices;
      p := Select(tokens, width, threshold);
  }

  /** prepare: it fails exactly when some successor names no action or some vocabulary is not in the table, and
      reports the first such case, the successors of an action before its vocabulary. */
  method Prepare(bd: Binding, actions: seq<Action>) returns (r: Outcome)
    ensures r.Ready? ==> AllPrepared(bd, actions, r.actions)
    ensures r.Ready? <==> forall i :: 0 <= i < |actions| ==> Preparable(bd, actions, actions[i])
    ensures !r.Ready? ==> r.at < |actions| && forall i :: 0 <= i < r.at ==> Preparable(bd, actions, actions[i])
    ensures r.UnknownSuccessor? ==> FirstUnknown(actions, actions[r.at].successors, r.uid)
    ensures r.UnknownVocab? ==>
      && (forall s | s in actions[r.at].successors :: s in Uids(actions))
      && !VocabKnown(bd, actions[r.at].body) && actions[r.at].body.vocab == Some(r.ref)
  {
    hide BodyOf, SuccessorsOf, FirstOf;
    var index := IndexUids(actions);
    var ps: seq<PreparedAction> := [];
    for i := 0 to |actions|
      invariant |ps| == i && forall k :: 0 <= k < i ==> PreparedOf(bd, actions, actions[k], ps[k])
      invariant forall k :: 0 <= k < i ==> Preparable(bd, actions, actions[k])
    {
      var a := actions[i];
      var unknown, ks := ResolveSuccessors(actions, index, a.successors);
      if unknown.Some? {
        assert !Preparable(bd, actions, a);
        return UnknownSuccessor(i, unknown.value);
      }
      ResolvedKnown(actions, a.successors, ks);
      var known := VocabKnown(bd, a.body);
      if !known {
        assert !Preparable(bd, actions, a);
        return UnknownVocab(i, VocabRef(a.body));
      }
      var body := PrepareBody(bd, a.body);
      ps := ps + [PreparedAction(a.uid, a.field, a.indices, ks, body)];
    }
    return Ready(ps);
  }

  function VocabRef(b: Body): string {
    if b.Complete? && b.vocab.Some? then b.vocab.value else ""
  }
}
