/** The in-place clean-up of the raw state graph: drop the list tails, move their incoming exits on,
    and give every state the states that can follow it as successors. */
module CleanUp {
  import opened Schema
  import opened Traversal
  import opened Concretize
  import opened LinearGraph

  // ---- Step 1: flows and exits become successors ---------------------------------------

  function Merged(c: ConcreteState): ConcreteState {
    if c.flows != [] then c.(successors := c.successors + [c.flows[0]], flows := [])
    else if c.exits != [] && c.exits[0] != ROOT then c.(successors := c.successors + [c.exits[0]], exits := [])
    else c
  }

  method MergeEdges(g: StateGraph)
    modifies g
    ensures g.states.Keys == old(g.states).Keys
    ensures forall t | t in g.states :: g.states[t] == Merged(old(g.states)[t])
  {
    ghost var before := g.states;
    var todo := g.states.Keys;
    while todo != {}
      invariant todo <= g.states.Keys == before.Keys
      invariant forall t | t in todo :: g.states[t] == before[t]
      invariant forall t | t in g.states && t !in todo :: g.states[t] == Merged(before[t])
      decreases todo
    {
      var t :| t in todo;
      var state := g.states[t];
      if state.flows != [] {
        state := state.(successors := state.successors + [state.flows[0]]);
        state := state.(flows := []);
      } else if state.exits != [] {
        if state.exits[0] != ROOT {
          state := state.(successors := state.successors + [state.exits[0]]);
          state := state.(exits := []);
        }
      }
      g.states := g.states[t := state];
      todo := todo - {t};
    }
  }

  // ---- get_sequence -----------------------------------------------------------------------

  /** Following first successors from the root visits exactly the states of s. */
  ghost predicate Chained(g: Graph, s: seq<Tag>) {
    && |s| > 0 && s[0] == ROOT && NoDup(s)
    && forall i :: 0 <= i < |s| ==> ChainedAt(g, s, i)
  }

  ghost predicate ChainedAt(g: Graph, s: seq<Tag>, i: nat)
    requires i < |s|
  {
    s[i] in g &&
    if i + 1 < |s| then g[s[i]].successors != [] && g[s[i]].successors[0] == s[i+1]
    else g[s[i]].successors == []
  }

  method GetSequence(states: Graph, ghost s: seq<Tag>) returns (r: seq<Tag>)
    requires Chained(states, s)
    ensures r == s
  {
    r := [];
    var cur := ROOT;
    while true
      invariant |r| < |s| && r == s[..|r|] && cur == s[|r|]
      decreases |s| - |r|
    {
      r := r + [cur];
      assert ChainedAt(states, s, |r| - 1);
      if cur !in states || states[cur].successors == [] { break; }
      cur := states[cur].successors[0];
      if cur == ROOT { break; }
    }
  }

  // ---- Reversed exits ----------------------------------------------------------------------

  /** rev lists, per sink, exactly the states that cur sends there, each once. */
  ghost predicate Reverses(rev: map<Tag, seq<Tag>>, cur: map<Tag, Tag>) {
    && (forall e, t :: (e in rev && t in rev[e]) <==> (t in cur && cur[t] == e))
    && (forall e | e in rev :: NoDup(rev[e]))
  }

  /** The exits out of the first n states of s that still stand. */
  ghost function OpenExits(g: Graph, s: seq<Tag>, n: nat): map<Tag, Tag>
    requires n <= |s| && forall t | t in s :: t in g
  {
    map t | t in s[..n] && g[t].exits != [] && g[t].exits[0] != ROOT :: g[t].exits[0]
  }

  method AddSource(rev0: map<Tag, seq<Tag>>, e: Tag, src: Tag, ghost cur: map<Tag, Tag>) returns (rev: map<Tag, seq<Tag>>)
    requires Reverses(rev0, cur) && src !in cur
    ensures Reverses(rev, cur[src := e])
  {
    var vec := if e in rev0 then rev0[e] else [];
    if src !in vec {
      vec := vec + [src];
    }
    rev := rev0[e := vec];
  }

  lemma OpenExitsStep(g: Graph, s: seq<Tag>, i: nat)
    requires i < |s| && NoDup(s) && forall t | t in s :: t in g
    ensures s[i] !in OpenExits(g, s, i)
    ensures OpenExits(g, s, i + 1) ==
            if g[s[i]].exits != [] && g[s[i]].exits[0] != ROOT then OpenExits(g, s, i)[s[i] := g[s[i]].exits[0]]
            else OpenExits(g, s, i)
  {
    assert s[..i+1] == s[..i] + [s[i]];
  }

  method ReverseExits(states: Graph, sequence: seq<Tag>) returns (rev: map<Tag, seq<Tag>>)
    requires NoDup(sequence)
    requires forall t | t in sequence :: t in states && |states[t].exits| <= 1
    ensures Reverses(rev, OpenExits(states, sequence, |sequence|))
  {
    rev := map[];
    for i := 0 to |sequence|
      invariant Reverses(rev, OpenExits(states, sequence, i))
    {
      hide OpenExits, Reverses;
      var stag := sequence[i];
      OpenExitsStep(states, sequence, i);
      var exits := states[stag].exits;
      if exits != [] && exits[0] != ROOT {
        rev := AddSource(rev, exits[0], stag, OpenExits(states, sequence, i));
      }
    }
  }

  // ---- Step 2: prune list tails ------------------------------------------------------------

  /** Everything that pointed at a now points at b. */
  ghost function Redirect(cur: map<Tag, Tag>, a: Tag, b: Tag): map<Tag, Tag> {
    map t | t in cur :: if cur[t] == a then b else cur[t]
  }

  method MoveSources(rev0: map<Tag, seq<Tag>>, a: Tag, b: Tag, ghost cur: map<Tag, Tag>) returns (rev: map<Tag, seq<Tag>>)
    requires Reverses(rev0, cur) && a in rev0 && a != b
    ensures Reverses(rev, Redirect(cur, a, b))
  {
    var vec := if b in rev0 then rev0[b] else [];
    var srcs := rev0[a];
    ghost var vec0 := vec;
    for k := 0 to |srcs|
      invariant NoDup(vec)
      invariant forall t :: t in vec <==> t in vec0 || t in srcs[..k]
    {
      assert srcs[..k+1] == srcs[..k] + [srcs[k]];
      if srcs[k] !in vec {
        vec := vec + [srcs[k]];
      }
    }
    assert srcs[..|srcs|] == srcs;
    rev := rev0[b := vec] - {a};
  }

  /** What step 1 leaves of the i-th state. */
  lemma MergedLinear(fs: seq<Field>, g0: Graph, s: seq<Tag>, i: nat)
    requires Linear(fs, g0, s) && i < |s|
    ensures var c := g0[s[i]];
      && c.field < |fs|
      && Merged(c) == c.(
           flows := [],
           successors := if i + 1 < |s| then [s[i+1]] else [],
           exits := if i + 1 < |s| && !Optional(g0, s, i) then [] else c.exits)
      && (Optional(g0, s, i) ==> c.exits == [c.exits[0]] && c.exits[0] in s && i < Pos(s, c.exits[0]) && c.exits[0] != ROOT)
      && (i + 1 < |s| && c.exits != [] && !Optional(g0, s, i) ==> c.exits == [s[i+1]])
      && (i + 1 == |s| && c.exits != [] ==> c.exits == [ROOT])
  {
    assert LinearAt(fs, g0, s, i);
    if Optional(g0, s, i) {
      PosUnique(s, 0);
    }
    if i + 1 < |s| { assert s[i+1] != s[0]; }
  }

  /** The exits that stand after step 1 are those of the optional states. */
  ghost function OptionalExits(g0: Graph, s: seq<Tag>): map<Tag, Tag>
    requires forall t | t in s :: t in g0
  {
    map t | t in s && g0[t].flows != [] && g0[t].exits != [] :: g0[t].exits[0]
  }

  ghost predicate MergedGraph(g0: Graph, g1: Graph) {
    g1.Keys == g0.Keys && forall t | t in g0 :: g1[t] == Merged(g0[t])
  }

  lemma OpenAreOptional(fs: seq<Field>, g0: Graph, s: seq<Tag>, g1: Graph)
    requires Linear(fs, g0, s) && MergedGraph(g0, g1)
    ensures OpenExits(g1, s, |s|) == OptionalExits(g0, s)
    ensures forall t | t in s :: t in g1 && |g1[t].exits| <= 1
    ensures Chained(g1, s)
  {
    assert s[..|s|] == s;
    forall t | t in s
      ensures t in g1 && |g1[t].exits| <= 1
      ensures (g1[t].exits != [] && g1[t].exits[0] != ROOT) <==> (g0[t].flows != [] && g0[t].exits != [])
      ensures g1[t].exits != [] ==> g1[t].exits == g0[t].exits
    {
      var i := Pos(s, t);
      MergedLinear(fs, g0, s, i);
      assert LinearAt(fs, g0, s, i);
    }
    forall i | 0 <= i < |s| ensures ChainedAt(g1, s, i) {
      MergedLinear(fs, g0, s, i);
    }
  }

  /** The i-th state once the first n of the sequence have been pruned. */
  ghost function Pruned(fs: seq<Field>, g0: Graph, s: seq<Tag>, n: nat, i: nat): ConcreteState
    requires Linear(fs, g0, s) && i < |s|
  {
    if i + 1 < |s| && !TailAt(fs, g0, s, i) && KeptFrom(fs, g0, s, i + 1) < n
    then Merged(g0[s[i]]).(successors := [s[KeptFrom(fs, g0, s, i + 1)]])
    else Merged(g0[s[i]])
  }

  ghost predicate PrunedGraph(fs: seq<Field>, g0: Graph, s: seq<Tag>, n: nat, g: Graph)
    requires Linear(fs, g0, s)
  {
    g.Keys == g0.Keys && forall i :: 0 <= i < |s| ==> g[s[i]] == Pruned(fs, g0, s, n, i)
  }

  /** Every optional state's exit has been moved past the tails among the first n states. */
  ghost predicate Moved(fs: seq<Field>, g0: Graph, s: seq<Tag>, n: nat, cur: map<Tag, Tag>)
    requires Linear(fs, g0, s)
  {
    && (forall t | t in cur :: t in s && Optional(g0, s, Pos(s, t)))
    && forall i | 0 <= i < |s| && Optional(g0, s, i) :: MovedAt(fs, g0, s, n, i, cur)
  }

  ghost predicate MovedAt(fs: seq<Field>, g0: Graph, s: seq<Tag>, n: nat, i: nat, cur: map<Tag, Tag>)
    requires Linear(fs, g0, s) && i < |s| && Optional(g0, s, i)
  {
    && s[i] in cur && cur[s[i]] in s
    && var q := Pos(s, cur[s[i]]);
    && i < q && SkipTo(fs, g0, s, i) == KeptFrom(fs, g0, s, q)
    && (q < n ==> !TailAt(fs, g0, s, q))
  }

  lemma LinearNoDup(fs: seq<Field>, g0: Graph, s: seq<Tag>)
    requires Linear(fs, g0, s)
    ensures NoDup(s) && forall i | 0 <= i < |s| :: s[i] in g0
  {
    forall i | 0 <= i < |s| ensures s[i] in g0 {
      assert LinearAt(fs, g0, s, i);
    }
  }

  lemma MovedStart(fs: seq<Field>, g0: Graph, s: seq<Tag>)
    requires Linear(fs, g0, s)
    ensures Moved(fs, g0, s, 0, OptionalExits(g0, s))
  {
    forall t | t in OptionalExits(g0, s) ensures t in s && Optional(g0, s, Pos(s, t)) {}
    forall i | 0 <= i < |s| && Optional(g0, s, i) ensures MovedAt(fs, g0, s, 0, i, OptionalExits(g0, s)) {
      MergedLinear(fs, g0, s, i);
    }
  }

  lemma MovedTailAt(fs: seq<Field>, g0: Graph, s: seq<Tag>, n: nat, i: nat, cur: map<Tag, Tag>)
    requires Linear(fs, g0, s) && n + 1 < |s| && TailAt(fs, g0, s, n)
    requires i < |s| && Optional(g0, s, i) && MovedAt(fs, g0, s, n, i, cur)
    ensures MovedAt(fs, g0, s, n + 1, i, Redirect(cur, s[n], s[n+1]))
  {
    LinearNoDup(fs, g0, s);
    KeptStep(fs, g0, s, n);
    hide Linear, TailAt, SkipTo, KeptFrom, Optional, NoDup;
    PosUnique(s, n);
    PosUnique(s, n + 1);
  }

  lemma KeptStep(fs: seq<Field>, g0: Graph, s: seq<Tag>, i: nat)
    requires Linear(fs, g0, s) && i + 1 < |s| && TailAt(fs, g0, s, i)
    ensures KeptFrom(fs, g0, s, i) == KeptFrom(fs, g0, s, i + 1)
  {
    hide Linear, TailAt;
  }

  /** Passing a tail: what points at it is redirected to the next state. */
  lemma MovedTail(fs: seq<Field>, g0: Graph, s: seq<Tag>, n: nat, cur: map<Tag, Tag>)
    requires Linear(fs, g0, s) && n + 1 < |s| && TailAt(fs, g0, s, n) && Moved(fs, g0, s, n, cur)
    ensures Moved(fs, g0, s, n + 1, Redirect(cur, s[n], s[n+1]))
  {
    hide Linear, TailAt, MovedAt, Optional;
    forall i | 0 <= i < |s| && Optional(g0, s, i) ensures MovedAt(fs, g0, s, n + 1, i, Redirect(cur, s[n], s[n+1])) {
      MovedTailAt(fs, g0, s, n, i, cur);
    }
  }

  lemma MovedKept(fs: seq<Field>, g0: Graph, s: seq<Tag>, n: nat, cur: map<Tag, Tag>)
    requires Linear(fs, g0, s) && n < |s| && !TailAt(fs, g0, s, n) && Moved(fs, g0, s, n, cur)
    ensures Moved(fs, g0, s, n + 1, cur)
  {
    hide Linear, TailAt, SkipTo, KeptFrom, Optional;
    forall i | 0 <= i < |s| && Optional(g0, s, i) ensures MovedAt(fs, g0, s, n + 1, i, cur) {
      assert MovedAt(fs, g0, s, n, i, cur);
    }
  }

  /** l is the last of the first n states that is not a tail. */
  ghost predicate LastKept(fs: seq<Field>, g0: Graph, s: seq<Tag>, n: nat, l: nat)
    requires Linear(fs, g0, s) && n <= |s|
  {
    l < n && !TailAt(fs, g0, s, l) && forall j :: l < j < n ==> TailAt(fs, g0, s, j)
  }

  lemma {:induction false} KeptRun(fs: seq<Field>, g0: Graph, s: seq<Tag>, i: nat, n: nat)
    requires Linear(fs, g0, s) && i <= n < |s| && forall j :: i <= j < n ==> TailAt(fs, g0, s, j)
    ensures KeptFrom(fs, g0, s, i) == KeptFrom(fs, g0, s, n)
    decreases n - i
  {
    hide Linear, TailAt;
    if i < n { KeptRun(fs, g0, s, i + 1, n); }
  }

  /** Reaching a kept state: the last kept one before it gets it as its successor. */
  lemma PrunedKept(fs: seq<Field>, g0: Graph, s: seq<Tag>, n: nat, l: nat, g: Graph)
    requires Linear(fs, g0, s) && n < |s| && !TailAt(fs, g0, s, n) && LastKept(fs, g0, s, n, l)
    requires PrunedGraph(fs, g0, s, n, g)
    ensures s[l] in g && PrunedGraph(fs, g0, s, n + 1, g[s[l] := g[s[l]].(successors := [s[n]])])
    ensures l == n - 1 ==> PrunedGraph(fs, g0, s, n + 1, g)
  {
    hide Linear, LinearAt, TailAt, KeptFrom;
    LinearNoDup(fs, g0, s);
    var g' := g[s[l] := g[s[l]].(successors := [s[n]])];
    KeptRun(fs, g0, s, l + 1, n);
    assert KeptFrom(fs, g0, s, l + 1) == n;
    assert g[s[l]] == Pruned(fs, g0, s, n, l);
    assert Pruned(fs, g0, s, n + 1, l) == g'[s[l]];
    forall i | 0 <= i < |s| && i != l
      ensures Pruned(fs, g0, s, n, i) == Pruned(fs, g0, s, n + 1, i)
    {
      if i + 1 < |s| && !TailAt(fs, g0, s, i) && KeptFrom(fs, g0, s, i + 1) == n {
        if i < l { KeptLeast(fs, g0, s, i + 1, l); }
        assert false;
      }
    }
    if l == n - 1 {
      MergedLinear(fs, g0, s, l);
      assert g' == g;
    }
  }

  lemma PrunedTail(fs: seq<Field>, g0: Graph, s: seq<Tag>, n: nat, g: Graph)
    requires Linear(fs, g0, s) && n < |s| && TailAt(fs, g0, s, n) && PrunedGraph(fs, g0, s, n, g)
    ensures PrunedGraph(fs, g0, s, n + 1, g)
  {
    hide Linear, LinearAt, TailAt, KeptFrom;
    forall i | 0 <= i < |s|
      ensures Pruned(fs, g0, s, n, i) == Pruned(fs, g0, s, n + 1, i)
    {
    }
  }

  ghost function TailsBefore(fs: seq<Field>, g0: Graph, s: seq<Tag>, n: nat): set<Tag>
    requires Linear(fs, g0, s) && n <= |s|
  {
    set i | 0 <= i < n && TailAt(fs, g0, s, i) :: s[i]
  }

  lemma TailsStep(fs: seq<Field>, g0: Graph, s: seq<Tag>, n: nat)
    requires Linear(fs, g0, s) && n < |s|
    ensures TailsBefore(fs, g0, s, n + 1) == TailsBefore(fs, g0, s, n) + (if TailAt(fs, g0, s, n) then {s[n]} else {})
  {
    hide Linear, TailAt;
  }

  lemma KeptAfter(fs: seq<Field>, g0: Graph, s: seq<Tag>, n: nat)
    requires Linear(fs, g0, s) && n < |s|
    ensures Pruned(fs, g0, s, n, n) == Merged(g0[s[n]])
  {
    hide Linear, TailAt;
  }

  /** What the pass sees at position n. */
  lemma StateFacts(fs: seq<Field>, g0: Graph, s: seq<Tag>, n: nat, g: Graph)
    requires Linear(fs, g0, s) && n < |s| && PrunedGraph(fs, g0, s, n, g)
    ensures s[n] in g && g[s[n]].field < |fs|
    ensures IsTail(fs, g[s[n]]) == TailAt(fs, g0, s, n)
    ensures TailAt(fs, g0, s, n) ==>
      n + 1 < |s| && s[n] != s[n+1] && g[s[n]].exits == [] && g[s[n]].successors == [s[n+1]]
    ensures n == 0 ==> !TailAt(fs, g0, s, n)
    ensures TailsBefore(fs, g0, s, n + 1) == TailsBefore(fs, g0, s, n) + (if TailAt(fs, g0, s, n) then {s[n]} else {})
  {
    MergedLinear(fs, g0, s, n);
    LinearNoDup(fs, g0, s);
    KeptAfter(fs, g0, s, n);
    TailsStep(fs, g0, s, n);
    if TailAt(fs, g0, s, n) { TailNotLast(fs, g0, s, n); }
    assert LinearAt(fs, g0, s, n);
    hide Linear, KeptFrom, TailsBefore, Merged, MergedGraph;
    assert g[s[n]] == Merged(g0[s[n]]);
  }

  lemma NoSources(rev: map<Tag, seq<Tag>>, cur: map<Tag, Tag>, e: Tag)
    requires Reverses(rev, cur) && e !in rev
    ensures forall b :: Redirect(cur, e, b) == cur
  {
    forall t | t in cur ensures cur[t] != e {
      assert cur[t] in rev && t in rev[cur[t]];
    }
  }

  lemma PrunedStart(fs: seq<Field>, g0: Graph, s: seq<Tag>, g: Graph)
    requires Linear(fs, g0, s) && MergedGraph(g0, g)
    ensures PrunedGraph(fs, g0, s, 0, g) && PrunedGraph(fs, g0, s, 1, g)
    ensures TailsBefore(fs, g0, s, 0) == {}
  {
    forall i | 0 <= i < |s| ensures g[s[i]] == Pruned(fs, g0, s, 0, i) == Pruned(fs, g0, s, 1, i) {
      assert LinearAt(fs, g0, s, i);
    }
  }

  lemma LastKeptStep(fs: seq<Field>, g0: Graph, s: seq<Tag>, n: nat, l: nat)
    requires Linear(fs, g0, s) && n < |s|
    ensures TailAt(fs, g0, s, n) && n > 0 && LastKept(fs, g0, s, n, l) ==> LastKept(fs, g0, s, n + 1, l)
    ensures !TailAt(fs, g0, s, n) ==> LastKept(fs, g0, s, n + 1, n)
    ensures LastKept(fs, g0, s, n, l) ==> l < n
  {
  }

  /** Step 2, the pass over the sequence: collect the tails, move the exits that lead to them one state
      on, and link the last kept state over each run of tails. A tail never exits to the root here and
      always has one successor, so neither the early cut nor the internal error can happen. */
  method PruneTails(g: StateGraph, fs: seq<Field>, sequence: seq<Tag>, rev0: map<Tag, seq<Tag>>, ghost g0: Graph)
    returns (rev: map<Tag, seq<Tag>>, deleteSet: seq<Tag>, ghost cur: map<Tag, Tag>)
    requires Linear(fs, g0, sequence) && MergedGraph(g0, g.states)
    requires Reverses(rev0, OptionalExits(g0, sequence))
    modifies g
    ensures PrunedGraph(fs, g0, sequence, |sequence|, g.states)
    ensures Reverses(rev, cur) && Moved(fs, g0, sequence, |sequence|, cur)
    ensures forall t :: t in deleteSet <==> t in TailsBefore(fs, g0, sequence, |sequence|)
  {
    hide Reverses, Moved, PrunedGraph, MergedGraph, LastKept, TailAt, TailsBefore, Redirect, OptionalExits;
    rev, deleteSet, cur := rev0, [], OptionalExits(g0, sequence);
    var prevDeleted := false;
    var lastKept: Option<Tag> := None;
    ghost var l: nat := 0;
    MovedStart(fs, g0, sequence);
    PrunedStart(fs, g0, sequence, g.states);
    hide Linear;
    for n := 0 to |sequence|
      invariant PrunedGraph(fs, g0, sequence, n, g.states)
      invariant Reverses(rev, cur) && Moved(fs, g0, sequence, n, cur)
      invariant forall t :: t in deleteSet <==> t in TailsBefore(fs, g0, sequence, n)
      invariant if n == 0 then lastKept == None && !prevDeleted && MergedGraph(g0, g.states)
        else l < n && LastKept(fs, g0, sequence, n, l) && lastKept == Some(sequence[l]) && prevDeleted == (l < n - 1)
    {
      var stag := sequence[n];
      StateFacts(fs, g0, sequence, n, g.states);
      LastKeptStep(fs, g0, sequence, n, l);
      var state := g.states[stag];
      var isListTail := state.field >= 0 && fs[state.field].IsList() && state.indices != []
        && state.indices[|state.indices|-1] >= fs[state.field].range.value.1;
      if isListTail {
        deleteSet := deleteSet + [stag];
        MovedTail(fs, g0, sequence, n, cur);
        if [ROOT] <= state.exits {
          assert false;
        } else if stag in rev {
          if |state.successors| != 1 { assert false; }
          var succ := state.successors[0];
          rev := MoveSources(rev, stag, succ, cur);
          cur := Redirect(cur, stag, succ);
        } else {
          NoSources(rev, cur, stag);
        }
        PrunedTail(fs, g0, sequence, n, g.states);
        prevDeleted := true;
      } else {
        MovedKept(fs, g0, sequence, n, cur);
        if n > 0 { PrunedKept(fs, g0, sequence, n, l, g.states); } else { PrunedStart(fs, g0, sequence, g.states); }
        if prevDeleted && lastKept.Some? {
          g.states := g.states[lastKept.value := g.states[lastKept.value].(successors := [stag])];
        }
        lastKept, prevDeleted := Some(stag), false;
        l := n;
      }
    }
  }

  method DeleteStates(g: StateGraph, deleteSet: seq<Tag>)
    modifies g
    ensures g.states == old(g.states) - (set t | t in deleteSet)
  {
    for k := 0 to |deleteSet|
      invariant g.states == old(g.states) - (set t | t in deleteSet[..k])
    {
      assert deleteSet[..k+1] == deleteSet[..k] + [deleteSet[k]];
      g.states := g.states - {deleteSet[k]};
    }
    assert deleteSet[..|deleteSet|] == deleteSet;
  }

  // ---- Step 3: exits from the reversed map -----------------------------------------------

  function ExitList(cur: map<Tag, Tag>, t: Tag): seq<Tag> {
    if t in cur then [cur[t]] else []
  }

  method ClearExits(g: StateGraph)
    modifies g
    ensures g.states.Keys == old(g.states).Keys
    ensures forall t | t in g.states :: g.states[t] == old(g.states)[t].(exits := [])
  {
    g.states := map t | t in g.states :: g.states[t].(exits := []);
  }

  /** The exits of t once the sinks outside todo have been handed back. */
  ghost function Assigned(rev: map<Tag, seq<Tag>>, cur: map<Tag, Tag>, todo: set<Tag>, t: Tag): seq<Tag> {
    if t in cur && cur[t] !in todo then [cur[t]] else []
  }

  method AssignSink(g: StateGraph, sink: Tag, srcs: seq<Tag>)
    requires NoDup(srcs)
    modifies g
    ensures g.states.Keys == old(g.states).Keys
    ensures forall t | t in g.states ::
      g.states[t] == old(g.states)[t].(exits := old(g.states)[t].exits + (if t in srcs then [sink] else []))
  {
    for k := 0 to |srcs|
      invariant g.states.Keys == old(g.states).Keys
      invariant forall t | t in g.states ::
        g.states[t] == old(g.states)[t].(exits := old(g.states)[t].exits + (if t in srcs[..k] then [sink] else []))
    {
      assert srcs[..k+1] == srcs[..k] + [srcs[k]];
      assert srcs[k] !in srcs[..k];
      if srcs[k] in g.states {
        g.states := g.states[srcs[k] := g.states[srcs[k]].(exits := g.states[srcs[k]].exits + [sink])];
      }
    }
    assert srcs[..|srcs|] == srcs;
  }

  lemma AssignedAll(rev: map<Tag, seq<Tag>>, cur: map<Tag, Tag>)
    requires Reverses(rev, cur)
    ensures forall e | e in rev :: NoDup(rev[e])
    ensures forall t :: Assigned(rev, cur, {}, t) == ExitList(cur, t)
    ensures forall t :: Assigned(rev, cur, rev.Keys, t) == []
  {
    forall t ensures Assigned(rev, cur, rev.Keys, t) == [] {
      if t in cur { assert cur[t] in rev && t in rev[cur[t]]; }
    }
  }

  lemma AssignedStep(rev: map<Tag, seq<Tag>>, cur: map<Tag, Tag>, todo: set<Tag>, sink: Tag, t: Tag)
    requires Reverses(rev, cur) && sink in todo && sink in rev
    ensures Assigned(rev, cur, todo - {sink}, t) == Assigned(rev, cur, todo, t) + (if t in rev[sink] then [sink] else [])
  {
    assert t in rev[sink] <==> t in cur && cur[t] == sink;
  }

  method AssignExits(g: StateGraph, rev: map<Tag, seq<Tag>>, ghost cur: map<Tag, Tag>)
    requires Reverses(rev, cur)
    modifies g
    ensures g.states.Keys == old(g.states).Keys
    ensures forall t | t in g.states :: g.states[t] == old(g.states)[t].(exits := ExitList(cur, t))
  {
    hide Reverses, Assigned, NoDup;
    AssignedAll(rev, cur);
    ClearExits(g);
    var todo := rev.Keys;
    while todo != {}
      invariant g.states.Keys == old(g.states).Keys && todo <= rev.Keys
      invariant forall t | t in g.states :: g.states[t] == old(g.states)[t].(exits := Assigned(rev, cur, todo, t))
      decreases todo
    {
      var sink :| sink in todo;
      AssignSink(g, sink, rev[sink]);
      forall t | t in g.states
        ensures Assigned(rev, cur, todo - {sink}, t) == Assigned(rev, cur, todo, t) + (if t in rev[sink] then [sink] else [])
      {
        AssignedStep(rev, cur, todo, sink, t);
      }
      todo := todo - {sink};
    }
  }

  // ---- What is left before step 4 -----------------------------------------------------------

  ghost function TidyExits(fs: seq<Field>, g0: Graph, s: seq<Tag>, i: nat): seq<Tag>
    requires Linear(fs, g0, s) && i < |s|
  {
    if Optional(g0, s, i) then [s[SkipTo(fs, g0, s, i)]] else []
  }

  ghost function Tidy(fs: seq<Field>, g0: Graph, s: seq<Tag>, i: nat): ConcreteState
    requires Linear(fs, g0, s) && i < |s|
  {
    assert LinearAt(fs, g0, s, i);
    ConcreteState(g0[s[i]].field, g0[s[i]].indices, [], TidyExits(fs, g0, s, i),
                  if i + 1 < |s| then [s[KeptFrom(fs, g0, s, i + 1)]] else [])
  }

  ghost predicate TidyGraph(fs: seq<Field>, g0: Graph, s: seq<Tag>, g: Graph)
    requires Linear(fs, g0, s)
  {
    && (forall t | t in g :: t in s && !TailAt(fs, g0, s, Pos(s, t)))
    && forall i | 0 <= i < |s| && !TailAt(fs, g0, s, i) :: s[i] in g && g[s[i]] == Tidy(fs, g0, s, i)
  }

  /** Steps 2 and 3 together. */
  lemma TidyAfterStep3(fs: seq<Field>, g0: Graph, s: seq<Tag>, g2: Graph, cur: map<Tag, Tag>, g3: Graph)
    requires Linear(fs, g0, s)
    requires PrunedGraph(fs, g0, s, |s|, g2) && Moved(fs, g0, s, |s|, cur)
    requires g3.Keys == g2.Keys - TailsBefore(fs, g0, s, |s|)
    requires forall t | t in g3 :: g3[t] == g2[t].(exits := ExitList(cur, t))
    ensures TidyGraph(fs, g0, s, g3)
  {
    LinearNoDup(fs, g0, s);
    forall t | t in g3 ensures t in s && !TailAt(fs, g0, s, Pos(s, t)) {}
    forall i | 0 <= i < |s| && !TailAt(fs, g0, s, i)
      ensures s[i] in g3 && g3[s[i]] == Tidy(fs, g0, s, i)
    {
      NotBefore(fs, g0, s, i);
      TidyAt(fs, g0, s, g2, cur, i);
    }
  }

  lemma NotBefore(fs: seq<Field>, g0: Graph, s: seq<Tag>, i: nat)
    requires Linear(fs, g0, s) && i < |s| && !TailAt(fs, g0, s, i)
    ensures s[i] !in TailsBefore(fs, g0, s, |s|)
  {
    LinearNoDup(fs, g0, s);
    hide Linear, TailAt;
  }

  lemma TidyAt(fs: seq<Field>, g0: Graph, s: seq<Tag>, g2: Graph, cur: map<Tag, Tag>, i: nat)
    requires Linear(fs, g0, s) && i < |s| && !TailAt(fs, g0, s, i)
    requires PrunedGraph(fs, g0, s, |s|, g2) && Moved(fs, g0, s, |s|, cur)
    ensures s[i] in g2 && g2[s[i]].(exits := ExitList(cur, s[i])) == Tidy(fs, g0, s, i)
  {
    LinearNoDup(fs, g0, s);
    MergedLinear(fs, g0, s, i);
    PosUnique(s, i);
    hide Linear, TailAt, LinearAt, SkipTo, KeptFrom, Merged;
    assert g2[s[i]] == Pruned(fs, g0, s, |s|, i);
    if Optional(g0, s, i) {
      assert MovedAt(fs, g0, s, |s|, i, cur);
    }
  }

  // ---- Step 4: exit closure on predecessors ------------------------------------------------

  ghost predicate Bounded(s: seq<Tag>, ps: seq<nat>) {
    forall j | 0 <= j < |ps| :: ps[j] < |s|
  }

  ghost function Names(s: seq<Tag>, ps: seq<nat>): seq<Tag>
    requires Bounded(s, ps)
  {
    seq(|ps|, j requires 0 <= j < |ps| => s[ps[j]])
  }

  /** The kept positions in order, as the second walk over the graph meets them. */
  ghost predicate Walk(fs: seq<Field>, g0: Graph, s: seq<Tag>, ps: seq<nat>)
    requires Linear(fs, g0, s)
    ensures Walk(fs, g0, s, ps) ==> |ps| > 0
  {
    && |ps| > 0 && ps[0] == 0
    && (forall j | 0 <= j < |ps| :: KeptLink(fs, g0, s, ps, j))
    && forall i | 0 <= i < |s| && !TailAt(fs, g0, s, i) :: i in ps
  }

  lemma WalkExists(fs: seq<Field>, g0: Graph, s: seq<Tag>)
    requires Linear(fs, g0, s)
    ensures Walk(fs, g0, s, KeptPositions(fs, g0, s, 0))
  {
    var ps := KeptPositions(fs, g0, s, 0);
    RootIsKept(fs, g0, s);
    hide Linear, TailAt;
    forall j | 0 <= j < |ps| ensures KeptLink(fs, g0, s, ps, j) { KeptLinks(fs, g0, s, 0, j); }
    forall i | 0 <= i < |s| && !TailAt(fs, g0, s, i) ensures i in ps { KeptCovers(fs, g0, s, 0, i); }
  }

  lemma RootIsKept(fs: seq<Field>, g0: Graph, s: seq<Tag>)
    requires Linear(fs, g0, s)
    ensures !TailAt(fs, g0, s, 0) && !Optional(g0, s, 0)
  {
    assert LinearAt(fs, g0, s, 0);
  }

  lemma {:induction false} WalkIncreases(fs: seq<Field>, g0: Graph, s: seq<Tag>, ps: seq<nat>, a: nat, b: nat)
    requires Linear(fs, g0, s) && Walk(fs, g0, s, ps) && a <= b < |ps|
    ensures ps[a] <= ps[b] < |s| && (a < b ==> ps[a] < ps[b])
    decreases b
  {
    hide Linear, TailAt;
    assert KeptLink(fs, g0, s, ps, b);
    if a < b {
      WalkIncreases(fs, g0, s, ps, a, b - 1);
      assert KeptLink(fs, g0, s, ps, b - 1);
    }
  }

  lemma WalkBounds(fs: seq<Field>, g0: Graph, s: seq<Tag>, ps: seq<nat>)
    requires Linear(fs, g0, s) && Walk(fs, g0, s, ps)
    ensures Bounded(s, ps)
    ensures forall a, b | 0 <= a < b < |ps| :: s[ps[a]] != s[ps[b]]
  {
    LinearNoDup(fs, g0, s);
    hide Linear, TailAt, KeptFrom;
    forall j | 0 <= j < |ps| ensures ps[j] < |s| { assert KeptLink(fs, g0, s, ps, j); }
    forall a, b | 0 <= a < b < |ps| ensures s[ps[a]] != s[ps[b]] { WalkIncreases(fs, g0, s, ps, a, b); }
  }

  lemma WalkDiffer(fs: seq<Field>, g0: Graph, s: seq<Tag>, ps: seq<nat>, a: nat, b: nat)
    requires Linear(fs, g0, s) && Walk(fs, g0, s, ps) && a < |ps| && b < |ps| && a != b
    ensures ps[a] < |s| && ps[b] < |s| && s[ps[a]] != s[ps[b]]
  {
    WalkBounds(fs, g0, s, ps);
  }

  lemma WalkLink(fs: seq<Field>, g0: Graph, s: seq<Tag>, ps: seq<nat>, g: Graph, j: nat)
    requires Linear(fs, g0, s) && Walk(fs, g0, s, ps) && TidyGraph(fs, g0, s, g) && j < |ps|
    ensures ps[j] < |s| && !TailAt(fs, g0, s, ps[j]) && s[ps[j]] in g && g[s[ps[j]]] == Tidy(fs, g0, s, ps[j])
    ensures j + 1 < |ps| ==> ps[j] + 1 < |s| && ps[j+1] == KeptFrom(fs, g0, s, ps[j] + 1)
    ensures j + 1 == |ps| ==> ps[j] + 1 == |s|
  {
    hide Linear, TailAt, KeptFrom, Tidy;
    assert KeptLink(fs, g0, s, ps, j);
  }

  lemma WalkChainedAt(fs: seq<Field>, g0: Graph, s: seq<Tag>, ps: seq<nat>, g: Graph, k: seq<Tag>, j: nat)
    requires Linear(fs, g0, s) && Walk(fs, g0, s, ps) && TidyGraph(fs, g0, s, g) && j < |ps| == |k|
    requires ps[j] < |s| && k[j] == s[ps[j]]
    requires j + 1 < |ps| ==> ps[j+1] < |s| && k[j+1] == s[ps[j+1]]
    ensures ChainedAt(g, k, j)
  {
    WalkLink(fs, g0, s, ps, g, j);
    hide Linear, TailAt, TidyGraph, Walk, TidyExits, KeptFrom;
    var c := g[k[j]];
    assert c == Tidy(fs, g0, s, ps[j]);
  }

  lemma WalkChained(fs: seq<Field>, g0: Graph, s: seq<Tag>, ps: seq<nat>, g: Graph)
    requires Linear(fs, g0, s) && Walk(fs, g0, s, ps) && TidyGraph(fs, g0, s, g)
    ensures Bounded(s, ps)
    ensures Chained(g, Names(s, ps))
  {
    LinearRoot(fs, g0, s);
    WalkBounds(fs, g0, s, ps);
    var k := Names(s, ps);
    assert NoDup(k);
    hide Linear, TailAt, NoDup;
    forall j | 0 <= j < |k| ensures ChainedAt(g, k, j) {
      NamesAt(s, ps, j);
      if j + 1 < |ps| { NamesAt(s, ps, j + 1); }
      WalkChainedAt(fs, g0, s, ps, g, k, j);
    }
  }

  lemma LinearRoot(fs: seq<Field>, g0: Graph, s: seq<Tag>)
    requires Linear(fs, g0, s)
    ensures |s| > 0 && s[0] == ROOT
  {
  }

  /** The exits of the states after position i are still in place. */
  ghost predicate ExitsFrom(fs: seq<Field>, g0: Graph, s: seq<Tag>, i: nat, g: Graph)
    requires Linear(fs, g0, s)
  {
    forall q | i <= q < |s| && !TailAt(fs, g0, s, q) :: s[q] in g && g[s[q]].exits == TidyExits(fs, g0, s, q)
  }

  /** What a run can skip to from position i on, one hop at a time. */
  ghost function Hops(fs: seq<Field>, g0: Graph, s: seq<Tag>, i: nat): seq<Tag>
    requires Linear(fs, g0, s) && i < |s|
  {
    if Optional(g0, s, i) then Reach(fs, g0, s, SkipTo(fs, g0, s, i)) else []
  }

  lemma ReachIsHops(fs: seq<Field>, g0: Graph, s: seq<Tag>, i: nat)
    requires Linear(fs, g0, s) && i < |s|
    ensures Reach(fs, g0, s, i) == [s[i]] + Hops(fs, g0, s, i)
  {
    hide Linear;
  }

  lemma HopStep(fs: seq<Field>, g0: Graph, s: seq<Tag>, i: nat)
    requires Linear(fs, g0, s) && i < |s|
    ensures Optional(g0, s, i) <==> TidyExits(fs, g0, s, i) != []
    ensures Optional(g0, s, i) ==>
      var to := SkipTo(fs, g0, s, i);
      TidyExits(fs, g0, s, i) == [s[to]] && Hops(fs, g0, s, i) == [s[to]] + Hops(fs, g0, s, to) && Pos(s, s[to]) == to
    ensures !Optional(g0, s, i) ==> Hops(fs, g0, s, i) == []
  {
    LinearNoDup(fs, g0, s);
    hide Linear, TailAt, SkipTo, Optional;
    if Optional(g0, s, i) {
      ReachIsHops(fs, g0, s, SkipTo(fs, g0, s, i));
      PosUnique(s, SkipTo(fs, g0, s, i));
    }
  }

  lemma AppendHop(a: seq<Tag>, t: Tag, b: seq<Tag>)
    ensures (a + [t]) + b == a + ([t] + b)
  {
  }

  /** One round of the worklist, for a single new state. */
  method ExpandTodo(states: Graph, closure0: seq<Tag>, todo: seq<Tag>) returns (closure: seq<Tag>, next: seq<Tag>)
    requires |todo| == 1 && todo[0] in states && todo[0] !in closure0
    ensures closure == closure0 + [todo[0]] && next == states[todo[0]].exits
  {
    closure, next := closure0, [];
    for k := 0 to |todo|
      invariant k == 0 ==> next == [] && closure == closure0
      invariant k == 1 ==> next == states[todo[0]].exits && closure == closure0 + [todo[0]]
    {
      var t := todo[k];
      if t !in closure {
        closure := closure + [t];
        if t in states {
          for m := 0 to |states[t].exits|
            invariant next == states[t].exits[..m]
          {
            next := next + [states[t].exits[m]];
          }
        }
      }
    }
  }

  /** The exit closure of the state at position i: since every state has at most one exit and exits lead
      forward, the worklist follows a single chain and the visited check never fires. */
  method ExitClosure(states: Graph, exits: seq<Tag>, ghost fs: seq<Field>, ghost g0: Graph, ghost s: seq<Tag>, ghost i: nat)
    returns (closure: seq<Tag>)
    requires Linear(fs, g0, s) && i < |s|
    requires ExitsFrom(fs, g0, s, i + 1, states) && exits == TidyExits(fs, g0, s, i)
    ensures closure == Hops(fs, g0, s, i)
    ensures forall t | t in closure :: t in s && i < Pos(s, t)
  {
    HopStep(fs, g0, s, i);
    hide Linear, LinearAt, TailAt, SkipTo, TidyExits, Hops, Optional, Pos;
    closure := [];
    var todo := exits;
    ghost var at := i;
    while todo != []
      invariant i <= at < |s| && todo == TidyExits(fs, g0, s, at)
      invariant closure + Hops(fs, g0, s, at) == Hops(fs, g0, s, i)
      invariant forall t | t in closure :: t in s && i < Pos(s, t) <= at
      decreases |s| - at
    {
      HopStep(fs, g0, s, at);
      ghost var to := SkipTo(fs, g0, s, at);
      AppendHop(closure, s[to], Hops(fs, g0, s, to));
      closure, todo := ExpandTodo(states, closure, todo);
      at := to;
    }
    HopStep(fs, g0, s, at);
  }

  /** Append to the successors of a state what is not among them yet. */
  method AddSuccessors(succ0: seq<Tag>, closure: seq<Tag>) returns (succ: seq<Tag>)
    requires NoDup(closure) && forall t | t in closure :: t !in succ0
    ensures succ == succ0 + closure
  {
    succ := succ0;
    for k := 0 to |closure|
      invariant succ == succ0 + closure[..k]
    {
      assert closure[..k+1] == closure[..k] + [closure[k]];
      if closure[k] !in succ {
        succ := succ + [closure[k]];
      }
    }
    assert closure[..|closure|] == closure;
  }

  lemma {:induction false} ReachForward(fs: seq<Field>, g0: Graph, s: seq<Tag>, i: nat)
    requires Linear(fs, g0, s) && i < |s|
    ensures NoDup(Reach(fs, g0, s, i))
    ensures forall t | t in Reach(fs, g0, s, i) :: t in s && i <= Pos(s, t)
    decreases |s| - i
  {
    LinearNoDup(fs, g0, s);
    hide Linear, TailAt, SkipTo, Optional;
    ReachIsHops(fs, g0, s, i);
    PosUnique(s, i);
    if Optional(g0, s, i) {
      var k := SkipTo(fs, g0, s, i);
      ReachForward(fs, g0, s, k);
      PosUnique(s, k);
      NoDupConcat([s[i]], Reach(fs, g0, s, k));
    }
  }

  /** The state at walk index j once the walk has handled the indices before n. */
  ghost function Closed(fs: seq<Field>, g0: Graph, s: seq<Tag>, ps: seq<nat>, n: nat, j: nat): ConcreteState
    requires Linear(fs, g0, s) && j < |ps| && ps[j] < |s|
  {
    var c := Tidy(fs, g0, s, ps[j]);
    c.(exits := if j < n then [] else c.exits,
       successors := if j + 1 < n then Followers(fs, g0, s, ps[j]) else c.successors)
  }

  ghost predicate ClosedGraph(fs: seq<Field>, g0: Graph, s: seq<Tag>, ps: seq<nat>, n: nat, g: Graph)
    requires Linear(fs, g0, s) && Bounded(s, ps)
  {
    && (forall t | t in g :: t in s && !TailAt(fs, g0, s, Pos(s, t)))
    && forall j | 0 <= j < |ps| :: s[ps[j]] in g && g[s[ps[j]]] == Closed(fs, g0, s, ps, n, j)
  }

  lemma ClosedFirst(fs: seq<Field>, g0: Graph, s: seq<Tag>, ps: seq<nat>, j: nat)
    requires Linear(fs, g0, s) && !Optional(g0, s, 0) && j < |ps| && ps[j] < |s| && ps[0] == 0
    ensures Closed(fs, g0, s, ps, 1, j) == Tidy(fs, g0, s, ps[j])
  {
    hide Linear, KeptFrom, SkipTo, Followers;
  }

  lemma ClosedStart(fs: seq<Field>, g0: Graph, s: seq<Tag>, ps: seq<nat>, g: Graph)
    requires Linear(fs, g0, s) && Walk(fs, g0, s, ps) && TidyGraph(fs, g0, s, g)
    requires Bounded(s, ps)
    ensures ClosedGraph(fs, g0, s, ps, 1, g)
  {
    RootIsKept(fs, g0, s);
    hide Linear, TailAt, Optional, KeptLink, Tidy, Closed;
    forall j | 0 <= j < |ps| ensures s[ps[j]] in g && g[s[ps[j]]] == Closed(fs, g0, s, ps, 1, j) {
      WalkLink(fs, g0, s, ps, g, j);
      ClosedFirst(fs, g0, s, ps, j);
    }
  }

  lemma HopsFresh(fs: seq<Field>, g0: Graph, s: seq<Tag>, i: nat)
    requires Linear(fs, g0, s) && i < |s|
    ensures NoDup(Hops(fs, g0, s, i)) && forall t | t in Hops(fs, g0, s, i) :: t != s[i]
  {
    LinearNoDup(fs, g0, s);
    hide Linear, TailAt, KeptFrom;
    if Optional(g0, s, i) {
      ReachForward(fs, g0, s, SkipTo(fs, g0, s, i));
      PosUnique(s, i);
    }
  }

  lemma ClosedExits(fs: seq<Field>, g0: Graph, s: seq<Tag>, ps: seq<nat>, m: nat, g: Graph)
    requires Linear(fs, g0, s) && Walk(fs, g0, s, ps) && m < |ps|
    requires Bounded(s, ps)
    requires ClosedGraph(fs, g0, s, ps, m, g)
    ensures ps[m] < |s| && ExitsFrom(fs, g0, s, ps[m] + 1, g)
  {
    hide Linear, TailAt, TidyExits, KeptFrom, KeptLink;
    forall q | ps[m] + 1 <= q < |s| && !TailAt(fs, g0, s, q)
      ensures s[q] in g && g[s[q]].exits == TidyExits(fs, g0, s, q)
    {
      var j :| 0 <= j < |ps| && ps[j] == q;
      if j < m { WalkIncreases(fs, g0, s, ps, j, m); }
      assert g[s[ps[j]]] == Closed(fs, g0, s, ps, m, j);
    }
  }

  /** What the walk finds at index m. */
  lemma ClosedFacts(fs: seq<Field>, g0: Graph, s: seq<Tag>, ps: seq<nat>, m: nat, g: Graph)
    requires Linear(fs, g0, s) && Walk(fs, g0, s, ps) && 1 <= m < |ps|
    requires Bounded(s, ps)
    requires ClosedGraph(fs, g0, s, ps, m, g)
    ensures ps[m] < |s| && ps[m-1] < |s|
    ensures s[ps[m]] in g && s[ps[m-1]] in g && s[ps[m]] != s[ps[m-1]]
    ensures g[s[ps[m]]].exits == TidyExits(fs, g0, s, ps[m])
    ensures g[s[ps[m-1]]].successors == [s[ps[m]]]
    ensures ps[m-1] + 1 < |s| && Followers(fs, g0, s, ps[m-1]) == [s[ps[m]]] + Hops(fs, g0, s, ps[m])
  {
    WalkDiffer(fs, g0, s, ps, m, m - 1);
    hide Linear, TailAt, SkipTo, Optional, Hops, TidyExits, Reach, KeptFrom;
    assert KeptLink(fs, g0, s, ps, m - 1);
    ReachIsHops(fs, g0, s, ps[m]);
    assert g[s[ps[m]]] == Closed(fs, g0, s, ps, m, m);
    assert g[s[ps[m-1]]] == Closed(fs, g0, s, ps, m, m - 1);
  }

  /** The update at walk index m, seen at walk index j. */
  lemma ClosedStepAt(fs: seq<Field>, g0: Graph, s: seq<Tag>, ps: seq<nat>, m: nat, j: nat, g: Graph, a: Tag, b: Tag, g2: Graph)
    requires Linear(fs, g0, s) && 1 <= m < |ps| && j < |ps| && ps[j] < |s| && ps[m] < |s| && ps[m-1] < |s|
    requires a == s[ps[m-1]] && b == s[ps[m]] && a != b && a in g && b in g
    requires j != m ==> s[ps[j]] != b
    requires j != m - 1 ==> s[ps[j]] != a
    requires s[ps[j]] in g && g[s[ps[j]]] == Closed(fs, g0, s, ps, m, j)
    requires g2 == g[a := g[a].(successors := Followers(fs, g0, s, ps[m-1]))][b := g[b].(exits := [])]
    ensures s[ps[j]] in g2 && g2[s[ps[j]]] == Closed(fs, g0, s, ps, m + 1, j)
  {
    hide Linear, Tidy, Followers;
  }

  lemma ClosedStep(fs: seq<Field>, g0: Graph, s: seq<Tag>, ps: seq<nat>, m: nat, g: Graph, a: Tag, b: Tag, g2: Graph)
    requires Linear(fs, g0, s) && Walk(fs, g0, s, ps) && 1 <= m < |ps|
    requires Bounded(s, ps)
    requires ClosedGraph(fs, g0, s, ps, m, g)
    requires a == s[ps[m-1]] && b == s[ps[m]] && a != b && a in g && b in g
    requires g2 == g[a := g[a].(successors := Followers(fs, g0, s, ps[m-1]))][b := g[b].(exits := [])]
    ensures ClosedGraph(fs, g0, s, ps, m + 1, g2)
  {
    hide Linear, TailAt, Closed, Followers, Walk;
    assert g2.Keys == g.Keys;
    forall j | 0 <= j < |ps| ensures s[ps[j]] in g2 && g2[s[ps[j]]] == Closed(fs, g0, s, ps, m + 1, j) {
      assert s[ps[j]] in g && g[s[ps[j]]] == Closed(fs, g0, s, ps, m, j);
      if j != m { WalkDiffer(fs, g0, s, ps, j, m); }
      if j != m - 1 { WalkDiffer(fs, g0, s, ps, j, m - 1); }
      ClosedStepAt(fs, g0, s, ps, m, j, g, a, b, g2);
    }
  }

  lemma NamesAt(s: seq<Tag>, ps: seq<nat>, j: nat)
    requires j < |ps| && Bounded(s, ps)
    ensures ps[j] < |s| && |Names(s, ps)| == |ps| && Names(s, ps)[j] == s[ps[j]]
  {
  }

  /** One step of the walk: the successors of ptag gain what the exits of stag lead to. */
  method PropagateAt(g: StateGraph, ptag: Tag, stag: Tag,
                     ghost fs: seq<Field>, ghost g0: Graph, ghost s: seq<Tag>, ghost i: nat, ghost follow: seq<Tag>)
    requires Linear(fs, g0, s) && i < |s| && ptag != stag && ptag in g.states && stag in g.states
    requires g.states[stag].exits == TidyExits(fs, g0, s, i) && g.states[ptag].successors == [stag]
    requires ExitsFrom(fs, g0, s, i + 1, g.states) && follow == [stag] + Hops(fs, g0, s, i)
    requires NoDup(Hops(fs, g0, s, i)) && forall t | t in Hops(fs, g0, s, i) :: t != stag
    modifies g
    ensures g.states == old(g.states)[ptag := old(g.states)[ptag].(successors := follow)][stag := old(g.states)[stag].(exits := [])]
  {
    hide Linear, Hops, TidyExits, ExitsFrom, TailAt;
    var exits := g.states[stag].exits;
    if exits == [] {
      NoHops(fs, g0, s, i);
      assert follow == [stag];
      return;
    }
    var closure := ExitClosure(g.states, exits, fs, g0, s, i);
    var successors := AddSuccessors(g.states[ptag].successors, closure);
    g.states := g.states[ptag := g.states[ptag].(successors := successors)];
    g.states := g.states[stag := g.states[stag].(exits := [])];
  }

  method PropagateStep(g: StateGraph, ptag: Tag, stag: Tag,
                       ghost fs: seq<Field>, ghost g0: Graph, ghost s: seq<Tag>, ghost ps: seq<nat>, ghost m: nat)
    requires Linear(fs, g0, s) && Walk(fs, g0, s, ps) && 1 <= m < |ps| && Bounded(s, ps)
    requires ptag == s[ps[m-1]] && stag == s[ps[m]] && ClosedGraph(fs, g0, s, ps, m, g.states)
    modifies g
    ensures ClosedGraph(fs, g0, s, ps, m + 1, g.states)
  {
    ClosedFacts(fs, g0, s, ps, m, g.states);
    ClosedExits(fs, g0, s, ps, m, g.states);
    HopsFresh(fs, g0, s, ps[m]);
    hide Linear, TailAt, Walk, ClosedGraph, Hops, Followers, TidyExits, ExitsFrom, Bounded;
    ghost var before := g.states;
    PropagateAt(g, ptag, stag, fs, g0, s, ps[m], Followers(fs, g0, s, ps[m-1]));
    ClosedStep(fs, g0, s, ps, m, before, ptag, stag, g.states);
  }

  /** Step 4: walk forward, add what each state's exits lead to to the successors of its predecessor,
      and clear the exits. Clearing on the way loses nothing, exits only lead forward. */
  method PropagateAlong(g: StateGraph, sequence: seq<Tag>,
                        ghost fs: seq<Field>, ghost g0: Graph, ghost s: seq<Tag>, ghost ps: seq<nat>)
    requires Linear(fs, g0, s) && Walk(fs, g0, s, ps) && Bounded(s, ps)
    requires ClosedGraph(fs, g0, s, ps, 1, g.states) && sequence == Names(s, ps)
    modifies g
    ensures ClosedGraph(fs, g0, s, ps, |ps|, g.states)
  {
    hide Linear, Walk, ClosedGraph, Names;
    NamesAt(s, ps, 0);
    for m := 1 to |sequence|
      invariant ClosedGraph(fs, g0, s, ps, m, g.states)
    {
      NamesAt(s, ps, m);
      NamesAt(s, ps, m - 1);
      PropagateStep(g, sequence[m-1], sequence[m], fs, g0, s, ps, m);
    }
  }

  method PropagateExits(g: StateGraph, ghost fs: seq<Field>, ghost g0: Graph, ghost s: seq<Tag>)
    returns (ghost ps: seq<nat>)
    requires Linear(fs, g0, s) && TidyGraph(fs, g0, s, g.states)
    modifies g
    ensures Walk(fs, g0, s, ps) && Bounded(s, ps)
    ensures ClosedGraph(fs, g0, s, ps, |ps|, g.states)
  {
    ps := KeptPositions(fs, g0, s, 0);
    WalkExists(fs, g0, s);
    WalkChained(fs, g0, s, ps, g.states);
    ClosedStart(fs, g0, s, ps, g.states);
    hide *;
    var sequence := GetSequence(g.states, Names(s, ps));
    PropagateAlong(g, sequence, fs, g0, s, ps);
  }

  lemma NoHops(fs: seq<Field>, g0: Graph, s: seq<Tag>, i: nat)
    requires Linear(fs, g0, s) && i < |s| && TidyExits(fs, g0, s, i) == []
    ensures Hops(fs, g0, s, i) == []
  {
    HopStep(fs, g0, s, i);
  }

  method ClearScratch(g: StateGraph)
    modifies g
    ensures g.states.Keys == old(g.states).Keys
    ensures forall t | t in g.states :: g.states[t] == old(g.states)[t].(flows := [], exits := [])
  {
    g.states := map t | t in g.states :: g.states[t].(flows := [], exits := []);
  }

  lemma CleanedUp(fs: seq<Field>, g0: Graph, s: seq<Tag>, ps: seq<nat>, g: Graph, final: Graph)
    requires Linear(fs, g0, s) && Walk(fs, g0, s, ps) && Bounded(s, ps)
    requires ClosedGraph(fs, g0, s, ps, |ps|, g)
    requires final.Keys == g.Keys && forall t | t in g :: final[t] == g[t].(flows := [], exits := [])
    ensures Cleaned(fs, g0, s, final)
  {
    LinearNoDup(fs, g0, s);
    forall i | 0 <= i < |s| ensures CleanedAt(fs, g0, s, final, i) {
      assert LinearAt(fs, g0, s, i);
      CleanedUpAt(fs, g0, s, ps, g, final, i);
    }
  }

  lemma CleanedUpAt(fs: seq<Field>, g0: Graph, s: seq<Tag>, ps: seq<nat>, g: Graph, final: Graph, i: nat)
    requires Linear(fs, g0, s) && Walk(fs, g0, s, ps) && Bounded(s, ps)
    requires ClosedGraph(fs, g0, s, ps, |ps|, g) && i < |s|
    requires final.Keys == g.Keys && forall t | t in g :: final[t] == g[t].(flows := [], exits := [])
    ensures s[i] in g0 && (TailAt(fs, g0, s, i) ==> s[i] !in final)
    ensures !TailAt(fs, g0, s, i) ==>
      s[i] in final && final[s[i]] == ConcreteState(g0[s[i]].field, g0[s[i]].indices, [], [], Followers(fs, g0, s, i))
  {
    LinearNoDup(fs, g0, s);
    PosUnique(s, i);
    hide Linear, TailAt, KeptFrom, Reach;
    if !TailAt(fs, g0, s, i) {
      var j :| 0 <= j < |ps| && ps[j] == i;
      assert g[s[ps[j]]] == Closed(fs, g0, s, ps, |ps|, j);
      assert KeptLink(fs, g0, s, ps, j);
    }
  }

  // ---- The whole clean-up ----------------------------------------------------------------------

  /** post_process: on a graph laid out along its longest run, erases the list tails and leaves every
      other state with exactly the states that can follow it. */
  method PostProcess(g: StateGraph, fs: seq<Field>, ghost s: seq<Tag>)
    requires Linear(fs, g.states, s)
    modifies g
    ensures Cleaned(fs, old(g.states), s, g.states)
  {
    hide Linear, Reverses, TidyGraph, ClosedGraph, Moved, Chained, PrunedGraph, TailAt, Walk, Cleaned;
    ghost var g0 := g.states;
    MergeEdges(g);
    OpenAreOptional(fs, g0, s, g.states);
    LinearNoDup(fs, g0, s);
    var sequence := GetSequence(g.states, s);
    var rev := ReverseExits(g.states, sequence);
    var deleteSet;
    ghost var cur;
    rev, deleteSet, cur := PruneTails(g, fs, sequence, rev, g0);
    ghost var g2 := g.states;
    DeleteStates(g, deleteSet);
    AssignExits(g, rev, cur);
    TidyAfterStep3(fs, g0, s, g2, cur, g.states);
    ghost var ps := PropagateExits(g, fs, g0, s);
    ghost var g4 := g.states;
    ClearScratch(g);
    CleanedUp(fs, g0, s, ps, g4, g.states);
  }
}
