/** What the final state graph of a prompt means: its paths are the instances of the field table. */
module Language {
  import opened Schema
  import opened Traversal
  import opened Concretize
  import opened LinearGraph

  // ---- Runs of the raw graph and paths of the final one -----------------------------------

  /** A run of the raw graph: along flow and exit edges, until the exit to the root. */
  ghost predicate Run(g: Graph, r: seq<Tag>) {
    && |r| > 0 && (forall t | t in r :: t in g)
    && (forall k | 0 <= k < |r| - 1 :: RunStep(g, r[k], r[k+1]))
    && g[r[|r|-1]].flows == [] && (g[r[|r|-1]].exits == [] || g[r[|r|-1]].exits[0] == ROOT)
  }

  ghost predicate RunStep(g: Graph, t: Tag, u: Tag)
    requires t in g
  {
    u != ROOT && (u in g[t].flows || u in g[t].exits)
  }

  /** The run without the list states it leaves by their exit edge. */
  ghost function Erase(fs: seq<Field>, g: Graph, r: seq<Tag>): seq<Tag>
    requires InTable(fs, g, r)
  {
    if |r| <= 1 then r
    else (if IsListState(fs, g[r[0]]) && r[1] in g[r[0]].exits then [] else [r[0]]) + Erase(fs, g, r[1..])
  }

  /** A path of the final graph, from its first state to a state without successors. */
  ghost predicate Path(g: Graph, w: seq<Tag>) {
    && |w| > 0 && w[0] in g
    && if |w| == 1 then g[w[0]].successors == [] else w[1] in g[w[0]].successors && Path(g, w[1..])
  }

  ghost predicate RootPath(g: Graph, w: seq<Tag>) {
    Path(g, w) && w[0] == ROOT
  }

  // ---- Words accepted from a position of the longest run ------------------------------------

  ghost predicate SkipsAt(fs: seq<Field>, g: Graph, s: seq<Tag>, i: nat)
    requires Linear(fs, g, s) && i < |s|
  {
    TailAt(fs, g, s, i) || Optional(g, s, i)
  }

  ghost function ExitPos(fs: seq<Field>, g: Graph, s: seq<Tag>, i: nat): (j: nat)
    requires Linear(fs, g, s) && i < |s| && SkipsAt(fs, g, s, i)
    ensures i < j < |s| && g[s[i]].exits != [] && s[j] == g[s[i]].exits[0]
    ensures TailAt(fs, g, s, i) ==> j == i + 1
  {
    assert LinearAt(fs, g, s, i);
    if TailAt(fs, g, s, i) then TailNotLast(fs, g, s, i); i + 1 else Pos(s, g[s[i]].exits[0])
  }

  /** w is what some run from position i emits: a state is emitted unless a list is left at it. */
  ghost predicate Acc(fs: seq<Field>, g: Graph, s: seq<Tag>, i: nat, w: seq<Tag>)
    requires Linear(fs, g, s) && i <= |s|
    decreases |s| - i
  {
    if i == |s| then w == [] else
      || (!TailAt(fs, g, s, i) && |w| > 0 && w[0] == s[i] && Acc(fs, g, s, i + 1, w[1..]))
      || (SkipsAt(fs, g, s, i) && Acc(fs, g, s, ExitPos(fs, g, s, i), w))
  }

  lemma AccUnfold(fs: seq<Field>, g: Graph, s: seq<Tag>, i: nat, w: seq<Tag>)
    requires Linear(fs, g, s) && i < |s|
    ensures Acc(fs, g, s, i, w) <==>
      || (!TailAt(fs, g, s, i) && |w| > 0 && w[0] == s[i] && Acc(fs, g, s, i + 1, w[1..]))
      || (SkipsAt(fs, g, s, i) && Acc(fs, g, s, ExitPos(fs, g, s, i), w))
  {
    hide Linear, TailAt, SkipsAt, ExitPos;
  }

  /** No state can be passed over into nothing: the last one always shows. */
  lemma {:induction false} NeverEmpty(fs: seq<Field>, g: Graph, s: seq<Tag>, i: nat)
    requires Linear(fs, g, s) && i < |s|
    ensures !Acc(fs, g, s, i, [])
    decreases |s| - i
  {
    hide Linear, TailAt, Optional;
    if SkipsAt(fs, g, s, i) {
      NeverEmpty(fs, g, s, ExitPos(fs, g, s, i));
    }
  }

  /** The first letter is reachable from the first kept state on, and the rest follows it. */
  ghost predicate Heads(fs: seq<Field>, g: Graph, s: seq<Tag>, i: nat, w: seq<Tag>)
    requires Linear(fs, g, s) && i < |s|
  {
    && |w| > 0 && w[0] in s
    && w[0] in Reach(fs, g, s, KeptFrom(fs, g, s, i))
    && Acc(fs, g, s, Pos(s, w[0]) + 1, w[1..])
  }

  lemma KeptExit(fs: seq<Field>, g: Graph, s: seq<Tag>, i: nat)
    requires Linear(fs, g, s) && i < |s| && SkipsAt(fs, g, s, i)
    ensures Optional(g, s, i) ==> SkipTo(fs, g, s, i) == KeptFrom(fs, g, s, ExitPos(fs, g, s, i)) && !TailAt(fs, g, s, i)
    ensures TailAt(fs, g, s, i) ==> i + 1 < |s| && KeptFrom(fs, g, s, i) == KeptFrom(fs, g, s, i + 1)
  {
    assert LinearAt(fs, g, s, i);
  }

  lemma SeqNoDup(fs: seq<Field>, g: Graph, s: seq<Tag>)
    requires Linear(fs, g, s)
    ensures NoDup(s)
  {
  }

  /** Elimination of the silent steps. */
  lemma {:induction false} AccHeads(fs: seq<Field>, g: Graph, s: seq<Tag>, i: nat, w: seq<Tag>)
    requires Linear(fs, g, s) && i < |s|
    ensures Acc(fs, g, s, i, w) <==> Heads(fs, g, s, i, w)
    decreases |s| - i
  {
    SeqNoDup(fs, g, s);
    PosUnique(s, i);
    NeverEmpty(fs, g, s, i);
    if SkipsAt(fs, g, s, i) {
      KeptExit(fs, g, s, i);
      AccHeads(fs, g, s, ExitPos(fs, g, s, i), w);
    }
    hide Linear, TailAt, Optional, SkipTo, Pos, NoDup;
  }

  lemma {:induction false} ReachKept(fs: seq<Field>, g: Graph, s: seq<Tag>, i: nat)
    requires Linear(fs, g, s) && i < |s| && !TailAt(fs, g, s, i)
    ensures forall t | t in Reach(fs, g, s, i) :: t in s && !TailAt(fs, g, s, Pos(s, t))
    decreases |s| - i
  {
    SeqNoDup(fs, g, s);
    PosUnique(s, i);
    hide Linear, TailAt, SkipTo, NoDup;
    if Optional(g, s, i) {
      ReachKept(fs, g, s, SkipTo(fs, g, s, i));
    }
  }

  lemma FinalSuccessors(fs: seq<Field>, g: Graph, s: seq<Tag>, final: Graph, i: nat)
    requires Linear(fs, g, s) && Cleaned(fs, g, s, final) && i < |s| && !TailAt(fs, g, s, i)
    ensures s[i] in final && final[s[i]].successors == Followers(fs, g, s, i)
    ensures i + 1 < |s| ==> Followers(fs, g, s, i) != []
    ensures forall t | t in Followers(fs, g, s, i) :: t in s && !TailAt(fs, g, s, Pos(s, t))
  {
    assert CleanedAt(fs, g, s, final, i);
    if i + 1 < |s| {
      ReachKept(fs, g, s, KeptFrom(fs, g, s, i + 1));
    }
  }

  /** A path of the final graph from a kept state is what a run emits from there on. */
  lemma {:induction false} PathAcc(fs: seq<Field>, g: Graph, s: seq<Tag>, final: Graph, i: nat, w: seq<Tag>)
    requires Linear(fs, g, s) && Cleaned(fs, g, s, final) && i < |s| && !TailAt(fs, g, s, i)
    ensures Path(final, [s[i]] + w) <==> Acc(fs, g, s, i + 1, w)
    decreases |w|
  {
    hide Linear, TailAt, Cleaned, Reach, KeptFrom, Acc, Followers;
    FinalSuccessors(fs, g, s, final, i);
    FollowHeads(fs, g, s, i, w);
    var p := [s[i]] + w;
    if |w| > 0 {
      assert p[1..] == w && p[1] == w[0];
      if w[0] in Followers(fs, g, s, i) {
        var k := Pos(s, w[0]);
        assert w == [s[k]] + w[1..];
        PathAcc(fs, g, s, final, k, w[1..]);
      }
    }
  }

  /** What a run emits after state i: nothing at the end, else one of its followers and what comes then. */
  lemma FollowHeads(fs: seq<Field>, g: Graph, s: seq<Tag>, i: nat, w: seq<Tag>)
    requires Linear(fs, g, s) && i < |s| && !TailAt(fs, g, s, i)
    ensures Acc(fs, g, s, i + 1, w) <==>
      if Followers(fs, g, s, i) == [] then w == []
      else |w| > 0 && w[0] in s && w[0] in Followers(fs, g, s, i) && Acc(fs, g, s, Pos(s, w[0]) + 1, w[1..])
  {
    hide Linear, TailAt, KeptFrom, Reach;
    if i + 1 < |s| {
      AccHeads(fs, g, s, i + 1, w);
      hide Acc;
    }
  }

  // ---- Runs and acceptance ----------------------------------------------------------------

  lemma RunEdges(fs: seq<Field>, g: Graph, s: seq<Tag>, i: nat)
    requires Linear(fs, g, s) && i < |s|
    ensures s[i] in g && g[s[i]].field < |fs|
    ensures i + 1 < |s| ==> s[i+1] != ROOT && RunStep(g, s[i], s[i+1])
    ensures i + 1 < |s| && !TailAt(fs, g, s, i) ==> !(IsListState(fs, g[s[i]]) && s[i+1] in g[s[i]].exits)
    ensures SkipsAt(fs, g, s, i) ==>
      var x := s[ExitPos(fs, g, s, i)];
      IsListState(fs, g[s[i]]) && x in g[s[i]].exits && x != ROOT
    ensures g[s[i]].flows == [] && (g[s[i]].exits == [] || g[s[i]].exits[0] == ROOT) <==> i + 1 == |s|
    ensures i + 1 == |s| ==> !TailAt(fs, g, s, i)
    ensures forall u | RunStep(g, s[i], u) ::
      || (i + 1 < |s| && u == s[i+1] && !TailAt(fs, g, s, i) && !(IsListState(fs, g[s[i]]) && u in g[s[i]].exits))
      || (SkipsAt(fs, g, s, i) && u == s[ExitPos(fs, g, s, i)] && IsListState(fs, g[s[i]]) && u in g[s[i]].exits)
  {
    assert LinearAt(fs, g, s, i);
    if i + 1 < |s| { assert s[i+1] != s[0]; }
    if SkipsAt(fs, g, s, i) { assert s[ExitPos(fs, g, s, i)] != s[0]; }
  }

  ghost predicate InTable(fs: seq<Field>, g: Graph, r: seq<Tag>) {
    forall t | t in r :: t in g && g[t].field < |fs|
  }

  lemma RunCons(g: Graph, t: Tag, r: seq<Tag>)
    requires Run(g, r) && t in g && RunStep(g, t, r[0])
    ensures Run(g, [t] + r)
  {
    var c := [t] + r;
    forall k | 0 <= k < |c| - 1 ensures RunStep(g, c[k], c[k+1]) {
      if k > 0 { assert RunStep(g, r[k-1], r[k]); }
    }
  }

  lemma RunRest(g: Graph, r: seq<Tag>)
    requires Run(g, r) && |r| > 1
    ensures Run(g, r[1..]) && RunStep(g, r[0], r[1])
  {
    var c := r[1..];
    forall k | 0 <= k < |c| - 1 ensures RunStep(g, c[k], c[k+1]) {
      assert RunStep(g, r[k+1], r[k+2]);
    }
  }

  lemma EraseCons(fs: seq<Field>, g: Graph, t: Tag, r: seq<Tag>)
    requires t in g && g[t].field < |fs| && InTable(fs, g, r) && |r| > 0
    ensures InTable(fs, g, [t] + r)
    ensures Erase(fs, g, [t] + r) ==
      (if IsListState(fs, g[t]) && r[0] in g[t].exits then [] else [t]) + Erase(fs, g, r)
  {
    assert ([t] + r)[1..] == r;
  }

  /** The position a step of a run arrives at. */
  lemma StepTo(fs: seq<Field>, g: Graph, s: seq<Tag>, i: nat, u: Tag) returns (j: nat)
    requires Linear(fs, g, s) && i < |s| && s[i] in g && RunStep(g, s[i], u)
    ensures i < j < |s| && s[j] == u && g[s[i]].field < |fs|
    ensures forall e | Acc(fs, g, s, j, e) ::
      Acc(fs, g, s, i, (if IsListState(fs, g[s[i]]) && u in g[s[i]].exits then [] else [s[i]]) + e)
  {
    RunEdges(fs, g, s, i);
    hide Linear, TailAt, Optional;
    var erased := IsListState(fs, g[s[i]]) && u in g[s[i]].exits;
    j := if erased then ExitPos(fs, g, s, i) else i + 1;
    forall e | Acc(fs, g, s, j, e) ensures Acc(fs, g, s, i, (if erased then [] else [s[i]]) + e) {
      assert [] + e == e && ([s[i]] + e)[1..] == e;
    }
  }

  lemma {:induction false} RunAcc(fs: seq<Field>, g: Graph, s: seq<Tag>, i: nat, r: seq<Tag>)
    requires Linear(fs, g, s) && i < |s| && Run(g, r) && r[0] == s[i]
    ensures InTable(fs, g, r) && Acc(fs, g, s, i, Erase(fs, g, r))
    decreases |r|
  {
    if |r| > 1 {
      RunRest(g, r);
      hide Linear, Run, Erase, RunStep, InTable, Acc;
      var j := StepTo(fs, g, s, i, r[1]);
      RunAcc(fs, g, s, j, r[1..]);
      EraseCons(fs, g, s[i], r[1..]);
      assert r == [s[i]] + r[1..];
    } else {
      RunEdges(fs, g, s, i);
      hide Linear, TailAt;
      assert r == [s[i]] && r[1..] == [];
    }
  }

  lemma {:induction false} AccRun(fs: seq<Field>, g: Graph, s: seq<Tag>, i: nat, w: seq<Tag>) returns (r: seq<Tag>)
    requires Linear(fs, g, s) && i < |s| && Acc(fs, g, s, i, w)
    ensures Run(g, r) && r[0] == s[i]
    ensures InTable(fs, g, r) && Erase(fs, g, r) == w
    decreases |s| - i
  {
    RunEdges(fs, g, s, i);
    if i + 1 == |s| {
      r := [s[i]];
      return;
    }
    hide Linear, TailAt, Optional, Erase, InTable;
    if !TailAt(fs, g, s, i) && |w| > 0 && w[0] == s[i] && Acc(fs, g, s, i + 1, w[1..]) {
      var r' := AccRun(fs, g, s, i + 1, w[1..]);
      r := [s[i]] + r';
      RunCons(g, s[i], r');
      EraseCons(fs, g, s[i], r');
      assert w == [s[i]] + w[1..];
    } else {
      var r' := AccRun(fs, g, s, ExitPos(fs, g, s, i), w);
      r := [s[i]] + r';
      RunCons(g, s[i], r');
      EraseCons(fs, g, s[i], r');
      assert [] + w == w;
    }
  }

  /** The clean-up preserves the language: the paths of the final graph are exactly the runs of the raw
      graph with the list states they leave by the exit edge erased. */
  lemma CleanUpPreservesRuns(fs: seq<Field>, g: Graph, s: seq<Tag>, final: Graph, w: seq<Tag>)
    requires Linear(fs, g, s) && Cleaned(fs, g, s, final)
    ensures forall r | Run(g, r) && r[0] == ROOT :: InTable(fs, g, r)
    ensures RootPath(final, w) <==> exists r :: Run(g, r) && r[0] == ROOT && Erase(fs, g, r) == w
  {
    assert s[0] == ROOT;
    forall r | Run(g, r) && r[0] == ROOT ensures InTable(fs, g, r) {
      RunAcc(fs, g, s, 0, r);
    }
    hide Run, Erase, InTable, Linear;
    PathWord(fs, g, s, final, w);
    if Acc(fs, g, s, 0, w) {
      var r := AccRun(fs, g, s, 0, w);
    }
    if r :| Run(g, r) && r[0] == ROOT && Erase(fs, g, r) == w {
      RunAcc(fs, g, s, 0, r);
    }
  }

  lemma PathWord(fs: seq<Field>, g: Graph, s: seq<Tag>, final: Graph, w: seq<Tag>)
    requires Linear(fs, g, s) && Cleaned(fs, g, s, final)
    ensures RootPath(final, w) <==> Acc(fs, g, s, 0, w)
  {
    assert LinearAt(fs, g, s, 0);
    if |w| > 0 && w[0] == ROOT {
      PathAcc(fs, g, s, final, 0, w[1..]);
      assert w == [s[0]] + w[1..];
    }
  }
}
