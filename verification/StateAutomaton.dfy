/** concretize as a whole: from the serialised abstract states of a prompt to its final state graph. */
module StateAutomaton {
  import opened Schema
  import opened AbstractGraph
  import opened Traversal
  import opened Concretize
  import opened LinearGraph
  import opened CleanUp
  import opened Language
  import opened Instances

  /** The final state graph of a field table. */
  ghost predicate Final(fs: seq<Field>, g: Graph)
    requires WellFormed(fs)
  {
    Cleaned(fs, Raw(fs), Traverse(fs), g)
  }

  lemma RecordedIsRaw(fs: seq<Field>, g: Graph)
    requires WellFormed(fs) && Extends(fs, map[], g) && ROOT in g
    ensures g == Raw(fs)
  {
    ClosedHoldsAll(fs, g);
    RawUnique(fs, g);
  }

  /** concretize: unroll, then clean up. Whatever the order in which states are recorded, the result
      is the one final graph of the field table, and its paths are the instances of the table. */
  method ConcretizePrompt(abs: seq<Abstract>, fs: seq<Field>) returns (g: StateGraph)
    requires WellFormed(fs) && AbstractsOf(abs, fs)
    ensures fresh(g) && Final(fs, g.states)
    ensures forall w :: RootPath(g.states, w) <==> exists vs :: ValidInstance(fs, vs) && w == Spell(fs, vs)
  {
    hide *;
    g := new StateGraph();
    RootCall(fs, abs, g.states);
    var root := g.BuildConcreteRec(abs, fs, 0, [0]);
    RootTag(fs, abs);
    RecordedIsRaw(fs, g.states);
    PostProcess(g, fs, Traverse(fs));
    MakeFinal(fs, g.states);
    forall w ensures RootPath(g.states, w) <==> exists vs :: ValidInstance(fs, vs) && w == Spell(fs, vs) {
      PathsAreInstances(fs, g.states, w);
    }
  }

  lemma RootCall(fs: seq<Field>, abs: seq<Abstract>, g: Graph)
    requires WellFormed(fs) && AbstractsOf(abs, fs)
    ensures CallOk(fs, abs, g, 0, [0])
  {
    assert AbsTag(abs[0], [0]) == Traverse(fs)[0];
  }

  lemma RootTag(fs: seq<Field>, abs: seq<Abstract>)
    requires AbstractsOf(abs, fs)
    ensures |abs| > 0 && AbsTag(abs[0], [0]) == ROOT
  {
  }

  lemma MakeFinal(fs: seq<Field>, g: Graph)
    requires WellFormed(fs) && Cleaned(fs, Raw(fs), Traverse(fs), g)
    ensures Final(fs, g)
  {
  }

  // ---- What the builder of the action automaton relies on -----------------------------------------

  /** The place of a state in the longest run. */
  ghost function Rank(fs: seq<Field>, t: Tag): (i: nat)
    requires t in Traverse(fs)
    ensures i < |Traverse(fs)| && Traverse(fs)[i] == t
  {
    Pos(Traverse(fs), t)
  }

  /** No successor dangles and every edge leads strictly forward in the longest run, so the graph has no cycle. */
  lemma FinalForward(fs: seq<Field>, g: Graph, t: Tag)
    requires WellFormed(fs) && Final(fs, g) && t in g
    ensures t in Traverse(fs) && TagOf(fs, t) && g[t].field == t.field && g[t].indices == t.indices
    ensures forall u | u in g[t].successors :: u in g && u in Traverse(fs) && u != ROOT && Rank(fs, t) < Rank(fs, u)
    ensures NoDup(g[t].successors)
    ensures g[t].successors == [] <==> Rank(fs, t) + 1 == |Traverse(fs)|
  {
    var s := Traverse(fs);
    CountBoundsRoot(fs, t);
    FinalInRun(fs, g, t);
    hide Traverse, Raw;
    var i := Rank(fs, t);
    FollowersForward(fs, Raw(fs), s, g, i);
  }

  lemma CountBoundsRoot(fs: seq<Field>, t: Tag)
    requires WellFormed(fs) && t in Raw(fs)
    ensures t in Traverse(fs) && TagOf(fs, t) && Raw(fs)[t].field == t.field && Raw(fs)[t].indices == t.indices
  {
    RawIs(fs);
    assert CompleteIn(fs, Raw(fs), t);
  }

  lemma FinalInRun(fs: seq<Field>, g: Graph, t: Tag)
    requires WellFormed(fs) && Final(fs, g) && t in g
    ensures t in Raw(fs)
  {
  }

  lemma FollowersForward(fs: seq<Field>, g0: Graph, s: seq<Tag>, final: Graph, i: nat)
    requires Linear(fs, g0, s) && Cleaned(fs, g0, s, final) && i < |s| && s[i] in final
    ensures s[i] in g0 && final[s[i]].field == g0[s[i]].field && final[s[i]].indices == g0[s[i]].indices
    ensures forall u | u in final[s[i]].successors :: u in s && u in final && u != ROOT && i < Pos(s, u)
    ensures NoDup(final[s[i]].successors)
    ensures final[s[i]].successors == [] <==> i + 1 == |s|
  {
    LinearNoDup(fs, g0, s);
    assert CleanedAt(fs, g0, s, final, i);
    FinalSuccessors(fs, g0, s, final, i);
    assert s[0] == ROOT;
    hide Linear, NoDup;
    if i + 1 < |s| {
      ReachForward(fs, g0, s, KeptFrom(fs, g0, s, i + 1));
    }
    forall u | u in final[s[i]].successors ensures u in s && u in final && u != ROOT && i < Pos(s, u) {
      assert CleanedAt(fs, g0, s, final, Pos(s, u));
      PosUnique(s, 0);
    }
  }
}
