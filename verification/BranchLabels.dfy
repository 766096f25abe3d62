/** What the branches of the automaton offer: the label at a place is that of the state the successor at that place visits. */
module BranchLabels {
  import opened Traversal
  import opened Documents
  import opened Fta
  import opened FtaBuilder
  import opened Instantiation
  import opened AutomatonRuns

  /** The body puts text at place i: a fixed text at place 0, a choice its alternatives. */
  predicate Puts(body: Body, i: nat, text: string) {
    match body
    case Text(s, evaluate) => i == 0 && s == text && !evaluate
    case Complete(_, _, _, _) => false
    case Choose(choices, _, _) => i < |choices| && choices[i] == text
  }

  /** Place i of the branch at t belongs to u: there its label is offered, and there its field follows. */
  ghost predicate Belongs(x: Input, t: Tag, a: Action, i: nat, u: Tag)
    requires t in x.states
  {
    && u in Choices(x, t) && 0 <= u.field < |x.fs|
    && i < |a.successors| && a.successors[i] == FieldUid(x, u, t)
    && Puts(a.body, i, x.cfg.labelOf(u))
  }

  ghost predicate SomeBelongs(x: Input, t: Tag, a: Action, i: nat)
    requires t in x.states
  {
    exists u :: Belongs(x, t, a, i, u)
  }

  lemma BranchShape(x: Input, b: Build, t: Tag, a: Action)
    requires ActionOk(x, b, a) && a.uid == Branch(t)
    ensures t in x.states && |a.successors| == |Choices(x, t)|
    ensures forall i :: 0 <= i < |a.successors| ==> Belongs(x, t, a, i, Choices(x, t)[i])
    ensures a.body.Choose? ==> |a.body.choices| == |a.successors|
    ensures a.body.Text? ==> |a.successors| == 1
    ensures !a.body.Complete?
  {
    hide Filled, Skip;
    BranchChoices(x, b, t, a);
    forall i | 0 <= i < |a.successors| ensures Belongs(x, t, a, i, Choices(x, t)[i]) {
      assert Choices(x, t)[i] in Choices(x, t);
    }
  }

  /** Every place of a branch belongs to a state among which the run may choose, and every such state has a place. */
  lemma BranchOffers(x: Input, header: string, b: Build, t: Tag)
    requires Automaton(x, header, b) && Branch(t) in Uids(b.actions)
    ensures t in x.states
    ensures var a := Act(b.actions, Branch(t));
      && (forall i :: 0 <= i < |a.successors| ==> SomeBelongs(x, t, a, i))
      && (forall u | u in Choices(x, t) :: exists i :: Belongs(x, t, a, i, u))
      && (if a.body.Choose? then |a.body.choices| == |a.successors| else a.body.Text? && |a.successors| == 1)
  {
    hide Automaton, Decide, Belongs;
    ActFine(x, header, b, Branch(t));
    var a := Act(b.actions, Branch(t));
    BranchShape(x, b, t, a);
    forall i | 0 <= i < |a.successors| ensures SomeBelongs(x, t, a, i) {
      assert Belongs(x, t, a, i, Choices(x, t)[i]);
    }
    forall u | u in Choices(x, t) ensures exists i :: Belongs(x, t, a, i, u) {
      var j: nat :| j < |Choices(x, t)| && Choices(x, t)[j] == u;
      assert Belongs(x, t, a, j, u);
    }
  }
}
