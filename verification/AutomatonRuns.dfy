/** What a run of the automaton goes through: the states it visits are exactly a complete walk. */
module AutomatonRuns {
  import opened Traversal
  import opened Documents
  import opened Fta
  import opened FtaBuilder
  import opened DecisionWalks
  import opened Instantiation

  /** The action of that uid. */
  ghost function Act(actions: seq<Action>, uid: Uid): (a: Action)
    requires uid in Uids(actions)
    ensures a in actions && a.uid == uid
  {
    var i :| 0 <= i < |actions| && Uids(actions)[i] == uid;
    actions[i]
  }

  /** A run of the automaton from r[0] on, until an action without successors. */
  ghost predicate Thread(actions: seq<Action>, r: seq<Uid>) {
    && |r| > 0 && r[0] in Uids(actions)
    && (if |r| == 1 then Act(actions, r[0]).successors == []
        else r[1] in Act(actions, r[0]).successors && Thread(actions, r[1..]))
  }

  /** The states whose field, or empty connector, a run passes. */
  function Visits(r: seq<Uid>): seq<Tag> {
    if r == [] then []
    else
      match r[0]
      case FieldOf(u, _) => [u] + Visits(r[1..])
      case SkipOf(u, _) => [u] + Visits(r[1..])
      case _ => Visits(r[1..])
  }

  lemma ActFine(x: Input, header: string, b: Build, uid: Uid)
    requires Automaton(x, header, b) && uid in Uids(b.actions)
    ensures uid != Header ==> ActionOk(x, b, Act(b.actions, uid))
    ensures uid == Header ==> Act(b.actions, uid) == b.actions[0]
    ensures forall i | 0 <= i < |b.actions| && b.actions[i].uid == uid :: Act(b.actions, uid) == b.actions[i]
  {
    hide ActionOk, EntryOf;
    var a := Act(b.actions, uid);
    var k :| 0 <= k < |b.actions| && b.actions[k] == a;
    forall i | 0 <= i < |b.actions| && b.actions[i].uid == uid ensures a == b.actions[i] {
      assert Uids(b.actions)[i] == Uids(b.actions)[k];
      assert i == k;
    }
  }

  lemma ThreadStep(actions: seq<Action>, r: seq<Uid>)
    requires Thread(actions, r)
    ensures |r| > 0 && r[0] in Uids(actions)
    ensures |r| == 1 ==> Act(actions, r[0]).successors == []
    ensures |r| > 1 ==> r[1] in Act(actions, r[0]).successors && Thread(actions, r[1..])
  {
  }

  lemma ThreadCons(actions: seq<Action>, uid: Uid, r: seq<Uid>)
    requires uid in Uids(actions) && Thread(actions, r) && r[0] in Act(actions, uid).successors
    ensures Thread(actions, [uid] + r)
    ensures Visits([uid] + r) == (match uid case FieldOf(u, _) => [u] case SkipOf(u, _) => [u] case _ => []) + Visits(r)
  {
    assert ([uid] + r)[1..] == r;
  }

  lemma VisitsRest(r: seq<Uid>)
    requires |r| > 0
    ensures Visits(r) == (match r[0] case FieldOf(u, _) => [u] case SkipOf(u, _) => [u] case _ => []) + Visits(r[1..])
  {
  }

  /** What leads on from the branch of t: the field actions of its choices, each to a line end, each to an entry. */
  lemma BranchLeads(x: Input, header: string, b: Build, t: Tag)
    requires Automaton(x, header, b) && Branch(t) in Uids(b.actions)
    ensures t in x.states && Choices(x, t) != []
    ensures forall u | u in Choices(x, t) :: Follows(x, t, u) && 0 <= u.field < |x.fs|
    ensures forall s | s in Act(b.actions, Branch(t)).successors :: exists u :: u in Choices(x, t) && s == FieldUid(x, u, t)
    ensures forall u | u in Choices(x, t) :: FieldUid(x, u, t) in Act(b.actions, Branch(t)).successors
  {
    hide Automaton, Decide, FieldUid;
    ActFine(x, header, b, Branch(t));
    var us := Choices(x, t);
    BranchChoices(x, b, t, Act(b.actions, Branch(t)));
    forall s | s in FieldUids(x, us, t) ensures exists u :: u in us && s == FieldUid(x, u, t) {
      var j :| 0 <= j < |us| && FieldUids(x, us, t)[j] == s;
      assert us[j] in us;
    }
    forall u | u in us ensures FieldUid(x, u, t) in FieldUids(x, us, t) {
      var j :| 0 <= j < |us| && us[j] == u;
      assert FieldUids(x, us, t)[j] == FieldUid(x, u, t);
    }
  }

  lemma BranchChoices(x: Input, b: Build, t: Tag, a: Action)
    requires ActionOk(x, b, a) && a.uid == Branch(t)
    ensures t in x.states && Choices(x, t) != [] && forall u | u in Choices(x, t) :: 0 <= u.field < |x.fs|
    ensures a.successors == FieldUids(x, Choices(x, t), t)
  {
    hide FieldUids, Labels, Filled, Skip;
  }

  /** The field action of u leads to its line end, and to nothing else. */
  lemma FieldLeads(x: Input, header: string, b: Build, t: Tag, u: Tag)
    requires Automaton(x, header, b) && 0 <= u.field < |x.fs| && FieldUid(x, u, t) in Uids(b.actions)
    ensures var s := Act(b.actions, FieldUid(x, u, t)).successors;
      s != [] && forall e | e in s :: e == EndlOf(u, t) && e in Uids(b.actions)
    ensures FieldAction(x, u, t).Some?
  {
    hide Automaton, Follows, FieldBody;
    ActFine(x, header, b, FieldUid(x, u, t));
  }

  lemma EndlLeads(x: Input, header: string, b: Build, t: Tag, u: Tag)
    requires Automaton(x, header, b) && EndlOf(u, t) in Uids(b.actions)
    ensures u in b.memo && b.memo[u] < |b.actions| && Act(b.actions, EndlOf(u, t)).successors == EntryOf(b, u)
    ensures MemoOk(x, b, u)
  {
    hide Follows, MemoOk;
    ActFine(x, header, b, EndlOf(u, t));
  }

  /** The entry of t is its branch, or a description that leads there. */
  lemma EntryLeads(x: Input, header: string, b: Build, t: Tag)
    requires Automaton(x, header, b) && t in b.memo
    ensures t in x.states && b.memo[t] < |b.actions|
    ensures EntryOf(b, t) == [] <==> Choices(x, t) == []
    ensures EntryOf(b, t) != [] ==>
      var e := EntryOf(b, t)[0];
      e in Uids(b.actions) && (e == Branch(t) || (e.Desc? && Act(b.actions, e).successors == [Branch(t)]))
    ensures EntryOf(b, t) != [] ==> Branch(t) in Uids(b.actions)
  {
    assert MemoOk(x, b, t);
    DeadChoices(x, t);
    hide ActionOk, Decide, NoDup, FieldUids;
    if b.memo[t] >= 0 {
      var i := b.memo[t];
      assert Uids(b.actions)[i] == b.actions[i].uid;
      ActFine(x, header, b, b.actions[i].uid);
      if b.actions[i].uid.Desc? {
        DescLeads(x, b, b.actions[i], Branch(t));
      }
    }
  }

  lemma DescLeads(x: Input, b: Build, a: Action, s: Uid)
    requires ActionOk(x, b, a) && a.successors == [s]
    ensures s in Uids(b.actions)
  {
    assert s in a.successors;
  }

  lemma DeadChoices(x: Input, t: Tag)
    requires t in x.states
    ensures Decide(x, t) == Dead <==> Choices(x, t) == []
  {
    hide Filled, Skip;
  }

  // ---- From runs to walks -------------------------------------------------------------------------------

  ghost predicate WalksOn(x: Input, t: Tag, us: seq<Tag>) {
    var w := [t] + us;
    Walk(x, w) && w[|w|-1] in x.states && Choices(x, w[|w|-1]) == []
  }

  lemma WalksCons(x: Input, t: Tag, u: Tag, us: seq<Tag>)
    requires t in x.states && u in Choices(x, t) && WalksOn(x, u, us)
    ensures WalksOn(x, t, [u] + us)
  {
    hide Choices;
    var w := [t] + ([u] + us);
    assert w[1..] == [u] + us;
    assert w[|w|-1] == ([u] + us)[|us|];
  }

  lemma {:induction false} EntryThread(x: Input, header: string, b: Build, t: Tag, r: seq<Uid>)
    requires Automaton(x, header, b) && t in b.memo && Thread(b.actions, r) && EntryOf(b, t) == [r[0]]
    ensures WalksOn(x, t, Visits(r))
    decreases |r|, 1
  {
    hide *;
    EntryLeads(x, header, b, t);
    ThreadStep(b.actions, r);
    VisitsRest(r);
    if r[0] == Branch(t) {
      BranchThread(x, header, b, t, r);
    } else {
      BranchThread(x, header, b, t, r[1..]);
      assert [] + Visits(r[1..]) == Visits(r[1..]);
    }
  }

  lemma {:induction false} BranchThread(x: Input, header: string, b: Build, t: Tag, r: seq<Uid>)
    requires Automaton(x, header, b) && Thread(b.actions, r) && r[0] == Branch(t)
    ensures WalksOn(x, t, Visits(r))
    decreases |r|, 0
  {
    hide Automaton, Thread, Choices, Walk, WalksOn, Visits, MemoOk, Uids, EntryOf, FieldAction;
    ThreadStep(b.actions, r);
    BranchLeads(x, header, b, t);
    assert Choices(x, t)[0] in Choices(x, t);
    var r1 := r[1..];
    var u :| u in Choices(x, t) && r1[0] == FieldUid(x, u, t);
    ThreadStep(b.actions, r1);
    FieldLeads(x, header, b, t, u);
    var r2 := r1[1..];
    ThreadStep(b.actions, r2);
    EndlLeads(x, header, b, t, u);
    EntryLeads(x, header, b, u);
    VisitsRest(r);
    VisitsRest(r1);
    VisitsRest(r2);
    VisitsNone();
    assert [] + Visits(r1) == Visits(r1) && [] + Visits(r2[1..]) == Visits(r2[1..]);
    if |r2| == 1 {
      WalksEnd(x, u);
      assert r2[1..] == [];
      WalksCons(x, t, u, []);
    } else {
      EntryOne(b, u);
      EntryThread(x, header, b, u, r2[1..]);
      WalksCons(x, t, u, Visits(r2[1..]));
    }
  }

  lemma VisitsNone()
    ensures Visits([]) == []
  {
  }

  lemma EntryOne(b: Build, u: Tag)
    requires u in b.memo
    ensures |EntryOf(b, u)| <= 1
  {
  }

  lemma WalksEnd(x: Input, u: Tag)
    requires u in x.states && Choices(x, u) == []
    ensures WalksOn(x, u, [])
  {
    assert [u] + [] == [u];
  }

  // ---- From walks to runs -------------------------------------------------------------------------------

  lemma WalksParts(x: Input, t: Tag, us: seq<Tag>)
    requires WalksOn(x, t, us)
    ensures t in x.states
    ensures us == [] ==> Choices(x, t) == []
    ensures us != [] ==> us[0] in Choices(x, t) && WalksOn(x, us[0], us[1..])
  {
    hide Choices;
    var w := [t] + us;
    if us != [] {
      assert w[1..] == us && us == [us[0]] + us[1..];
    }
  }

  lemma ThreadOne(actions: seq<Action>, uid: Uid)
    requires uid in Uids(actions) && Act(actions, uid).successors == []
    ensures Thread(actions, [uid])
  {
  }

  lemma {:induction false} WalkThread(x: Input, header: string, b: Build, t: Tag, us: seq<Tag>) returns (r: seq<Uid>)
    requires Automaton(x, header, b) && t in b.memo && WalksOn(x, t, us) && us != []
    ensures Thread(b.actions, r) && EntryOf(b, t) == [r[0]] && Visits(r) == us
    decreases |us|
  {
    hide Automaton, Thread, Choices, Walk, WalksOn, Visits, MemoOk, Uids, EntryOf, FieldAction, FieldUid;
    WalksParts(x, t, us);
    EntryLeads(x, header, b, t);
    EntryOne(b, t);
    BranchLeads(x, header, b, t);
    var u := us[0];
    assert Follows(x, t, u);
    var f, e := FieldUid(x, u, t), EndlOf(u, t);
    BranchSuccessor(x, header, b, t, f);
    FieldLeads(x, header, b, t, u);
    assert Act(b.actions, f).successors[0] in Act(b.actions, f).successors;
    EndlLeads(x, header, b, t, u);
    EntryLeads(x, header, b, u);
    EntryOne(b, u);
    WalksParts(x, u, us[1..]);
    VisitsNone();
    if us[1..] == [] {
      ThreadOne(b.actions, e);
      VisitsRest([e]);
      r := [e];
    } else {
      var rest := WalkThread(x, header, b, u, us[1..]);
      ThreadCons(b.actions, e, rest);
      r := [e] + rest;
    }
    assert [e][1..] == [] && [] + us[1..] == us[1..];
    ThreadCons(b.actions, f, r);
    FieldVisit(x, u, t, r);
    r := [f] + r;
    ThreadCons(b.actions, Branch(t), r);
    r := [Branch(t)] + r;
    assert Visits(r) == us;
    if EntryOf(b, t)[0] != Branch(t) {
      ThreadCons(b.actions, EntryOf(b, t)[0], r);
      r := [EntryOf(b, t)[0]] + r;
    }
  }

  lemma BranchSuccessor(x: Input, header: string, b: Build, t: Tag, s: Uid)
    requires Automaton(x, header, b) && Branch(t) in Uids(b.actions) && s in Act(b.actions, Branch(t)).successors
    ensures s in Uids(b.actions)
  {
    hide Follows;
    ActFine(x, header, b, Branch(t));
  }

  lemma FieldVisit(x: Input, u: Tag, t: Tag, r: seq<Uid>)
    requires 0 <= u.field < |x.fs|
    ensures Visits([FieldUid(x, u, t)] + r) == [u] + Visits(r)
  {
    VisitsRest([FieldUid(x, u, t)] + r);
    assert ([FieldUid(x, u, t)] + r)[1..] == r;
  }

  lemma HeaderThread(x: Input, header: string, b: Build, r: seq<Uid>)
    requires Automaton(x, header, b) && Thread(b.actions, r) && r[0] == Header
    ensures WalksOn(x, ROOT, Visits(r))
  {
    hide *;
    HeaderLeads(x, header, b);
    EntryLeads(x, header, b, ROOT);
    EntryOne(b, ROOT);
    ThreadStep(b.actions, r);
    VisitsRest(r);
    VisitsNone();
    assert [] + Visits(r[1..]) == Visits(r[1..]);
    if |r| == 1 {
      assert r[1..] == [];
      WalksEnd(x, ROOT);
    } else {
      EntryThread(x, header, b, ROOT, r[1..]);
    }
  }

  lemma HeaderWalk(x: Input, header: string, b: Build, us: seq<Tag>) returns (r: seq<Uid>)
    requires Automaton(x, header, b) && WalksOn(x, ROOT, us)
    ensures |r| > 0 && r[0] == Header && Thread(b.actions, r) && Visits(r) == us
  {
    hide *;
    HeaderLeads(x, header, b);
    EntryLeads(x, header, b, ROOT);
    WalksParts(x, ROOT, us);
    VisitsNone();
    r := [Header];
    if us == [] {
      ThreadOne(b.actions, Header);
      VisitsRest(r);
      assert r[1..] == [];
    } else {
      var rest := WalkThread(x, header, b, ROOT, us);
      ThreadCons(b.actions, Header, rest);
      r := r + rest;
      assert [] + us == us;
    }
  }

  /** Runs of the automaton and walks through the states are the same thing: from the header on, the
      automaton goes through exactly the sequences of states that the content leaves open. */
  lemma RunsAreWalks(x: Input, header: string, b: Build, us: seq<Tag>)
    requires Automaton(x, header, b)
    ensures (exists r :: |r| > 0 && r[0] == Header && Thread(b.actions, r) && Visits(r) == us) <==> CompleteWalk(x, [ROOT] + us)
  {
    hide Automaton, Thread, Visits, Walk, Choices;
    if r :| |r| > 0 && r[0] == Header && Thread(b.actions, r) && Visits(r) == us {
      HeaderThread(x, header, b, r);
    }
    if CompleteWalk(x, [ROOT] + us) {
      var r := HeaderWalk(x, header, b, us);
    }
  }

  lemma HeaderLeads(x: Input, header: string, b: Build)
    requires Automaton(x, header, b)
    ensures ROOT in b.memo && Header in Uids(b.actions) && Act(b.actions, Header).successors == EntryOf(b, ROOT)
  {
    hide MemoOk, ActionOk, NoDup;
    assert Uids(b.actions)[0] == Header;
    ActFine(x, header, b, Header);
  }

  // ---- What an automaton that was built can rely on --------------------------------------------------------

  lemma {:induction false} NoneBlocked(x: Input, header: string, b: Build, w: seq<Tag>)
    requires Automaton(x, header, b) && Walk(x, w) && |w| > 1 && w[0] in b.memo
    ensures !Unrenderable(x, w[|w|-1])
    decreases |w|
  {
    hide Automaton, Choices, MemoOk, Uids, EntryOf, FieldAction, FieldUid, Unrenderable;
    var t, u := w[0], w[1];
    EntryLeads(x, header, b, t);
    assert Choices(x, t) != [];
    BranchLeads(x, header, b, t);
    BranchSuccessor(x, header, b, t, FieldUid(x, u, t));
    FieldLeads(x, header, b, t, u);
    ChoiceOpen(x, t, u);
    hide Blocked;
    Blocking(x, t, u);
    assert Act(b.actions, FieldUid(x, u, t)).successors[0] in Act(b.actions, FieldUid(x, u, t)).successors;
    EndlLeads(x, header, b, t, u);
    if |w| > 2 { NoneBlocked(x, header, b, w[1..]); }
  }

  /** The builder fails on account of the content exactly when it must: an automaton that was built has no
      walk from the root to a leaf whose content is not a scalar. */
  lemma BuiltUnblocked(x: Input, header: string, actions: seq<Action>, f: int)
    requires FtaOf(x, header, actions)
    ensures !Blocked(x, ROOT, f)
  {
    var b: Build :| b.actions == actions && Automaton(x, header, b);
    forall w: seq<Tag> | Walk(x, w) && |w| > 1 && w[0] == ROOT ensures !Unrenderable(x, w[|w|-1]) {
      NoneBlocked(x, header, b, w);
    }
    hide Automaton, Walk, Unrenderable;
  }

  lemma {:induction false} InThread(actions: seq<Action>, r: seq<Uid>, i: nat)
    requires Thread(actions, r) && i < |r|
    ensures r[i] in Uids(actions)
  {
    hide Uids;
    ThreadStep(actions, r);
    if i > 0 { InThread(actions, r[1..], i - 1); }
  }
}
