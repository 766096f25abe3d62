/** Compiling the final state graph and the content into the action automaton. */
module FtaBuilder {
  import opened Schema
  import opened Traversal
  import opened StateAutomaton
  import opened Documents
  import opened Ravelling
  import opened Fta

  datatype Result<+T> = Ok(value: T) | Composite(field: int)
  {
    predicate IsFailure() { Composite? }

    function PropagateFailure<U>(): Result<U>
      requires Composite?
    {
      Composite(field)
    }

    function Extract(): T
      requires Ok?
    {
      value
    }
  }

  ghost predicate InputOk(x: Input) {
    WellFormed(x.fs) && Final(x.fs, x.states)
  }

  /** What the builder has so far. */
  datatype Build = Build(actions: seq<Action>, memo: map<Tag, int>, described: set<int>)

  function Uids(acts: seq<Action>): (r: seq<Uid>)
    ensures |r| == |acts| && forall i | 0 <= i < |acts| :: r[i] == acts[i].uid
  {
    seq(|acts|, i requires 0 <= i < |acts| => acts[i].uid)
  }

  // ---- What a finished action looks like ----------------------------------------------------

  /** Where the automaton goes on after state u: to the entry of u, or nowhere. */
  ghost function EntryOf(b: Build, u: Tag): seq<Uid>
    requires u in b.memo
  {
    if 0 <= b.memo[u] < |b.actions| then [b.actions[b.memo[u]].uid] else []
  }

  function FieldUids(x: Input, us: seq<Tag>, from: Tag): seq<Uid>
    requires forall u | u in us :: 0 <= u.field < |x.fs|
  {
    seq(|us|, i requires 0 <= i < |us| => FieldUid(x, us[i], from))
  }

  function Labels(x: Input, us: seq<Tag>): seq<string> {
    seq(|us|, i requires 0 <= i < |us| => x.cfg.labelOf(us[i]))
  }

  /** The body of the branch at t: fixed text when there is one way to go on, else a choice of labels. */
  ghost predicate BranchBody(x: Input, t: Tag, body: Body)
    requires t in x.states
  {
    match Decide(x, t)
    case Dead => false
    case Single(u) => body == Text(x.cfg.labelOf(u))
    case Forced(u) => body == Text(x.cfg.labelOf(u))
    case Open(us) =>
      var cs := x.cfg.choiceSearch(t.field, BranchChoice);
      body == Choose(Labels(x, us), cs.width, cs.threshold)
  }

  /** The field of u has a description, and descriptions are wanted. */
  predicate Describable(x: Input, u: Tag) {
    0 <= u.field < |x.fs| && x.cfg.descInline && x.fs[u.field].desc != []
  }

  /** The states among which a run goes on from t. */
  ghost predicate Follows(x: Input, t: Tag, u: Tag) {
    t in x.states && u in Choices(x, t) && 0 <= u.field < |x.fs|
  }

  /** The line end after u, before it is known where it leads. */
  function EndlAction(x: Input, u: Tag, t: Tag): Action {
    Action(EndlOf(u, t), [], None, [], Text(x.cfg.separator))
  }

  ghost predicate ActionOk(x: Input, b: Build, a: Action) {
    && (forall s | s in a.successors :: s in Uids(b.actions))
    && match a.uid
       case Header => true
       case Desc(u) =>
         && Describable(x, u) && a.body == Text(x.cfg.descText(u.field)) && a.field.None? && a.indices == []
         && |a.successors| == 1 && a.successors[0].Branch? &&
         a.successors[0].state in x.states && Decide(x, a.successors[0].state) == Single(u)
       case Branch(t) =>
         && t in x.states && (forall u | u in Choices(x, t) :: 0 <= u.field < |x.fs|)
         && BranchBody(x, t, a.body) && a.field.None? && a.indices == []
         && a.successors == FieldUids(x, Choices(x, t), t)
       case FieldOf(u, t) => Follows(x, t, u) && FieldAction(x, u, t) == Some(a)
       case SkipOf(u, t) => Follows(x, t, u) && FieldAction(x, u, t) == Some(a)
       case EndlOf(u, t) =>
         && Follows(x, t, u) && u in b.memo && b.memo[u] < |b.actions|
         && a == EndlAction(x, u, t).(successors := EntryOf(b, u))
  }

  /** The memoised entry of t: none exactly when no way is left, else its description or its branch. */
  ghost predicate MemoOk(x: Input, b: Build, t: Tag) {
    && t in b.memo && t in x.states
    && (b.memo[t] == -1 <==> Decide(x, t) == Dead)
    && (b.memo[t] != -1 ==>
      && 0 <= b.memo[t] < |b.actions|
      && var uid := b.actions[b.memo[t]].uid;
      && (uid == Branch(t) || (uid.Desc? && Decide(x, t) == Single(uid.succ)
                               && b.actions[b.memo[t]].successors == [Branch(t)])))
  }

  // ---- Growth --------------------------------------------------------------------------------------

  /** b1 has everything b0 had; only the successors of old actions may differ. */
  ghost predicate Later(b0: Build, b1: Build) {
    && Uids(b0.actions) <= Uids(b1.actions)
    && (forall t | t in b0.memo :: t in b1.memo && b1.memo[t] == b0.memo[t])
    && b0.described <= b1.described
    && (forall i | 0 <= i < |b0.actions| && b0.actions[i].uid.Desc? :: b1.actions[i] == b0.actions[i])
  }

  /** The state an action was created for. */
  function Owner(uid: Uid): Option<Tag> {
    match uid
    case Header => None
    case Desc(_) => None
    case Branch(t) => Some(t)
    case FieldOf(_, t) => Some(t)
    case SkipOf(_, t) => Some(t)
    case EndlOf(_, t) => Some(t)
  }

  ghost predicate RankBelow(x: Input, t: Tag, r: nat) {
    t in Traverse(x.fs) && Rank(x.fs, t) < r
  }

  /** Every uid in use belongs to a finished state, to one of rank below r, or to a described field. */
  ghost predicate Known(x: Input, b: Build, r: nat) {
    forall uid | uid in Uids(b.actions) :: KnownUid(x, b, r, uid)
  }

  ghost predicate KnownUid(x: Input, b: Build, r: nat, uid: Uid) {
    match uid
    case Header => true
    case Desc(u) => u.field in b.described
    case _ => Owner(uid).value in b.memo || RankBelow(x, Owner(uid).value, r)
  }

  /** A uid that was not in use before: it belongs to a state finished since, to t, or to a newly described field. */
  ghost predicate NewUid(b0: Build, b1: Build, t: Option<Tag>, uid: Uid) {
    match uid
    case Header => false
    case Desc(u) => u.field !in b0.described && u.field in b1.described
    case _ => (Owner(uid).value !in b0.memo && Owner(uid).value in b1.memo) || Owner(uid) == t
  }

  ghost predicate NewMemo(x: Input, b0: Build, b1: Build, r: nat) {
    forall t | t in b1.memo && t !in b0.memo :: MemoOk(x, b1, t) && t in Traverse(x.fs) && r <= Rank(x.fs, t)
  }

  ghost predicate NewActions(x: Input, b0: Build, b1: Build, t: Option<Tag>, pending: set<int>) {
    forall i | |b0.actions| <= i < |b1.actions| ::
      NewUid(b0, b1, t, b1.actions[i].uid) && (i !in pending ==> ActionOk(x, b1, b1.actions[i]))
  }

  /** b1 grew out of b0: old actions are untouched, all that is new is in order except the pending actions of t. */
  ghost predicate Grown(x: Input, b0: Build, b1: Build, r: nat, t: Option<Tag>, pending: set<int>) {
    && Later(b0, b1)
    && |b0.actions| <= |b1.actions| && b1.actions[..|b0.actions|] == b0.actions
    && NewMemo(x, b0, b1, r)
    && NewActions(x, b0, b1, t, pending)
    && NoDup(Uids(b1.actions))
  }

  lemma LaterTransitive(b0: Build, b1: Build, b2: Build)
    requires Later(b0, b1) && Later(b1, b2)
    ensures Later(b0, b2)
  {
  }

  lemma EntryLater(b0: Build, b1: Build, u: Tag)
    requires Later(b0, b1) && u in b0.memo && b0.memo[u] < |b0.actions|
    ensures u in b1.memo && EntryOf(b1, u) == EntryOf(b0, u)
  {
    if 0 <= b0.memo[u] {
      var i := b0.memo[u];
      assert Uids(b0.actions)[i] == Uids(b1.actions)[i];
    }
  }

  lemma MemoLater(x: Input, b0: Build, b1: Build, t: Tag)
    requires Later(b0, b1) && MemoOk(x, b0, t)
    ensures MemoOk(x, b1, t)
  {
    hide Decide;
    if b0.memo[t] != -1 {
      assert Uids(b0.actions)[b0.memo[t]] == Uids(b1.actions)[b0.memo[t]];
    }
  }

  /** A finished action stays finished as the build goes on. */
  lemma ActionLater(x: Input, b0: Build, b1: Build, a: Action)
    requires Later(b0, b1) && ActionOk(x, b0, a)
    ensures ActionOk(x, b1, a)
  {
    hide FieldAction, Decide, BranchBody, FieldUids;
    assert forall s | s in Uids(b0.actions) :: s in Uids(b1.actions);
    if a.uid.EndlOf? { EntryLater(b0, b1, a.uid.succ); }
  }

  lemma NewUidLater(b0: Build, b1: Build, b2: Build, t: Option<Tag>, uid: Uid)
    requires Later(b0, b1) && Later(b1, b2)
    ensures NewUid(b0, b1, t, uid) ==> NewUid(b0, b2, t, uid)
    ensures NewUid(b1, b2, None, uid) ==> NewUid(b0, b2, t, uid)
  {
  }

  /** Growth composes: what a nested call adds is in order, so the same actions stay pending. */
  lemma GrownTransitive(x: Input, b0: Build, b1: Build, b2: Build, r: nat, r2: nat, t: Option<Tag>, pending: set<int>)
    requires Grown(x, b0, b1, r, t, pending) && Grown(x, b1, b2, r2, None, {}) && r <= r2
    ensures Grown(x, b0, b2, r, t, pending)
  {
    hide NewUid, ActionOk, MemoOk, Later, NoDup;
    LaterTransitive(b0, b1, b2);
    LaterMemo(b0, b1);
    forall i | |b0.actions| <= i < |b2.actions|
      ensures NewUid(b0, b2, t, b2.actions[i].uid) && (i !in pending ==> ActionOk(x, b2, b2.actions[i]))
    {
      NewUidLater(b0, b1, b2, t, b2.actions[i].uid);
      if i < |b1.actions| {
        assert b2.actions[i] == b2.actions[..|b1.actions|][i] == b1.actions[i];
        if i !in pending { ActionLater(x, b1, b2, b1.actions[i]); }
      }
    }
    forall u | u in b2.memo && u !in b0.memo
      ensures MemoOk(x, b2, u) && u in Traverse(x.fs) && r <= Rank(x.fs, u)
    {
      if u in b1.memo { MemoLater(x, b1, b2, u); }
    }
    assert b2.actions[..|b0.actions|] == b2.actions[..|b1.actions|][..|b0.actions|];
  }

  lemma LaterMemo(b0: Build, b1: Build)
    requires Later(b0, b1)
    ensures forall t | t in b0.memo :: t in b1.memo
  {
  }

  lemma GrownSelf(x: Input, b: Build, r: nat, t: Option<Tag>, pending: set<int>)
    requires NoDup(Uids(b.actions))
    ensures Grown(x, b, b, r, t, pending)
  {
  }

  lemma KnownLater(x: Input, b0: Build, b1: Build, r: nat, r1: nat, t: Option<Tag>, pending: set<int>)
    requires Known(x, b0, r) && Grown(x, b0, b1, r1, t, pending)
    requires t.Some? ==> RankBelow(x, t.value, r)
    ensures Known(x, b1, r)
  {
    hide ActionOk, MemoOk, NoDup;
    forall uid | uid in Uids(b1.actions) ensures KnownUid(x, b1, r, uid) {
      var i :| 0 <= i < |b1.actions| && Uids(b1.actions)[i] == uid;
      if i < |b0.actions| {
        assert b1.actions[i] == b1.actions[..|b0.actions|][i] == b0.actions[i];
        assert Uids(b0.actions)[i] == uid;
        assert KnownUid(x, b0, r, uid);
      }
    }
  }

  lemma KnownRaise(x: Input, b: Build, r: nat, r1: nat)
    requires Known(x, b, r) && r <= r1
    ensures Known(x, b, r1)
  {
    forall uid | uid in Uids(b.actions) ensures KnownUid(x, b, r1, uid) {
      assert KnownUid(x, b, r, uid);
    }
  }

  // ---- Single steps -------------------------------------------------------------------------------

  function Append(b: Build, a: Action): Build {
    b.(actions := b.actions + [a])
  }

  /** Add a successor to action i. */
  function Connected(b: Build, i: nat, s: Uid): Build
    requires i < |b.actions|
  {
    b.(actions := b.actions[i := b.actions[i].(successors := b.actions[i].successors + [s])])
  }

  lemma AppendLater(b: Build, a: Action)
    ensures Later(b, Append(b, a)) && Uids(Append(b, a).actions) == Uids(b.actions) + [a.uid]
  {
  }

  lemma ConnectedLater(b: Build, i: nat, s: Uid)
    requires i < |b.actions| && !b.actions[i].uid.Desc?
    ensures Later(b, Connected(b, i, s)) && Uids(Connected(b, i, s).actions) == Uids(b.actions)
  {
  }

  /** Appending an action of t. */
  lemma GrownAppend(x: Input, b0: Build, b: Build, r: nat, t: Tag, pending: set<int>, a: Action, p: bool)
    requires Grown(x, b0, b, r, Some(t), pending) && Owner(a.uid) == Some(t) && a.uid !in Uids(b.actions)
    requires !p ==> ActionOk(x, Append(b, a), a)
    ensures Grown(x, b0, Append(b, a), r, Some(t), if p then pending + {|b.actions|} else pending)
  {
    hide ActionOk, MemoOk, Later, NoDup;
    var b1 := Append(b, a);
    AppendLater(b, a);
    LaterTransitive(b0, b, b1);
    SameMemo(x, b0, b, b1, r);
    NoDupAppend(Uids(b.actions), a.uid);
    forall i | |b0.actions| <= i < |b1.actions|
      ensures NewUid(b0, b1, Some(t), b1.actions[i].uid)
      ensures i !in pending && i < |b.actions| ==> ActionOk(x, b1, b1.actions[i])
    {
      if i < |b.actions| && i !in pending { ActionLater(x, b, b1, b.actions[i]); }
    }
  }

  lemma NoDupAppend<T>(s: seq<T>, e: T)
    requires NoDup(s) && e !in s
    ensures NoDup(s + [e])
  {
  }

  lemma SameMemo(x: Input, b0: Build, b: Build, b1: Build, r: nat)
    requires NewMemo(x, b0, b, r) && Later(b, b1) && b1.memo == b.memo
    ensures NewMemo(x, b0, b1, r)
  {
    hide MemoOk, Later;
    forall t | t in b1.memo && t !in b0.memo ensures MemoOk(x, b1, t) {
      MemoLater(x, b, b1, t);
    }
  }

  /** Adding a successor to a pending action of t; done says that this completes it. */
  lemma GrownConnect(x: Input, b0: Build, b: Build, r: nat, t: Tag, pending: set<int>, i: nat, s: Uid, done: bool)
    requires Grown(x, b0, b, r, Some(t), pending) && |b0.actions| <= i < |b.actions| && i in pending
    requires !b.actions[i].uid.Desc?
    requires done ==> ActionOk(x, Connected(b, i, s), Connected(b, i, s).actions[i])
    ensures Grown(x, b0, Connected(b, i, s), r, Some(t), if done then pending - {i} else pending)
  {
    hide ActionOk, MemoOk, Later, NoDup;
    var b1 := Connected(b, i, s);
    ConnectedLater(b, i, s);
    LaterTransitive(b0, b, b1);
    SameMemo(x, b0, b, b1, r);
    forall k | |b0.actions| <= k < |b1.actions|
      ensures NewUid(b0, b1, Some(t), b1.actions[k].uid)
      ensures k !in pending ==> ActionOk(x, b1, b1.actions[k])
    {
      assert b1.actions[k].uid == b.actions[k].uid;
      if k !in pending { ActionLater(x, b, b1, b.actions[k]); }
    }
  }

  /** An action that needed nothing more. */
  lemma GrownSettle(x: Input, b0: Build, b: Build, r: nat, t: Option<Tag>, pending: set<int>, i: nat)
    requires Grown(x, b0, b, r, t, pending) && i < |b.actions| && ActionOk(x, b, b.actions[i])
    ensures Grown(x, b0, b, r, t, pending - {i})
  {
    hide ActionOk, NewUid;
  }

  /** Finishing t: its entry goes into the memo, and its actions count as those of a finished state. */
  lemma GrownFinish(x: Input, b0: Build, b: Build, r: nat, t: Tag, entry: int)
    requires Grown(x, b0, b, r + 1, Some(t), {}) && t !in b.memo && t in Traverse(x.fs) && r == Rank(x.fs, t)
    requires MemoOk(x, b.(memo := b.memo[t := entry]), t)
    ensures Grown(x, b0, b.(memo := b.memo[t := entry]), r, None, {})
  {
    var b1 := b.(memo := b.memo[t := entry]);
    LaterMemo(b0, b);
    assert Later(b, b1);
    hide ActionOk, MemoOk, Later, NoDup;
    LaterTransitive(b0, b, b1);
    forall i | |b0.actions| <= i < |b1.actions|
      ensures NewUid(b0, b1, None, b1.actions[i].uid) && ActionOk(x, b1, b1.actions[i])
    {
      ActionLater(x, b, b1, b.actions[i]);
      assert NewUid(b0, b, Some(t), b.actions[i].uid);
    }
    forall u | u in b1.memo && u !in b0.memo ensures MemoOk(x, b1, u) && u in Traverse(x.fs) && r <= Rank(x.fs, u) {
      if u != t { MemoLater(x, b, b1, u); }
    }
  }

  // ---- Where the content cannot be rendered -------------------------------------------------------

  /** A sequence of states each of which is among the choices left at the one before. */
  ghost predicate Walk(x: Input, w: seq<Tag>) {
    && |w| > 0 && w[0] in x.states
    && (|w| > 1 ==> w[1] in Choices(x, w[0]) && Walk(x, w[1..]))
  }

  /** The content has a list or an object where the table has a leaf, or where a choice without a value takes its
      alternatives from. */
  ghost predicate Unrenderable(x: Input, u: Tag) {
    0 <= u.field < |x.fs| && !x.fs[u.field].IsRecord() &&
    if Filled(x, u) then !Read(x.content, x.fs, u).value.Scalar? else Untold(x, x.fs[u.field])
  }

  /** The alternatives of the field are texts of the content, and one of them is none. */
  ghost predicate Untold(x: Input, f: Field) {
    f.format.Choice? && f.format.mode != "select" && exists e :: PathLeads(x.content, f.format.path, e) && !IsScalar(e)
  }

  /** There is no action exactly for such a state. */
  lemma NoBody(x: Input, u: Tag)
    requires 0 <= u.field < |x.fs| && !x.fs[u.field].IsRecord()
    ensures FieldBody(x, u).None? <==> Unrenderable(x, u)
  {
    hide Read, PathLeads, Alternatives;
    var f := x.fs[u.field];
    if f.format.Choice? { NoAlternatives(x.content, f.format.mode, f.format.path, x.cfg.indexText); }
  }

  /** From t one can get to a state of field f at which the content is not a scalar. */
  ghost predicate Blocked(x: Input, t: Tag, f: int) {
    exists w: seq<Tag> :: Walk(x, w) && |w| > 1 && w[0] == t && Unrenderable(x, w[|w|-1]) && w[|w|-1].field == f
  }

  lemma Blocking(x: Input, t: Tag, u: Tag)
    requires t in x.states && u in Choices(x, t) && u in x.states && 0 <= u.field < |x.fs|
    ensures FieldAction(x, u, t).None? <==> Unrenderable(x, u)
    ensures Unrenderable(x, u) ==> Blocked(x, t, u.field)
    ensures forall f | Blocked(x, u, f) :: Blocked(x, t, f)
  {
    hide Choices, Read, FieldBody, Filled, Untold;
    if !x.fs[u.field].IsRecord() { NoBody(x, u); }
    if Unrenderable(x, u) {
      assert [t, u][1..] == [u];
      assert Walk(x, [t, u]);
    }
    forall f | Blocked(x, u, f) ensures Blocked(x, t, f) {
      var w: seq<Tag> :| Walk(x, w) && |w| > 1 && w[0] == u && Unrenderable(x, w[|w|-1]) && w[|w|-1].field == f;
      var c := [t] + w;
      assert c[1..] == w;
      assert Walk(x, c) && c[|c|-1] == w[|w|-1];
    }
  }

  // ---- Following one successor ---------------------------------------------------------------------

  ghost predicate MemoAll(x: Input, b: Build) {
    forall t | t in b.memo :: MemoOk(x, b, t)
  }

  /** The build while t is being worked on: all that is new is in order but the branch at index br. */
  ghost predicate Working(x: Input, b0: Build, b: Build, t: Tag, br: nat) {
    && t in Traverse(x.fs) && t in x.states && t !in b.memo
    && Grown(x, b0, b, Rank(x.fs, t) + 1, Some(t), {br})
    && Known(x, b, Rank(x.fs, t) + 1) && MemoAll(x, b)
    && |b0.actions| <= br < |b.actions| && b.actions[br].uid == Branch(t)
  }

  ghost predicate Unused(x: Input, b: Build, t: Tag, u: Tag) {
    0 <= u.field < |x.fs| && FieldUid(x, u, t) !in Uids(b.actions) && EndlOf(u, t) !in Uids(b.actions)
  }

  /** After the field action, the line end and the link from the branch. */
  ghost function Linked(x: Input, b: Build, t: Tag, u: Tag, br: nat, fa: Action): Build
    requires br < |b.actions|
  {
    Connected(Append(Append(b, fa), EndlAction(x, u, t)), br, fa.uid)
  }

  lemma MemoAllLater(x: Input, b: Build, b1: Build)
    requires MemoAll(x, b) && Later(b, b1) && b1.memo == b.memo
    ensures MemoAll(x, b1)
  {
    hide MemoOk, Later;
    forall t | t in b1.memo ensures MemoOk(x, b1, t) { MemoLater(x, b, b1, t); }
  }

  lemma FieldActionOk(x: Input, b: Build, t: Tag, u: Tag, fa: Action)
    requires Follows(x, t, u) && FieldAction(x, u, t) == Some(fa) && EndlOf(u, t) in Uids(b.actions)
    ensures fa.uid == FieldUid(x, u, t) && Owner(fa.uid) == Some(t) && ActionOk(x, b, fa) && !fa.uid.Branch? && !fa.uid.Desc?
  {
    hide FieldBody, Choices, Decide;
  }

  lemma LinkedShape(x: Input, b: Build, t: Tag, u: Tag, br: nat, fa: Action)
    requires br < |b.actions| && b.actions[br].uid.Branch?
    ensures var b3 := Linked(x, b, t, u, br, fa);
      && b3.memo == b.memo && b3.described == b.described && Later(b, b3)
      && Uids(b3.actions) == Uids(b.actions) + [fa.uid, EndlOf(u, t)]
      && |b3.actions| == |b.actions| + 2
      && b3.actions[br] == b.actions[br].(successors := b.actions[br].successors + [fa.uid])
      && b3.actions[|b.actions| + 1] == EndlAction(x, u, t)
  {
    var b1 := Append(b, fa);
    var b2 := Append(b1, EndlAction(x, u, t));
    AppendLater(b, fa);
    AppendLater(b1, EndlAction(x, u, t));
    ConnectedLater(b2, br, fa.uid);
    hide Later;
    LaterTransitive(b, b1, b2);
    LaterTransitive(b, b2, Linked(x, b, t, u, br, fa));
  }

  lemma WorkingParts(x: Input, b0: Build, b: Build, t: Tag, br: nat)
    requires Working(x, b0, b, t, br)
    ensures Grown(x, b0, b, Rank(x.fs, t) + 1, Some(t), {br}) && Known(x, b, Rank(x.fs, t) + 1) && MemoAll(x, b)
    ensures t in Traverse(x.fs) && t !in b.memo && |b0.actions| <= br < |b.actions| && b.actions[br].uid == Branch(t)
    ensures RankBelow(x, t, Rank(x.fs, t) + 1)
  {
    hide Grown, Known, MemoAll, Traverse;
  }

  lemma UnusedParts(x: Input, b: Build, t: Tag, u: Tag)
    requires Unused(x, b, t, u)
    ensures 0 <= u.field < |x.fs| && FieldUid(x, u, t) !in Uids(b.actions) && EndlOf(u, t) !in Uids(b.actions)
    ensures FieldUid(x, u, t) != EndlOf(u, t)
  {
  }

  lemma LinkedGrown(x: Input, b0: Build, b: Build, t: Tag, u: Tag, br: nat, fa: Action)
    requires Working(x, b0, b, t, br) && Follows(x, t, u) && Unused(x, b, t, u) && FieldAction(x, u, t) == Some(fa)
    ensures Grown(x, b0, Linked(x, b, t, u, br, fa), Rank(x.fs, t) + 1, Some(t), {br, |b.actions| + 1})
  {
    hide Working, Unused, Grown, ActionOk, Later, NoDup, FieldAction, FieldUid, Follows, Known, MemoAll, RankBelow, Traverse;
    WorkingParts(x, b0, b, t, br);
    var r := Rank(x.fs, t) + 1;
    var n := |b.actions|;
    var b1 := Append(b, fa);
    var b2 := Append(b1, EndlAction(x, u, t));
    assert {br} + {n} == {br, n} && {br, n} + {n + 1} == {br, n, n + 1} && {br, n, n + 1} - {n} == {br, n + 1};
    UnusedParts(x, b, t, u);
    AppendLater(b, fa);
    AppendLater(b1, EndlAction(x, u, t));
    assert Uids(b2.actions)[n+1] == EndlOf(u, t);
    assert Owner(EndlOf(u, t)) == Some(t) && |b1.actions| == n + 1;
    FieldActionOk(x, b2, t, u, fa);
    GrownAppend(x, b0, b, r, t, {br}, fa, true);
    GrownAppend(x, b0, b1, r, t, {br, n}, EndlAction(x, u, t), true);
    assert b2.actions[n] == fa;
    GrownSettle(x, b0, b2, r, Some(t), {br, n, n + 1}, n);
    GrownConnect(x, b0, b2, r, t, {br, n + 1}, br, fa.uid, false);
  }

  /** Coming back from u: the line end gets the entry of u, if there is one. */
  ghost function Returned(b: Build, endl: nat, next: int): Build
    requires endl < |b.actions| && next < |b.actions|
  {
    if next >= 0 then Connected(b, endl, b.actions[next].uid) else b
  }

  lemma ReturnedGrown(x: Input, b0: Build, b: Build, r: nat, t: Tag, u: Tag, br: nat, endl: nat)
    requires Grown(x, b0, b, r, Some(t), {br, endl}) && br != endl && |b0.actions| <= endl < |b.actions|
    requires Follows(x, t, u) && MemoOk(x, b, u) && b.actions[endl] == EndlAction(x, u, t)
    ensures var b1 := Returned(b, endl, b.memo[u]);
      && Grown(x, b0, b1, r, Some(t), {br}) && Later(b, b1)
      && b1.memo == b.memo && b1.described == b.described && Uids(b1.actions) == Uids(b.actions)
      && (br < |b.actions| ==> b1.actions[br] == b.actions[br])
  {
    hide Grown, NoDup, Follows, NewUid;
    var next := b.memo[u];
    assert {br, endl} - {endl} == {br};
    if next >= 0 {
      var s := b.actions[next].uid;
      ConnectedLater(b, endl, s);
      EndlDone(x, b, t, u, endl);
      hide MemoOk, ActionOk, Later;
      GrownConnect(x, b0, b, r, t, {br, endl}, endl, s, true);
    } else {
      assert Later(b, b);
      hide Later;
      GrownSettle(x, b0, b, r, Some(t), {br, endl}, endl);
    }
  }

  lemma EndlDone(x: Input, b: Build, t: Tag, u: Tag, endl: nat)
    requires endl < |b.actions| && Follows(x, t, u) && MemoOk(x, b, u) && b.memo[u] >= 0
    requires b.actions[endl] == EndlAction(x, u, t)
    ensures var b1 := Connected(b, endl, b.actions[b.memo[u]].uid); ActionOk(x, b1, b1.actions[endl])
  {
    hide Follows, Decide;
    var b1 := Connected(b, endl, b.actions[b.memo[u]].uid);
    ConnectedLater(b, endl, b.actions[b.memo[u]].uid);
    var a := b1.actions[endl];
    assert a.successors == [b.actions[b.memo[u]].uid];
    assert Uids(b.actions)[b.memo[u]] == a.successors[0];
    assert b1.actions[b.memo[u]].uid == b.actions[b.memo[u]].uid;
  }

  /** The new uids of following u from t: those two of u, and those of states finished since. */
  ghost predicate OnlyOf(x: Input, b: Build, b1: Build, t: Tag, u: Tag)
    requires 0 <= u.field < |x.fs|
  {
    forall uid | uid in Uids(b1.actions) ::
      uid in Uids(b.actions) || uid == FieldUid(x, u, t) || uid == EndlOf(u, t) || Owner(uid) != Some(t)
  }

  lemma FollowGrown(x: Input, b0: Build, b: Build, t: Tag, u: Tag, br: nat, fa: Action, b3: Build, b4: Build)
    requires Working(x, b0, b, t, br) && Follows(x, t, u) && Unused(x, b, t, u) && FieldAction(x, u, t) == Some(fa)
    requires u in Traverse(x.fs) && Rank(x.fs, t) < Rank(x.fs, u)
    requires b3 == Linked(x, b, t, u, br, fa) && Grown(x, b3, b4, Rank(x.fs, u), None, {})
    ensures Grown(x, b0, b4, Rank(x.fs, t) + 1, Some(t), {br, |b.actions| + 1}) && Later(b, b4)
    ensures |b.actions| + 1 < |b4.actions| && b4.actions[|b.actions| + 1] == EndlAction(x, u, t)
    ensures b4.actions[br] == b.actions[br].(successors := b.actions[br].successors + [fa.uid])
  {
    var endl := |b.actions| + 1;
    hide NoDup, Follows, NewUid, FieldAction, NewActions, NewMemo, Working, Linked, Later, Unused, Traverse;
    WorkingParts(x, b0, b, t, br);
    LinkedShape(x, b, t, u, br, fa);
    LinkedGrown(x, b0, b, t, u, br, fa);
    GrownTransitive(x, b0, b3, b4, Rank(x.fs, t) + 1, Rank(x.fs, u), Some(t), {br, endl});
    assert b4.actions[endl] == b4.actions[..|b3.actions|][endl] == b3.actions[endl];
    assert b4.actions[br] == b4.actions[..|b3.actions|][br] == b3.actions[br];
    LaterTransitive(b, b3, b4);
  }

  lemma FollowDone(x: Input, b0: Build, b: Build, t: Tag, u: Tag, br: nat, fa: Action, b3: Build, b4: Build, b5: Build)
    requires Working(x, b0, b, t, br) && Follows(x, t, u) && Unused(x, b, t, u) && FieldAction(x, u, t) == Some(fa)
    requires u in Traverse(x.fs) && Rank(x.fs, t) < Rank(x.fs, u)
    requires b3 == Linked(x, b, t, u, br, fa) && Grown(x, b3, b4, Rank(x.fs, u), None, {})
    requires MemoAll(x, b4) && u in b4.memo && MemoOk(x, b4, u) && t !in b4.memo
    requires |b.actions| + 1 < |b4.actions| && b5 == Returned(b4, |b.actions| + 1, b4.memo[u])
    ensures Working(x, b0, b5, t, br) && Later(b, b5)
    ensures b5.actions[br] == b.actions[br].(successors := b.actions[br].successors + [FieldUid(x, u, t)])
    ensures FieldUid(x, u, t) in Uids(b5.actions) && OnlyOf(x, b, b5, t, u)
  {
    hide NoDup, Follows, NewUid, FieldAction, FieldUid, NewActions, NewMemo, MemoOk, KnownUid, Linked, MemoAll, Later, Grown,
      Known, OnlyOf, Working, RankBelow, Traverse;
    UnusedParts(x, b, t, u);
    WorkingParts(x, b0, b, t, br);
    FollowGrown(x, b0, b, t, u, br, fa, b3, b4);
    LinkedShape(x, b, t, u, br, fa);
    FieldActionUid(x, t, u, fa);
    var r := Rank(x.fs, t) + 1;
    ReturnedGrown(x, b0, b4, r, t, u, br, |b.actions| + 1);
    MemoAllLater(x, b4, b5);
    LaterTransitive(b, b4, b5);
    FollowKnown(x, b, b3, b4, b5, t, u, r, fa.uid);
    FollowWorking(x, b0, b, b5, t, br);
  }

  lemma FollowWorking(x: Input, b0: Build, b: Build, b5: Build, t: Tag, br: nat)
    requires Working(x, b0, b, t, br) && Grown(x, b0, b5, Rank(x.fs, t) + 1, Some(t), {br}) && t !in b5.memo
    requires Known(x, b5, Rank(x.fs, t) + 1) && MemoAll(x, b5) && br < |b5.actions| && b5.actions[br].uid == Branch(t)
    ensures Working(x, b0, b5, t, br)
  {
    hide Grown, Known, MemoAll, Traverse;
  }

  lemma FieldActionUid(x: Input, t: Tag, u: Tag, fa: Action)
    requires 0 <= u.field < |x.fs| && FieldAction(x, u, t) == Some(fa)
    ensures fa.uid == FieldUid(x, u, t) && Owner(fa.uid) == Some(t)
  {
    hide FieldBody;
  }

  lemma FollowKnown(x: Input, b: Build, b3: Build, b4: Build, b5: Build, t: Tag, u: Tag, r: nat, fu: Uid)
    requires Known(x, b, r) && 0 <= u.field < |x.fs| && fu == FieldUid(x, u, t) && Owner(fu) == Some(t)
    requires RankBelow(x, t, r) && t !in b4.memo
    requires b3.memo == b.memo && b3.described == b.described
    requires Uids(b3.actions) == Uids(b.actions) + [fu, EndlOf(u, t)]
    requires u in Traverse(x.fs) && Grown(x, b3, b4, Rank(x.fs, u), None, {})
    requires Uids(b5.actions) == Uids(b4.actions) && b5.memo == b4.memo && b5.described == b4.described
    ensures Known(x, b5, r) && OnlyOf(x, b, b5, t, u) && fu in Uids(b5.actions)
  {
    hide NoDup, ActionOk, MemoOk, FieldUid;
    forall uid | uid in Uids(b3.actions) ensures KnownUid(x, b3, r, uid) {
      if uid in Uids(b.actions) { assert KnownUid(x, b, r, uid); }
    }
    KnownLater(x, b3, b4, r, Rank(x.fs, u), None, {});
    forall uid | uid in Uids(b5.actions) ensures KnownUid(x, b5, r, uid) {
      assert KnownUid(x, b4, r, uid);
    }
    forall uid | uid in Uids(b4.actions)
      ensures uid in Uids(b.actions) || uid == fu || uid == EndlOf(u, t) || Owner(uid) != Some(t)
    {
      var i :| 0 <= i < |b4.actions| && Uids(b4.actions)[i] == uid;
      if i < |b3.actions| {
        assert uid == Uids(b3.actions)[i];
      } else {
        assert NewUid(b3, b4, None, b4.actions[i].uid);
      }
    }
    assert Uids(b3.actions)[|b.actions|] == fu;
    assert Uids(b4.actions)[|b.actions|] == fu;
  }

  /** The builder: actions, memo and the fields already described are updated as the states are walked. */
  class Builder {
    const x: Input
    const parent: seq<int>
    var actions: seq<Action>
    var memo: map<Tag, int>
    var described: set<int>

    constructor (x: Input)
      requires Preorder(x.fs)
      ensures this.x == x && ParentMapOk() && Snap() == Build([], map[], {})
    {
      this.x := x;
      var parents := BuildParentMap(x.fs);
      parent := parents;
      actions, memo, described := [], map[], {};
    }

    ghost function Snap(): Build
      reads this
    {
      Build(actions, memo, described)
    }

    method Add(uid: Uid, body: Body) returns (id: nat)
      modifies this
      ensures id == |old(actions)| && Snap() == Append(old(Snap()), Action(uid, [], None, [], body))
    {
      id := |actions|;
      actions := actions + [Action(uid, [], None, [], body)];
    }

    method ConnectUid(from: nat, s: Uid)
      requires from < |actions|
      modifies this
      ensures Snap() == Connected(old(Snap()), from, s)
    {
      actions := actions[from := actions[from].(successors := actions[from].successors + [s])];
    }

    /** create_field: the action of a field, or nothing for a record. */
    method CreateField(u: Tag, t: Tag) returns (r: Result<(int, nat)>)
      requires 0 <= u.field < |x.fs| && ParentMapOk() && NonNegative(u)
      modifies this
      ensures memo == old(memo) && described == old(described)
      ensures x.fs[u.field].IsRecord() ==> r == Ok((-1, 0)) && actions == old(actions)
      ensures !x.fs[u.field].IsRecord() ==>
        var body := FieldBody(x, u);
        if body.None? then r == Composite(u.field) else
          r == Ok((|old(actions)|, body.value.1))
          && actions == old(actions) + [Action(FieldOf(u, t), [], Some(u.field), u.indices, body.value.0)]
    {
      var f := x.fs[u.field];
      if f.IsRecord() { return Ok((-1, 0)); }
      var val := ReadContent(x.content, x.fs, parent, u);
      var id := |actions|;
      if val.Some? && val.value != Null {
        if !val.value.Scalar? { return Composite(u.field); }
        id := Add(FieldOf(u, t), Text(val.value.text));
        actions := actions[id := actions[id].(field := Some(u.field), indices := u.indices)];
        return Ok((id, 0));
      }
      var body, count := Text(""), 0;
      match f.format {
        case Record =>
        case Completion(length, vocab) =>
          var ts := x.cfg.textSearch(u.field);
          body := Complete(if length.Some? then length.value % 0x1_0000_0000 else 50, ts, x.cfg.stop, vocab);
        case Enum(values) =>
          var cs := x.cfg.choiceSearch(u.field, if f.name == "next" then Flow else EnumChoice);
          body, count := Choose(values, cs.width, cs.threshold), |values|;
        case Choice(mode, path) =>
          var choices := RavelChoices(x.content, mode, path, x.cfg.indexText);
          if choices.None? { return Composite(u.field); }
          var cs := x.cfg.choiceSearch(u.field, EnumChoice);
          body, count := Choose(choices.value, cs.width, cs.threshold), |choices.value|;
      }
      id := Add(FieldOf(u, t), body);
      actions := actions[id := actions[id].(field := Some(u.field), indices := u.indices)];
      return Ok((id, count));
    }

    ghost predicate ParentMapOk() {
      Preorder(x.fs) && ParentMap(x.fs, parent)
    }

    ghost predicate NonNegative(u: Tag) {
      forall k :: 0 <= k < |u.indices| ==> u.indices[k] >= 0
    }

    /** create_field_endl: the field action, or an empty connector, and the line end it leads to. */
    method CreateFieldEndl(t: Tag, u: Tag) returns (r: Result<(nat, nat)>)
      requires 0 <= u.field < |x.fs| && ParentMapOk() && NonNegative(u)
      modifies this
      ensures FieldAction(x, u, t).None? ==> r == Composite(u.field)
      ensures FieldAction(x, u, t).Some? ==>
        && r == Ok((|old(actions)|, |old(actions)| + 1))
        && Snap() == Append(Append(old(Snap()), FieldAction(x, u, t).value), EndlAction(x, u, t))
    {
      ghost var before := Snap();
      var pair :- CreateField(u, t);
      var (fieldId, chooseCount) := pair;
      var prev := fieldId;
      if fieldId < 0 {
        prev := Add(SkipOf(u, t), Text(""));
      }
      var endlId := Add(EndlOf(u, t), Text(x.cfg.separator));
      var fa := actions[prev];
      if chooseCount > 0 {
        for i := 0 to chooseCount
          invariant memo == before.memo && described == before.described
          invariant |actions| == |before.actions| + 2 && endlId == |before.actions| + 1 && prev == |before.actions|
          invariant actions == before.actions + [fa.(successors := Copies(EndlOf(u, t), i)), EndlAction(x, u, t)]
        {
          CopiesMore(EndlOf(u, t), i);
          ConnectUid(prev, actions[endlId].uid);
        }
      } else {
        CopiesMore(EndlOf(u, t), 0);
        ConnectUid(prev, actions[endlId].uid);
      }
      ghost var n := if chooseCount > 0 then chooseCount else 1;
      CopiesMore(EndlOf(u, t), 0);
      assert Copies(EndlOf(u, t), 1) == [EndlOf(u, t)];
      assert FieldAction(x, u, t) == Some(fa.(successors := Copies(EndlOf(u, t), n)));
      assert actions == before.actions + [FieldAction(x, u, t).value] + [EndlAction(x, u, t)];
      return Ok((prev, endlId));
    }

    ghost predicate Ready(t: Tag)
      reads this
    {
      && InputOk(x) && ParentMapOk() && t in x.states && t in Traverse(x.fs)
      && Known(x, Snap(), Rank(x.fs, t)) && MemoAll(x, Snap()) && NoDup(Uids(actions))
    }

    /** Create what visiting u after t needs, link it to the branch of t, build on from u and link back. */
    method Follow(t: Tag, u: Tag, br: nat, ghost b0: Build) returns (r: Result<()>)
      requires InputOk(x) && ParentMapOk() && t in x.states && Working(x, b0, Snap(), t, br) && Unused(x, Snap(), t, u)
      requires u in Choices(x, t)
      modifies this
      ensures r.Ok? ==>
        && Working(x, b0, Snap(), t, br) && Later(old(Snap()), Snap())
        && actions[br] == old(actions)[br].(successors := old(actions)[br].successors + [FieldUid(x, u, t)])
        && FieldUid(x, u, t) in Uids(actions) && OnlyOf(x, old(Snap()), Snap(), t, u)
      ensures r.Composite? ==> Blocked(x, t, r.field)
      decreases |Traverse(x.fs)| - Rank(x.fs, t), 0
    {
      hide Grown, Known, MemoAll, NoDup, Later, OnlyOf, FieldAction, Choices, Decide, Final, WellFormed, TagOf, MemoOk, Blocked,
        Working, Unused, Traverse, RankBelow, FieldUid;
      ghost var b := Snap();
      StepForward(x, t, u);
      Blocking(x, t, u);
      var pair :- CreateFieldEndl(t, u);
      var (fieldId, endlId) := pair;
      ghost var fa := FieldAction(x, u, t).value;
      WorkingParts(x, b0, b, t, br);
      LinkedShape(x, b, t, u, br, fa);
      ConnectUid(br, actions[fieldId].uid);
      ghost var b3 := Snap();
      assert b3 == Linked(x, b, t, u, br, fa);
      FollowReady(x, b0, b, t, u, br, fa, b3);
      var next :- InstantiateRec(u);
      ghost var b4 := Snap();
      FollowBack(x, b0, b, t, u, br, fa, b3, b4);
      if next >= 0 {
        ConnectUid(endlId, actions[next].uid);
      }
      FollowDone(x, b0, b, t, u, br, fa, b3, b4, Snap());
      return Ok(());
    }

    /** Follow every way on from t in turn. */
    method FollowAll(t: Tag, us: seq<Tag>, br: nat, ghost b0: Build) returns (r: Result<()>)
      requires InputOk(x) && ParentMapOk() && t in x.states && Working(x, b0, Snap(), t, br)
      requires us == Choices(x, t) && actions[br].successors == []
      requires forall u | u in us :: Unused(x, Snap(), t, u)
      modifies this
      ensures r.Ok? ==>
        && Working(x, b0, Snap(), t, br) && Later(old(Snap()), Snap())
        && (forall u | u in us :: 0 <= u.field < |x.fs|)
        && actions[br] == old(actions)[br].(successors := FieldUids(x, us, t))
        && forall uid | uid in FieldUids(x, us, t) :: uid in Uids(actions)
      ensures r.Composite? ==> Blocked(x, t, r.field)
      decreases |Traverse(x.fs)| - Rank(x.fs, t), 1
    {
      hide Grown, Known, MemoAll, Choices, Decide, Final, WellFormed, TagOf, Working, Later, Blocked;
      ghost var before := Snap();
      ChoicesDistinct(x, t);
      WorkingBranch(x, b0, before, t, br);
      LaterSelf(before);
      for i := 0 to |us|
        invariant Working(x, b0, Snap(), t, br) && Later(before, Snap()) && br < |actions|
        invariant actions[br] == before.actions[br].(successors := FieldUids(x, us[..i], t))
        invariant forall uid | uid in FieldUids(x, us[..i], t) :: uid in Uids(actions)
        invariant forall j | i <= j < |us| :: Unused(x, Snap(), t, us[j])
      {
        ghost var b := Snap();
        var _ :- Follow(t, us[i], br, b0);
        WorkingBranch(x, b0, Snap(), t, br);
        LaterTransitive(before, b, Snap());
        FieldUidsMore(x, us, t, i);
        forall j | i + 1 <= j < |us| ensures Unused(x, Snap(), t, us[j]) {
          StillUnused(x, b, Snap(), t, us[i], us[j]);
        }
        UidsStay(b, Snap());
      }
      assert us[..|us|] == us;
      return Ok(());
    }

    /** The choices of the branch at t: desc of a field met for the first time, then the branch itself. */
    method OpenBranch(t: Tag, us: seq<Tag>, single: bool, open: bool) returns (br: nat, entry: nat)
      requires Ready(t) && t !in memo && us == Choices(x, t) && us != []
      requires single == Decide(x, t).Single? && open == Decide(x, t).Open?
      modifies this
      ensures Working(x, old(Snap()), Snap(), t, br)
      ensures br < |actions| && BranchBody(x, t, actions[br].body)
      ensures var desc := single && Describable(x, us[0]) && us[0].field !in old(described);
        && described == old(described) + (if desc then {us[0].field} else {})
        && actions == old(actions)
             + (if desc then [Action(Desc(us[0]), [Branch(t)], None, [], Text(x.cfg.descText(us[0].field)))] else [])
             + [Action(Branch(t), [], None, [], actions[br].body)]
        && br == |actions| - 1 && entry == |old(actions)|
      ensures forall u | u in us :: Unused(x, Snap(), t, u)
      ensures entry < |actions|
      ensures entry == br || (actions[entry].uid.Desc? && Decide(x, t) == Single(actions[entry].uid.succ)
                              && actions[entry].successors == [Branch(t)])
    {
      hide Known, MemoAll, Choices, Final, WellFormed, TagOf, Working, NoDup, Traverse, Unused;
      ghost var b0 := Snap();
      StepForward(x, t, us[0]);
      FirstChoice(x, t);
      var descId := -1;
      if single {
        var f := x.fs[us[0].field];
        if x.cfg.descInline && f.desc != [] && us[0].field !in described {
          described := described + {us[0].field};
          descId := Add(Desc(us[0]), Text(x.cfg.descText(us[0].field)));
        }
      }
      if open {
        var cs := x.cfg.choiceSearch(t.field, BranchChoice);
        br := Add(Branch(t), Choose(Labels(x, us), cs.width, cs.threshold));
      } else {
        br := Add(Branch(t), Text(x.cfg.labelOf(us[0])));
      }
      entry := br;
      ghost var body := actions[br].body;
      if descId >= 0 {
        ghost var descBody := actions[descId].body;
        assert actions == b0.actions + [Action(Desc(us[0]), [], None, [], descBody), Action(Branch(t), [], None, [], body)];
        ConnectUid(descId, actions[br].uid);
        entry := descId;
        DescOpened(x, b0, t, us[0], descBody, body, Snap());
      } else {
        BranchOpened(x, b0, t, body, Snap());
      }
      OpenedFresh(x, b0, Snap(), t);
    }

    method FilterValid(us: seq<Tag>) returns (valid: seq<Tag>)
      requires ParentMapOk() && forall u | u in us && u in x.states :: u.field < |x.fs| && NonNegative(u)
      ensures valid == Valid(x, us)
    {
      hide Skip;
      valid := [];
      assert us[..|us|] == us;
      for i := 0 to |us|
        invariant valid == Valid(x, us[..i])
      {
        assert us[..i+1][..i] == us[..i];
        if us[i] in x.states {
          var skip := ShouldSkip(x.content, x.fs, parent, us[i]);
          if !skip { valid := valid + [us[i]]; }
        }
      }
    }

    /** The first way on that the content gives a value for. */
    method FindFilled(valid: seq<Tag>) returns (r: Option<Tag>)
      requires ParentMapOk() && forall u | u in valid :: u.field < |x.fs| && NonNegative(u)
      ensures r == FirstFilled(x, valid)
    {
      for i := 0 to |valid|
        invariant FirstFilled(x, valid) == FirstFilled(x, valid[i..])
      {
        var val := ReadContent(x.content, x.fs, parent, valid[i]);
        assert valid[i..][1..] == valid[i+1..];
        if val.Some? && val.value != Null { return Some(valid[i]); }
      }
      return None;
    }

    /** instantiate_rec: build what follows state t, once. Every nested call is about a state that comes later
        in the longest run, so the recursion ends; the memo only avoids repetition. */
    method InstantiateRec(t: Tag) returns (r: Result<int>)
      requires Ready(t)
      modifies this
      ensures r.Ok? ==>
        && Grown(x, old(Snap()), Snap(), Rank(x.fs, t), None, {})
        && t in memo && r.value == memo[t] && MemoAll(x, Snap())
      ensures r.Composite? ==> Blocked(x, t, r.field)
      decreases |Traverse(x.fs)| - Rank(x.fs, t), 2
    {
      hide Grown, Known, MemoAll, NoDup, Later, Final, WellFormed, TagOf, MemoOk, FirstFilled, Valid, BranchBody, Blocked;
      ghost var b0 := Snap();
      GrownSelf(x, b0, Rank(x.fs, t), None, {});
      if t in memo { return Ok(memo[t]); }
      SuccessorsFine(x, t);
      var valid := FilterValid(x.states[t].successors);
      if valid == [] {
        GrownSelf(x, b0, Rank(x.fs, t) + 1, Some(t), {});
        FinishDead(x, b0, t);
        memo := memo[t := -1];
        return Ok(-1);
      }
      ValidIn(x, x.states[t].successors);
      var us, open := valid, false;
      if |valid| > 1 {
        var forced := FindFilled(valid);
        if forced.Some? { us := [forced.value]; } else { open := true; }
      }
      var br, entry := OpenBranch(t, us, |valid| == 1, open);
      ghost var b1 := Snap();
      var _ :- FollowAll(t, us, br, b0);
      FinishBranch(x, b0, b1, Snap(), t, br, entry);
      memo := memo[t := entry];
      return Ok(entry);
    }
  }

  lemma CopiesMore<T>(v: T, n: nat)
    ensures Copies(v, n + 1) == Copies(v, n) + [v]
    ensures Copies(v, 0) == []
  {
  }

  /** The states that can follow t are fields, ranked after t, with indices in range. */
  lemma StepForward(x: Input, t: Tag, u: Tag)
    requires InputOk(x) && t in x.states && u in Choices(x, t)
    ensures t in Traverse(x.fs) && u in Traverse(x.fs) && u in x.states && Rank(x.fs, t) < Rank(x.fs, u)
    ensures Preorder(x.fs) && Follows(x, t, u) && 0 <= u.field < |x.fs|
    ensures forall k :: 0 <= k < |u.indices| ==> u.indices[k] >= 0
  {
    hide Decide, Traverse;
    FinalForward(x.fs, x.states, t);
    ChoicesIn(x, t);
    FinalForward(x.fs, x.states, u);
    TraverseIndexOk(x.fs);
    IndexNonNegative(x.fs, u);
  }

  lemma FollowReady(x: Input, b0: Build, b: Build, t: Tag, u: Tag, br: nat, fa: Action, b3: Build)
    requires Working(x, b0, b, t, br) && Follows(x, t, u) && Unused(x, b, t, u) && FieldAction(x, u, t) == Some(fa)
    requires u in Traverse(x.fs) && Rank(x.fs, t) < Rank(x.fs, u) && b3 == Linked(x, b, t, u, br, fa)
    ensures Known(x, b3, Rank(x.fs, u)) && MemoAll(x, b3) && NoDup(Uids(b3.actions))
  {
    WorkingParts(x, b0, b, t, br);
    LinkedShape(x, b, t, u, br, fa);
    LinkedGrown(x, b0, b, t, u, br, fa);
    FieldActionUid(x, t, u, fa);
    hide FieldAction, MemoOk, ActionOk, NoDup, Linked, Later;
    MemoAllLater(x, b, b3);
    forall uid | uid in Uids(b3.actions) ensures KnownUid(x, b3, Rank(x.fs, u), uid) {
      if uid in Uids(b.actions) { assert KnownUid(x, b, Rank(x.fs, t) + 1, uid); }
    }
  }

  lemma FollowBack(x: Input, b0: Build, b: Build, t: Tag, u: Tag, br: nat, fa: Action, b3: Build, b4: Build)
    requires Working(x, b0, b, t, br) && Follows(x, t, u) && Unused(x, b, t, u) && FieldAction(x, u, t) == Some(fa)
    requires u in Traverse(x.fs) && Rank(x.fs, t) < Rank(x.fs, u) && b3 == Linked(x, b, t, u, br, fa)
    requires Grown(x, b3, b4, Rank(x.fs, u), None, {}) && MemoAll(x, b4) && u in b4.memo
    ensures t !in b4.memo && MemoOk(x, b4, u) && b4.memo[u] < |b4.actions| && |b.actions| + 1 < |b4.actions|
    ensures b4.memo[u] >= -1
  {
    WorkingParts(x, b0, b, t, br);
    LinkedShape(x, b, t, u, br, fa);
    hide FieldAction, NoDup, Linked, NewActions, Decide, Follows, Unused, Later;
    assert MemoOk(x, b4, u);
    assert b3.memo == b.memo;
  }

  lemma ChoicesDistinct(x: Input, t: Tag)
    requires InputOk(x) && t in x.states
    ensures NoDup(Choices(x, t)) && forall u | u in Choices(x, t) :: 0 <= u.field < |x.fs|
  {
    hide Decide, Traverse;
    FinalForward(x.fs, x.states, t);
    ChoicesIn(x, t);
    forall u | u in Choices(x, t) ensures 0 <= u.field < |x.fs| { StepForward(x, t, u); }
  }

  lemma WorkingBranch(x: Input, b0: Build, b: Build, t: Tag, br: nat)
    requires Working(x, b0, b, t, br)
    ensures t in Traverse(x.fs) && br < |b.actions| && b.actions[br].uid == Branch(t)
  {
    hide Grown, Known, MemoAll;
  }

  lemma LaterSelf(b: Build)
    ensures Later(b, b)
  {
  }

  lemma UidsStay(b: Build, b1: Build)
    requires Later(b, b1)
    ensures forall uid | uid in Uids(b.actions) :: uid in Uids(b1.actions)
  {
  }

  lemma FieldUidsMore(x: Input, us: seq<Tag>, t: Tag, i: nat)
    requires i < |us| && forall u | u in us :: 0 <= u.field < |x.fs|
    ensures FieldUids(x, us[..i+1], t) == FieldUids(x, us[..i], t) + [FieldUid(x, us[i], t)]
  {
    hide FieldUid;
  }

  lemma StillUnused(x: Input, b: Build, b1: Build, t: Tag, u: Tag, v: Tag)
    requires 0 <= u.field < |x.fs| && u != v && Unused(x, b, t, v) && OnlyOf(x, b, b1, t, u)
    ensures Unused(x, b1, t, v)
  {
  }

  lemma FirstChoice(x: Input, t: Tag)
    requires t in x.states && Choices(x, t) != []
    ensures var u := Choices(x, t)[0];
      match Decide(x, t)
      case Dead => false
      case Single(v) => v == u && |Choices(x, t)| == 1
      case Forced(v) => v == u && |Choices(x, t)| == 1
      case Open(us) => us == Choices(x, t)
  {
    hide Decide;
  }

  /** Opening the branch of t on its own. */
  lemma BranchOpened(x: Input, b0: Build, t: Tag, body: Body, b1: Build)
    requires InputOk(x) && t in x.states && t in Traverse(x.fs) && t !in b0.memo
    requires Known(x, b0, Rank(x.fs, t)) && MemoAll(x, b0) && NoDup(Uids(b0.actions))
    requires b1 == Append(b0, Action(Branch(t), [], None, [], body))
    ensures Working(x, b0, b1, t, |b0.actions|)
    ensures forall uid | uid in Uids(b1.actions) :: uid in Uids(b0.actions) || uid.Desc? || uid.Branch?
  {
    hide MemoOk, ActionOk, Decide, Final, WellFormed;
    var r := Rank(x.fs, t);
    var a := Action(Branch(t), [], None, [], body);
    GrownSelf(x, b0, r + 1, Some(t), {});
    forall uid | uid in Uids(b0.actions) ensures uid != a.uid { assert KnownUid(x, b0, r, uid); }
    GrownAppend(x, b0, b0, r + 1, t, {}, a, true);
    assert {} + {|b0.actions|} == {|b0.actions|};
    AppendLater(b0, a);
    MemoAllLater(x, b0, b1);
    KnownRaise(x, b0, r, r + 1);
    KnownLater(x, b0, b1, r + 1, r + 1, Some(t), {|b0.actions|});
  }

  /** Opening it behind the description of the only field that can follow. */
  lemma DescOpened(x: Input, b0: Build, t: Tag, u: Tag, descBody: Body, body: Body, b1: Build)
    requires InputOk(x) && t in x.states && t in Traverse(x.fs) && t !in b0.memo
    requires Known(x, b0, Rank(x.fs, t)) && MemoAll(x, b0) && NoDup(Uids(b0.actions))
    requires Decide(x, t) == Single(u) && u.field !in b0.described && Describable(x, u) && descBody == Text(x.cfg.descText(u.field))
    requires b1 == Connected(
      Build(b0.actions + [Action(Desc(u), [], None, [], descBody), Action(Branch(t), [], None, [], body)],
            b0.memo, b0.described + {u.field}), |b0.actions|, Branch(t))
    ensures Working(x, b0, b1, t, |b0.actions| + 1)
    ensures b1.actions == b0.actions + [Action(Desc(u), [Branch(t)], None, [], descBody), Action(Branch(t), [], None, [], body)]
    ensures forall uid | uid in Uids(b1.actions) :: uid in Uids(b0.actions) || uid.Desc? || uid.Branch?
  {
    hide Working, Known, MemoAll, NoDup, Final, WellFormed, Traverse, Decide, Describable;
    var n := |b0.actions|;
    assert b1.actions[n].successors == [Branch(t)];
    assert b1.actions == b0.actions + [Action(Desc(u), [Branch(t)], None, [], descBody), Action(Branch(t), [], None, [], body)];
    assert Uids(b1.actions) == Uids(b0.actions) + [Desc(u)] + [Branch(t)];
    DescBranch(x, b0, t, u, descBody, body, b1);
  }

  lemma DescBranch(x: Input, b0: Build, t: Tag, u: Tag, descBody: Body, body: Body, b1: Build)
    requires InputOk(x) && t in x.states && t in Traverse(x.fs) && t !in b0.memo
    requires Known(x, b0, Rank(x.fs, t)) && MemoAll(x, b0) && NoDup(Uids(b0.actions))
    requires Decide(x, t) == Single(u) && u.field !in b0.described && Describable(x, u) && descBody == Text(x.cfg.descText(u.field))
    requires b1 == Build(
      b0.actions + [Action(Desc(u), [Branch(t)], None, [], descBody), Action(Branch(t), [], None, [], body)],
      b0.memo, b0.described + {u.field})
    ensures Working(x, b0, b1, t, |b0.actions| + 1)
  {
    hide MemoOk, Decide, Final, WellFormed, Choices, Known, ActionOk, NoDup, Later, Grown, Traverse;
    var r := Rank(x.fs, t);
    DescDistinct(x, b0, t, u, b1);
    DescGrown(x, b0, t, u, descBody, body, b1);
    DescLater(b0, b1);
    MemoAllLater(x, b0, b1);
    KnownRaise(x, b0, r, r + 1);
    KnownLater(x, b0, b1, r + 1, r + 1, Some(t), {|b0.actions| + 1});
  }

  lemma DescLater(b0: Build, b1: Build)
    requires b0.actions <= b1.actions && b1.memo == b0.memo && b0.described <= b1.described
    ensures Later(b0, b1)
  {
    assert Uids(b0.actions) <= Uids(b1.actions);
    assert forall i | 0 <= i < |b0.actions| :: b0.actions[i] == b1.actions[i];
  }

  lemma DescDistinct(x: Input, b0: Build, t: Tag, u: Tag, b1: Build)
    requires t in Traverse(x.fs) && t !in b0.memo && Known(x, b0, Rank(x.fs, t)) && NoDup(Uids(b0.actions))
    requires u.field !in b0.described && Uids(b1.actions) == Uids(b0.actions) + [Desc(u)] + [Branch(t)]
    ensures NoDup(Uids(b1.actions))
  {
    forall uid | uid in Uids(b0.actions) ensures uid != Desc(u) && uid != Branch(t) {
      assert KnownUid(x, b0, Rank(x.fs, t), uid);
    }
    hide Known, NoDup;
    NoDupAppend(Uids(b0.actions), Desc(u));
    NoDupAppend(Uids(b0.actions) + [Desc(u)], Branch(t));
  }

  lemma DescGrown(x: Input, b0: Build, t: Tag, u: Tag, descBody: Body, body: Body, b1: Build)
    requires t in x.states && t in Traverse(x.fs) && NoDup(Uids(b1.actions))
    requires Decide(x, t) == Single(u) && u.field !in b0.described && Describable(x, u) && descBody == Text(x.cfg.descText(u.field))
    requires b1 == Build(
      b0.actions + [Action(Desc(u), [Branch(t)], None, [], descBody), Action(Branch(t), [], None, [], body)],
      b0.memo, b0.described + {u.field})
    ensures Grown(x, b0, b1, Rank(x.fs, t) + 1, Some(t), {|b0.actions| + 1})
  {
    hide MemoOk, Decide, Choices, NoDup, Traverse, Later;
    var n := |b0.actions|;
    DescLater(b0, b1);
    assert Uids(b1.actions)[n+1] == Branch(t);
    assert ActionOk(x, b1, b1.actions[n]);
  }

  lemma FreshUids(x: Input, b0: Build, b1: Build, t: Tag, u: Tag)
    requires t in Traverse(x.fs) && t !in b0.memo && Known(x, b0, Rank(x.fs, t)) && 0 <= u.field < |x.fs|
    requires forall uid | uid in Uids(b1.actions) :: uid in Uids(b0.actions) || uid.Desc? || uid.Branch?
    ensures Unused(x, b1, t, u)
  {
    forall uid | uid in Uids(b0.actions) ensures uid != FieldUid(x, u, t) && uid != EndlOf(u, t) {
      assert KnownUid(x, b0, Rank(x.fs, t), uid);
    }
  }

  lemma OpenedFresh(x: Input, b0: Build, b1: Build, t: Tag)
    requires InputOk(x) && t in x.states && t in Traverse(x.fs) && t !in b0.memo && Known(x, b0, Rank(x.fs, t))
    requires forall uid | uid in Uids(b1.actions) :: uid in Uids(b0.actions) || uid.Desc? || uid.Branch?
    ensures forall u | u in Choices(x, t) :: Unused(x, b1, t, u)
  {
    hide Known, Choices, Final, WellFormed, Traverse, Unused;
    forall u | u in Choices(x, t) ensures Unused(x, b1, t, u) {
      StepForward(x, t, u);
      FreshUids(x, b0, b1, t, u);
    }
  }

  lemma SuccessorsFine(x: Input, t: Tag)
    requires InputOk(x) && t in x.states
    ensures Preorder(x.fs)
    ensures forall u | u in x.states[t].successors :: u.field < |x.fs| && forall k :: 0 <= k < |u.indices| ==> u.indices[k] >= 0
  {
    hide Traverse;
    FinalForward(x.fs, x.states, t);
    TraverseIndexOk(x.fs);
    forall u | u in x.states[t].successors
      ensures u.field < |x.fs| && forall k :: 0 <= k < |u.indices| ==> u.indices[k] >= 0
    {
      IndexNonNegative(x.fs, u);
    }
  }

  lemma MemoAllAdd(x: Input, b: Build, t: Tag, entry: int)
    requires MemoAll(x, b) && t !in b.memo && MemoOk(x, b.(memo := b.memo[t := entry]), t)
    ensures MemoAll(x, b.(memo := b.memo[t := entry]))
  {
    var b1 := b.(memo := b.memo[t := entry]);
    assert Later(b, b1);
    hide MemoOk, Later;
    forall u | u in b1.memo ensures MemoOk(x, b1, u) {
      if u != t { MemoLater(x, b, b1, u); }
    }
  }

  lemma FinishDead(x: Input, b0: Build, t: Tag)
    requires t in x.states && t in Traverse(x.fs) && t !in b0.memo && MemoAll(x, b0)
    requires Grown(x, b0, b0, Rank(x.fs, t) + 1, Some(t), {}) && Decide(x, t) == Dead
    ensures var b1 := b0.(memo := b0.memo[t := -1]); Grown(x, b0, b1, Rank(x.fs, t), None, {}) && MemoAll(x, b1)
  {
    hide Grown, MemoAll, Decide;
    GrownFinish(x, b0, b0, Rank(x.fs, t), t, -1);
    MemoAllAdd(x, b0, t, -1);
  }

  lemma FinishBranch(x: Input, b0: Build, b1: Build, b: Build, t: Tag, br: nat, entry: nat)
    requires t in x.states && Working(x, b0, b, t, br) && Later(b1, b)
    requires br < |b1.actions| && b1.actions[br].field.None? && b1.actions[br].indices == []
    requires forall u | u in Choices(x, t) :: 0 <= u.field < |x.fs|
    requires b.actions[br] == b1.actions[br].(successors := FieldUids(x, Choices(x, t), t))
    requires forall uid | uid in FieldUids(x, Choices(x, t), t) :: uid in Uids(b.actions)
    requires BranchBody(x, t, b1.actions[br].body) && entry < |b1.actions|
    requires entry == br || (b1.actions[entry].uid.Desc? && Decide(x, t) == Single(b1.actions[entry].uid.succ)
                             && b1.actions[entry].successors == [Branch(t)])
    ensures var b2 := b.(memo := b.memo[t := entry]); Grown(x, b0, b2, Rank(x.fs, t), None, {}) && MemoAll(x, b2)
  {
    hide Grown, MemoAll, Known, FieldUids;
    NotDead(x, t, b1.actions[br].body);
    hide Decide, Choices, BranchBody;
    assert ActionOk(x, b, b.actions[br]);
    hide ActionOk;
    GrownSettle(x, b0, b, Rank(x.fs, t) + 1, Some(t), {br}, br);
    assert {br} - {br} == {};
    assert |Uids(b1.actions)| <= |Uids(b.actions)|;
    assert b.actions[entry].uid == b1.actions[entry].uid by {
      assert Uids(b1.actions)[entry] == Uids(b.actions)[entry];
    }
    hide Later;
    GrownFinish(x, b0, b, Rank(x.fs, t), t, entry);
    MemoAllAdd(x, b, t, entry);
  }

  lemma NotDead(x: Input, t: Tag, body: Body)
    requires t in x.states && BranchBody(x, t, body)
    ensures Decide(x, t) != Dead
  {
    hide Decide;
  }
}
