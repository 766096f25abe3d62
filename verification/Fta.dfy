/** The finite thought automaton: its actions, and the choices the instantiation makes at each state. */
module Fta {
  import opened Schema
  import opened Traversal
  import opened Concretize
  import opened Documents
  import opened Ravelling

  /** The identity of an action, made of the states it was created for. */
  datatype Uid =
    | Header
    | Desc(succ: Tag)
    | Branch(state: Tag)
    | FieldOf(succ: Tag, from: Tag)
    | SkipOf(succ: Tag, from: Tag)
    | EndlOf(succ: Tag, from: Tag)

  datatype Body =
    | Text(text: string, evaluate: bool := false)
    | Complete(length: nat, search: TextSearch, stop: string, vocab: Option<string>)
    | Choose(choices: seq<string>, width: nat, threshold: real)

  datatype Action = Action(
    uid: Uid,
    successors: seq<Uid>,
    field: Option<int>,
    indices: seq<int>,
    body: Body)

  datatype TextSearch = TextSearch(
    threshold: real,
    beams: nat,
    ahead: nat,
    width: nat,
    repetition: Option<real>,
    diversity: Option<real>)

  datatype ChoiceSearch = ChoiceSearch(width: nat, threshold: real)

  /** The category of a choice, which selects its search defaults. */
  datatype Category = Flow | EnumChoice | BranchChoice

  /** Everything about syntax and search that the shape of the automaton does not depend on. */
  datatype Config = Config(
    descInline: bool,
    descText: int -> string,
    labelOf: Tag -> string,
    separator: string,
    stop: string,
    indexText: nat -> string,
    textSearch: int -> TextSearch,
    choiceSearch: (int, Category) -> ChoiceSearch)

  datatype Input = Input(fs: seq<Field>, states: Graph, content: Doc, cfg: Config)

  // ---- What follows a state -----------------------------------------------------------------

  /** The successors the content does not rule out. */
  function Valid(x: Input, us: seq<Tag>): seq<Tag> {
    if us == [] then []
    else
      var rest := Valid(x, us[..|us|-1]);
      var u := us[|us|-1];
      if u in x.states && !Skip(x.content, x.fs, u) then rest + [u] else rest
  }

  predicate Filled(x: Input, u: Tag) {
    var v := Read(x.content, x.fs, u);
    v.Some? && v.value != Null
  }

  /** The first state the content gives a value for. */
  function FirstFilled(x: Input, us: seq<Tag>): Option<Tag> {
    if us == [] then None
    else if Filled(x, us[0]) then Some(us[0])
    else FirstFilled(x, us[1..])
  }

  datatype Decision =
    | Dead
    | Single(u: Tag)
    | Forced(u: Tag)
    | Open(us: seq<Tag>)

  /** How the run goes on after state t: not at all, in the only way left, in the way the content
      demands, or as the model chooses. */
  function Decide(x: Input, t: Tag): Decision
    requires t in x.states
  {
    var valid := Valid(x, x.states[t].successors);
    if valid == [] then Dead
    else if |valid| == 1 then Single(valid[0])
    else
      var f := FirstFilled(x, valid);
      if f.Some? then Forced(f.value) else Open(valid)
  }

  function Choices(x: Input, t: Tag): seq<Tag>
    requires t in x.states
  {
    match Decide(x, t)
    case Dead => []
    case Single(u) => [u]
    case Forced(u) => [u]
    case Open(us) => us
  }

  lemma {:induction false} ValidIn(x: Input, us: seq<Tag>)
    ensures forall u | u in Valid(x, us) :: u in us && u in x.states && !Skip(x.content, x.fs, u)
    ensures forall u | u in us && u in x.states && !Skip(x.content, x.fs, u) :: u in Valid(x, us)
    ensures NoDup(us) ==> NoDup(Valid(x, us))
  {
    hide Skip;
    if us != [] { ValidIn(x, us[..|us|-1]); }
  }

  lemma {:induction false} FirstFilledIn(x: Input, us: seq<Tag>)
    ensures FirstFilled(x, us).Some? ==> FirstFilled(x, us).value in us && Filled(x, FirstFilled(x, us).value)
    ensures FirstFilled(x, us).None? ==> forall u | u in us :: !Filled(x, u)
  {
    hide Filled;
    if us != [] { FirstFilledIn(x, us[1..]); }
  }

  lemma ChoicesIn(x: Input, t: Tag)
    requires t in x.states
    ensures forall u | u in Choices(x, t) :: u in x.states[t].successors && u in x.states
    ensures NoDup(x.states[t].successors) ==> NoDup(Choices(x, t))
  {
    hide Filled, Skip;
    ValidIn(x, x.states[t].successors);
    FirstFilledIn(x, Valid(x, x.states[t].successors));
  }

  // ---- The action of a field --------------------------------------------------------------------

  /** The body of the action for state u, and the number of choices it offers; None when the content
      holds something other than a scalar there, or among the alternatives of a choice. */
  function FieldBody(x: Input, u: Tag): Option<(Body, nat)>
    requires 0 <= u.field < |x.fs| && !x.fs[u.field].IsRecord()
  {
    var v := Read(x.content, x.fs, u);
    var f := x.fs[u.field];
    if v.Some? && v.value != Null then
      if v.value.Scalar? then Some((Text(v.value.text), 0)) else None
    else
      match f.format
      case Record => None
      case Completion(length, vocab) =>
        var n := if length.Some? then length.value % 0x1_0000_0000 else 50;
        Some((Complete(n, x.cfg.textSearch(u.field), x.cfg.stop, vocab), 0))
      case Enum(values) =>
        var cs := x.cfg.choiceSearch(u.field, if f.name == "next" then Flow else EnumChoice);
        Some((Choose(values, cs.width, cs.threshold), |values|))
      case Choice(mode, path) =>
        var choices := Alternatives(x.content, mode, path, x.cfg.indexText);
        var cs := x.cfg.choiceSearch(u.field, EnumChoice);
        if choices.None? then None else Some((Choose(choices.value, cs.width, cs.threshold), |choices.value|))
  }

  function Copies<T>(v: T, n: nat): (r: seq<T>)
    ensures |r| == n && forall i | 0 <= i < n :: r[i] == v
  {
    seq(n, _ => v)
  }

  function FieldUid(x: Input, u: Tag, from: Tag): Uid
    requires 0 <= u.field < |x.fs|
  {
    if x.fs[u.field].IsRecord() then SkipOf(u, from) else FieldOf(u, from)
  }

  /** The action that stands for visiting u after from: the field itself, or an empty connector for a record. */
  function FieldAction(x: Input, u: Tag, from: Tag): Option<Action>
    requires 0 <= u.field < |x.fs|
  {
    if x.fs[u.field].IsRecord() then
      Some(Action(SkipOf(u, from), [EndlOf(u, from)], None, [], Text("")))
    else
      var b := FieldBody(x, u);
      if b.None? then None
      else
        var n := if b.value.1 > 0 then b.value.1 else 1;
        Some(Action(FieldOf(u, from), Copies(EndlOf(u, from), n), Some(u.field), u.indices, b.value.0))
  }
}
