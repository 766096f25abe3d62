/** Writing generated values into the frame, and reading them back. */
module Frame {
  import opened Schema
  import opened Traversal
  import opened Documents

  function AsObject(d: Doc): map<string, Doc> {
    if d.Object? then d.members else map[]
  }

  function AsArray(d: Doc): seq<Doc> {
    if d.Array? then d.items else []
  }

  /** Grow a list with padding until it has an element idx. */
  function Padded(items: seq<Doc>, idx: nat, pad: Doc): (r: seq<Doc>)
    ensures |r| == if |items| > idx then |items| else idx + 1
    ensures forall k | 0 <= k < |items| :: r[k] == items[k]
    decreases idx + 1 - |items|
  {
    if |items| > idx then items else Padded(items + [pad], idx, pad)
  }

  /** One step of the way down: the name of a field, and the element if the field is a list. */
  datatype Step = Step(name: string, arrIdx: int)

  /** What indexing an object by a new name creates. It is no container, so the way down turns it into one, and the last
      step overwrites it. */
  const FRESH := Scalar("0")

  /** The document with v written at the end of the steps. */
  function Write(d: Doc, steps: seq<Step>, v: Doc): Doc
    decreases |steps|
  {
    if steps == [] then v
    else
      var step, obj := steps[0], AsObject(d);
      var child := if step.name in obj then obj[step.name] else FRESH;
      if step.arrIdx >= 0 then
        var arr := Padded(AsArray(child), step.arrIdx, if |steps| == 1 then Null else Object(map[]));
        Object(obj[step.name := Array(arr[step.arrIdx := Write(arr[step.arrIdx], steps[1..], v)])])
      else
        Object(obj[step.name := Write(child, steps[1..], v)])
  }

  /** The way to a field: one step per level, consuming one index each. */
  function StepsOf(fs: seq<Field>, t: Tag): (r: seq<Step>)
    requires 0 <= t.field < |fs|
    ensures |r| == |Ancestors(fs, t.field)|
  {
    var chain := Ancestors(fs, t.field);
    seq(|chain|, a requires 0 <= a < |chain| =>
      Step(fs[chain[a]].name, if fs[chain[a]].IsList() then IndexAt(t.indices, a) else -1))
  }

  function StepAt(fs: seq<Field>, i: nat, idx: int): Step
    requires i < |fs|
  {
    Step(fs[i].name, if fs[i].IsList() then idx else -1)
  }

  /** The steps above level n, and the way they grow. */
  lemma StepsSplit(fs: seq<Field>, t: Tag, n: nat)
    requires 0 <= t.field < |fs| && n < |Ancestors(fs, t.field)|
    ensures StepsOf(fs, t)[n] == StepAt(fs, Ancestors(fs, t.field)[n], IndexAt(t.indices, n))
    ensures StepsOf(fs, t)[n..] == [StepsOf(fs, t)[n]] + StepsOf(fs, t)[n+1..]
    ensures StepsOf(fs, t)[n..][1..] == StepsOf(fs, t)[n+1..]
  {
    hide Ancestors;
  }

  /** cur is the ancestor of f at level n - 1. */
  ghost predicate OnChain(fs: seq<Field>, f: nat, cur: int, n: nat)
    requires f < |fs| && cur < |fs|
  {
    n <= |Ancestors(fs, f)| && Above(fs, cur) == Ancestors(fs, f)[..n] && (cur < 0 <==> n == 0)
  }

  lemma ChainUp(fs: seq<Field>, f: nat, cur: nat, n: nat)
    requires f < |fs| && cur < |fs| && OnChain(fs, f, cur, n)
    ensures n > 0 && Ancestors(fs, f)[n-1] == cur
    ensures OnChain(fs, f, Parent(fs, cur), n - 1)
  {
    hide Parent;
    var c := Ancestors(fs, f);
    assert Ancestors(fs, cur) == c[..n];
    assert Ancestors(fs, cur) == Above(fs, Parent(fs, cur)) + [cur];
    assert c[..n-1] == c[..n][..n-1];
  }

  /** The ancestor chain, child first, consuming one index per field from the end. */
  method BuildSteps(fs: seq<Field>, t: Tag) returns (chain: seq<Step>)
    requires Preorder(fs) && TagOf(fs, t) && t != ROOT
    ensures chain == StepsOf(fs, t)
  {
    hide Ancestors, Parent, StepsOf;
    AncestorDepths(fs, t.field);
    ghost var target := StepsOf(fs, t);
    chain := [];
    var idx: int := t.field;
    var cursor := |t.indices|;
    assert Ancestors(fs, t.field)[..cursor] == Ancestors(fs, t.field);
    while idx >= 0
      invariant -1 <= idx < |fs| && 0 <= cursor <= |target|
      invariant OnChain(fs, t.field, idx, cursor)
      invariant Reverse(chain) == target[cursor..]
      decreases idx + 1
    {
      ChainUp(fs, t.field, idx, cursor);
      var f := fs[idx];
      cursor := cursor - 1;
      StepsSplit(fs, t, cursor);
      var arrIdx := if cursor >= 0 then t.indices[cursor] else 0;
      var step := Step(f.name, if f.IsList() then arrIdx else -1);
      ReverseAppend(chain, step);
      chain := chain + [step];
      ParentDepth(fs, idx);
      if f.depth == 1 { break; }
      idx := ScanParent(fs, idx);
    }
    assert cursor == 0;
    chain := Reverse(chain);
    assert target[0..] == target;
  }

  /** A top-level field is written directly. */
  lemma WriteTop(fs: seq<Field>, t: Tag, frame: Doc, value: Doc)
    requires Preorder(fs) && TagOf(fs, t) && t != ROOT && fs[t.field].depth == 1 && t.indices[0] >= 0
    ensures var fld := fs[t.field]; var obj := AsObject(frame);
      Write(frame, StepsOf(fs, t), value) ==
        if fld.IsList() then
          var arr := Padded(AsArray(if fld.name in obj then obj[fld.name] else FRESH), t.indices[0], Null);
          Object(obj[fld.name := Array(arr[t.indices[0] := value])])
        else Object(obj[fld.name := value])
  {
    AncestorDepths(fs, t.field);
    StepsSplit(fs, t, 0);
    hide Ancestors, Padded;
    assert StepsOf(fs, t)[1..] == [];
  }

  method SetFieldValue(frame: Doc, fs: seq<Field>, t: Tag, value: Doc) returns (r: Doc)
    requires Preorder(fs) && TagOf(fs, t) && t != ROOT
    requires forall k :: 0 <= k < |t.indices| ==> t.indices[k] >= 0
    ensures r == Write(frame, StepsOf(fs, t), value)
  {
    hide StepsOf, Write;
    var fld := fs[t.field];
    if fld.depth == 1 {
      WriteTop(fs, t, frame, value);
      var obj := AsObject(frame);
      if fld.IsList() && t.indices != [] {
        var arrIdx := t.indices[|t.indices|-1];
        var arr := Padded(AsArray(if fld.name in obj then obj[fld.name] else FRESH), arrIdx, Null);
        r := Object(obj[fld.name := Array(arr[arrIdx := value])]);
      } else {
        r := Object(obj[fld.name := value]);
      }
    } else {
      var chain := BuildSteps(fs, t);
      r := Write(frame, chain, value);
    }
  }

  // ---- The lens laws, on steps ---------------------------------------------------------------

  /** x stands in d at the end of the steps. */
  ghost predicate Holds(d: Doc, steps: seq<Step>, x: Doc)
    decreases |steps|
  {
    if steps == [] then d == x
    else
      && d.Object? && steps[0].name in d.members
      && var child := d.members[steps[0].name];
      if steps[0].arrIdx >= 0 then
        child.Array? && steps[0].arrIdx < |child.items| && Holds(child.items[steps[0].arrIdx], steps[1..], x)
      else Holds(child, steps[1..], x)
  }

  /** Nothing, or only padding, stands in d at the end of the steps. */
  ghost predicate Blank(d: Doc, steps: seq<Step>)
    decreases |steps|
  {
    if steps == [] then d == Null
    else
      && d.Object?
      && (steps[0].name in d.members ==>
        var child := d.members[steps[0].name];
        if steps[0].arrIdx >= 0 then
          child.Array? && (steps[0].arrIdx < |child.items| ==> Blank(child.items[steps[0].arrIdx], steps[1..]))
        else Blank(child, steps[1..]))
  }

  /** Two ways part at some level: another name, or another element of the same list. */
  ghost predicate Diverge(s: seq<Step>, r: seq<Step>)
    decreases |s|
  {
    && s != [] && r != []
    && (|| s[0].name != r[0].name
        || (s[0].arrIdx >= 0 && r[0].arrIdx >= 0 && s[0].arrIdx != r[0].arrIdx)
        || (s[0] == r[0] && Diverge(s[1..], r[1..])))
  }

  /** Put, then get. */
  lemma {:induction false} WriteHolds(d: Doc, steps: seq<Step>, v: Doc)
    ensures Holds(Write(d, steps, v), steps, v)
    decreases |steps|
  {
    if steps != [] {
      var obj := AsObject(d);
      var child := if steps[0].name in obj then obj[steps[0].name] else FRESH;
      if steps[0].arrIdx >= 0 {
        var arr := Padded(AsArray(child), steps[0].arrIdx, if |steps| == 1 then Null else Object(map[]));
        WriteHolds(arr[steps[0].arrIdx], steps[1..], v);
      } else {
        WriteHolds(child, steps[1..], v);
      }
    }
  }

  /** Writing back what stands there changes nothing. */
  lemma {:induction false} WriteBack(d: Doc, steps: seq<Step>, x: Doc)
    requires Holds(d, steps, x)
    ensures Write(d, steps, x) == d
    decreases |steps|
  {
    if steps != [] {
      var child := d.members[steps[0].name];
      if steps[0].arrIdx >= 0 {
        WriteBack(child.items[steps[0].arrIdx], steps[1..], x);
        assert child.items[steps[0].arrIdx := child.items[steps[0].arrIdx]] == child.items;
        assert d.members[steps[0].name := child] == d.members;
      } else {
        WriteBack(child, steps[1..], x);
        assert d.members[steps[0].name := child] == d.members;
      }
    }
  }

  /** Of two writes to the same place only the last counts. */
  lemma {:induction false} WriteOver(d: Doc, steps: seq<Step>, v: Doc, x: Doc)
    ensures Write(Write(d, steps, v), steps, x) == Write(d, steps, x)
    decreases |steps|
  {
    hide Write, Member;
    if steps == [] {
      WriteNowhere(d, v);
      WriteNowhere(d, x);
      WriteNowhere(Write(d, steps, v), x);
    } else {
      var child := if steps[0].name in AsObject(d) then AsObject(d)[steps[0].name] else FRESH;
      WriteTwice(d, steps, v, steps, x);
      WriteIsMember(d, steps, x);
      MemberOver(child, steps, v, x);
    }
  }

  lemma WriteNowhere(d: Doc, v: Doc)
    ensures Write(d, [], v) == v
  {
  }

  lemma {:induction false} MemberOver(child: Doc, s: seq<Step>, v: Doc, x: Doc)
    requires s != []
    ensures Member(Member(child, s, v), s, x) == Member(child, s, x)
    decreases |s|, 0
  {
    hide Write, Padded, Items;
    if s[0].arrIdx >= 0 {
      var pad := if |s| == 1 then Null else Object(map[]);
      WriteOver(Padded(AsArray(child), s[0].arrIdx, pad)[s[0].arrIdx], s[1..], v, x);
      ItemsOver(AsArray(child), s, v, x, pad);
    } else {
      WriteOver(child, s[1..], v, x);
    }
  }

  lemma ItemsOver(items: seq<Doc>, s: seq<Step>, v: Doc, x: Doc, pad: Doc)
    requires s != [] && s[0].arrIdx >= 0
    requires var e := Padded(items, s[0].arrIdx, pad)[s[0].arrIdx];
      Write(Write(e, s[1..], v), s[1..], x) == Write(e, s[1..], x)
    ensures Items(Items(items, s, v, pad), s, x, pad) == Items(items, s, x, pad)
  {
    hide Write, Padded;
    PaddedFull(Items(items, s, v, pad), s[0].arrIdx, pad);
  }

  lemma PaddedFull(items: seq<Doc>, idx: nat, pad: Doc)
    requires idx < |items|
    ensures Padded(items, idx, pad) == items
  {
  }

  /** A write elsewhere leaves what was there. */
  lemma {:induction false} WriteKeeps(d: Doc, s: seq<Step>, v: Doc, r: seq<Step>, x: Doc)
    requires Diverge(s, r) && Holds(d, r, x)
    ensures Holds(Write(d, s, v), r, x)
    decreases |s|
  {
    if s[0] == r[0] && Diverge(s[1..], r[1..]) {
      var child := d.members[s[0].name];
      if s[0].arrIdx >= 0 {
        WriteKeeps(child.items[s[0].arrIdx], s[1..], v, r[1..], x);
      } else {
        WriteKeeps(child, s[1..], v, r[1..], x);
      }
    }
  }

  lemma PaddedNew(items: seq<Doc>, idx: nat, pad: Doc)
    ensures forall k | |items| <= k < |Padded(items, idx, pad)| :: Padded(items, idx, pad)[k] == pad
    decreases idx + 1 - |items|
  {
    if |items| <= idx { PaddedNew(items + [pad], idx, pad); }
  }

  lemma WriteIntoNonObject(d: Doc, s: seq<Step>, v: Doc)
    requires s != []
    ensures Write(d, s, v) == Write(Object(AsObject(d)), s, v)
  {
  }

  /** A write elsewhere creates nothing here but padding. Both ways must part before either ends. */
  lemma {:induction false} WriteLeavesBlank(d: Doc, s: seq<Step>, v: Doc, r: seq<Step>)
    requires Diverge(s, r) && Blank(d, r)
    requires SameEnds(s, r)
    ensures Blank(Write(d, s, v), r)
    decreases |s|
  {
    var name, obj := s[0].name, AsObject(d);
    if name == r[0].name {
      var child := if name in obj then obj[name] else FRESH;
      if s[0].arrIdx >= 0 {
        var pad := if |s| == 1 then Null else Object(map[]);
        PaddedNew(AsArray(child), s[0].arrIdx, pad);
        var arr := Padded(AsArray(child), s[0].arrIdx, pad);
        if s[0] == r[0] {
          WriteLeavesBlank(arr[s[0].arrIdx], s[1..], v, r[1..]);
        }
      } else {
        WriteIntoNonObject(child, s[1..], v);
        WriteLeavesBlank(Object(AsObject(child)), s[1..], v, r[1..]);
      }
    }
  }

  /** Two ways into the same list either both end there or both go on. */
  ghost predicate SameEnds(s: seq<Step>, r: seq<Step>)
    decreases |s|
  {
    s != [] && r != [] && s[0].name == r[0].name ==>
      && (s[0].arrIdx >= 0 <==> r[0].arrIdx >= 0)
      && (|s| == 1 <==> |r| == 1)
      && (s[0] == r[0] ==> SameEnds(s[1..], r[1..]))
  }

  /** Writes to different places commute, whatever the document. */
  lemma {:induction false} WritesCommute(d: Doc, s: seq<Step>, v: Doc, r: seq<Step>, x: Doc)
    requires Diverge(s, r) && SameEnds(s, r)
    ensures Write(Write(d, s, v), r, x) == Write(Write(d, r, x), s, v)
    decreases |s|
  {
    hide Write;
    var name, obj := s[0].name, AsObject(d);
    var child := if name in obj then obj[name] else FRESH;
    if name != r[0].name {
      WriteMembers(d, s, v, r, x);
      WriteMembers(d, r, x, s, v);
      hide Member;
      assert obj[s[0].name := Member(child, s, v)]
                [r[0].name := Member(if r[0].name in obj then obj[r[0].name] else FRESH, r, x)]
          == obj[r[0].name := Member(if r[0].name in obj then obj[r[0].name] else FRESH, r, x)]
                [s[0].name := Member(child, s, v)];
    } else {
      WriteTwice(d, s, v, r, x);
      WriteTwice(d, r, x, s, v);
      if s[0].arrIdx < 0 {
        WritesCommute(child, s[1..], v, r[1..], x);
      } else {
        var pad := if |s| == 1 then Null else Object(map[]);
        if s[0] == r[0] {
          WritesCommute(Padded(AsArray(child), s[0].arrIdx, pad)[s[0].arrIdx], s[1..], v, r[1..], x);
        }
        ListsCommute(AsArray(child), s, v, r, x, pad);
        hide Items;
      }
    }
  }

  lemma WriteTwice(d: Doc, s: seq<Step>, v: Doc, r: seq<Step>, x: Doc)
    requires s != [] && r != [] && s[0].name == r[0].name
    ensures var child := if s[0].name in AsObject(d) then AsObject(d)[s[0].name] else FRESH;
      Write(Write(d, s, v), r, x) == Object(AsObject(d)[s[0].name := Member(Member(child, s, v), r, x)])
  {
    hide Write, Member;
    WriteIsMember(d, s, v);
    WriteIsMember(Write(d, s, v), r, x);
  }

  /** The member a write leaves under its first name, whatever stood there. */
  function Member(child: Doc, s: seq<Step>, v: Doc): Doc
    requires s != []
  {
    if s[0].arrIdx >= 0 then Array(Items(AsArray(child), s, v, if |s| == 1 then Null else Object(map[])))
    else Write(child, s[1..], v)
  }

  function Items(items: seq<Doc>, s: seq<Step>, v: Doc, pad: Doc): seq<Doc>
    requires s != [] && s[0].arrIdx >= 0
  {
    var arr := Padded(items, s[0].arrIdx, pad);
    arr[s[0].arrIdx := Write(arr[s[0].arrIdx], s[1..], v)]
  }

  lemma WriteIsMember(d: Doc, s: seq<Step>, v: Doc)
    requires s != []
    ensures Write(d, s, v) == Object(AsObject(d)[s[0].name :=
      Member(if s[0].name in AsObject(d) then AsObject(d)[s[0].name] else FRESH, s, v)])
  {
  }

  lemma WriteMembers(d: Doc, s: seq<Step>, v: Doc, r: seq<Step>, x: Doc)
    requires s != [] && r != [] && s[0].name != r[0].name
    ensures var obj := AsObject(d);
      Write(Write(d, s, v), r, x) == Object(obj
        [s[0].name := Member(if s[0].name in obj then obj[s[0].name] else FRESH, s, v)]
        [r[0].name := Member(if r[0].name in obj then obj[r[0].name] else FRESH, r, x)])
  {
    hide Write, Member;
    WriteIsMember(d, s, v);
    WriteIsMember(Write(d, s, v), r, x);
  }

  lemma ListsCommute(items: seq<Doc>, s: seq<Step>, v: Doc, r: seq<Step>, x: Doc, pad: Doc)
    requires s != [] && r != [] && s[0].arrIdx >= 0 && r[0].arrIdx >= 0
    requires s[0].arrIdx == r[0].arrIdx ==>
      var e := Padded(items, s[0].arrIdx, pad)[s[0].arrIdx];
      Write(Write(e, s[1..], v), r[1..], x) == Write(Write(e, r[1..], x), s[1..], v)
    ensures Items(Items(items, s, v, pad), r, x, pad) == Items(Items(items, r, x, pad), s, v, pad)
  {
    hide Write;
    PaddedNew(items, s[0].arrIdx, pad);
    PaddedNew(items, r[0].arrIdx, pad);
    PaddedNew(Items(items, s, v, pad), r[0].arrIdx, pad);
    PaddedNew(Items(items, r, x, pad), s[0].arrIdx, pad);
  }

  // ---- The lens laws, on states ----------------------------------------------------------------

  predicate Leaf(fs: seq<Field>, t: Tag) {
    0 <= t.field < |fs| && !HasChild(fs, t.field)
  }

  /** The addresses values are written to: leaves with an index per level, which only lists use. */
  ghost predicate Address(fs: seq<Field>, t: Tag)
    requires Preorder(fs)
  {
    && Leaf(fs, t) && TagOf(fs, t) && (forall k | 0 <= k < |t.indices| :: t.indices[k] >= 0)
    && forall k | 0 <= k < |Ancestors(fs, t.field)| && !fs[Ancestors(fs, t.field)[k]].IsList() :: IndexAt(t.indices, k) == 0
  }

  /** Fields of the same parent have different names. */
  ghost predicate NamesDistinct(fs: seq<Field>) {
    forall i, j :: 0 <= i < |fs| && 0 <= j < |fs| && i != j && Parent(fs, i) == Parent(fs, j) ==> fs[i].name != fs[j].name
  }

  lemma {:induction false} PrefixLevels(fs: seq<Field>, f: nat, p: seq<int>)
    requires Preorder(fs) && f < |fs| && PrefixOk(fs, f, p)
    ensures |Ancestors(fs, f)| == |p| + 1
    ensures forall k | 0 <= k < |p| :: 0 <= p[k] < fs[Ancestors(fs, f)[k]].Reps()
    decreases f
  {
    var g := Parent(fs, f);
    ParentDepth(fs, f);
    AncestorDepths(fs, f);
    if g >= 0 {
      PrefixLevels(fs, g, p[..|p|-1]);
      hide Parent, PrefixOk;
      assert forall k | 0 <= k < |p| - 1 :: p[..|p|-1][k] == p[k];
    }
  }

  /** Every index is in range for the field of its level. */
  lemma IndexLevels(fs: seq<Field>, t: Tag)
    requires Preorder(fs) && TagOf(fs, t) && t != ROOT && IndexOk(fs, t)
    ensures |Ancestors(fs, t.field)| == |t.indices|
    ensures forall k | 0 <= k < |t.indices| - 1 :: 0 <= t.indices[k] < fs[Ancestors(fs, t.field)[k]].Reps()
    ensures 0 <= t.indices[|t.indices|-1] <= fs[t.field].Reps()
  {
    PrefixLevels(fs, t.field, Prefix(t));
    hide PrefixOk, Ancestors;
    assert forall k | 0 <= k < |t.indices| - 1 :: Prefix(t)[k] == t.indices[k];
  }

  lemma {:induction false} HoldsRead(d: Doc, fs: seq<Field>, t: Tag, a: nat, x: Doc)
    requires 0 <= t.field < |fs| && a <= |Ancestors(fs, t.field)|
    requires forall k | 0 <= k < |t.indices| :: t.indices[k] >= 0
    requires Holds(d, StepsOf(fs, t)[a..], x)
    ensures ReadFrom(d, fs, Ancestors(fs, t.field), t.indices, a) == Some(x)
    decreases |Ancestors(fs, t.field)| - a
  {
    hide Ancestors;
    if a < |Ancestors(fs, t.field)| {
      StepsSplit(fs, t, a);
      var e := ReadStep(d, fs[Ancestors(fs, t.field)[a]], IndexAt(t.indices, a));
      HoldsRead(e.value, fs, t, a + 1, x);
    }
  }

  lemma {:induction false} BlankRead(d: Doc, fs: seq<Field>, t: Tag, a: nat)
    requires 0 <= t.field < |fs| && a <= |Ancestors(fs, t.field)|
    requires forall k | 0 <= k < |t.indices| :: t.indices[k] >= 0
    requires Blank(d, StepsOf(fs, t)[a..])
    ensures ReadFrom(d, fs, Ancestors(fs, t.field), t.indices, a) in {None, Some(Null)}
    decreases |Ancestors(fs, t.field)| - a
  {
    hide Ancestors;
    if a < |Ancestors(fs, t.field)| {
      StepsSplit(fs, t, a);
      var e := ReadStep(d, fs[Ancestors(fs, t.field)[a]], IndexAt(t.indices, a));
      if e.Some? { BlankRead(e.value, fs, t, a + 1); }
    }
  }

  /** Two different addresses that agree above level a part at level a or below. */
  lemma {:induction false} PartBelow(fs: seq<Field>, t: Tag, u: Tag, a: nat)
    requires Preorder(fs) && NamesDistinct(fs) && Address(fs, t) && Address(fs, u) && t != u
    requires a <= |Ancestors(fs, t.field)| && a <= |Ancestors(fs, u.field)|
    requires Ancestors(fs, t.field)[..a] == Ancestors(fs, u.field)[..a]
    requires |t.indices| >= a && |u.indices| >= a && t.indices[..a] == u.indices[..a]
    ensures Diverge(StepsOf(fs, t)[a..], StepsOf(fs, u)[a..])
    ensures SameEnds(StepsOf(fs, t)[a..], StepsOf(fs, u)[a..])
    decreases |Ancestors(fs, t.field)| - a
  {
    AncestorDepths(fs, t.field);
    AncestorDepths(fs, u.field);
    NotAbove(fs, t, u, a);
    NotAbove(fs, u, t, a);
    hide Ancestors, Preorder, NamesDistinct, Address, StepsOf, Diverge, SameEnds;
    var ct, cu := Ancestors(fs, t.field), Ancestors(fs, u.field);
    StepsSplit(fs, t, a);
    StepsSplit(fs, u, a);
    var s, r := StepsOf(fs, t)[a..], StepsOf(fs, u)[a..];
    if ct[a] != cu[a] {
      SiblingsNamed(fs, t, u, a);
      PartHere(s, r);
    } else {
      SameLast(fs, t, u, a);
      PlainIndex(fs, t, a);
      PlainIndex(fs, u, a);
      if t.indices[a] == u.indices[a] {
        SliceUp(ct, cu, a);
        SliceUp(t.indices, u.indices, a);
        PartBelow(fs, t, u, a + 1);
        PartLater(s, r);
      } else {
        PartHere(s, r);
      }
    }
  }

  lemma SliceUp<T>(s: seq<T>, r: seq<T>, a: nat)
    requires a < |s| && a < |r| && s[..a] == r[..a] && s[a] == r[a]
    ensures s[..a+1] == r[..a+1]
  {
    assert s[..a+1] == s[..a] + [s[a]] && r[..a+1] == r[..a] + [r[a]];
  }

  lemma PartHere(s: seq<Step>, r: seq<Step>)
    requires s != [] && r != []
    requires s[0].name != r[0].name ||
      (s[0].arrIdx >= 0 && r[0].arrIdx >= 0 && s[0].arrIdx != r[0].arrIdx && (|s| == 1 <==> |r| == 1))
    ensures Diverge(s, r) && SameEnds(s, r)
  {
  }

  lemma PartLater(s: seq<Step>, r: seq<Step>)
    requires s != [] && r != [] && s[0] == r[0] && (|s| == 1 <==> |r| == 1)
    requires Diverge(s[1..], r[1..]) && SameEnds(s[1..], r[1..])
    ensures Diverge(s, r) && SameEnds(s, r)
  {
  }

  lemma PlainIndex(fs: seq<Field>, t: Tag, a: nat)
    requires Preorder(fs) && Address(fs, t) && a < |Ancestors(fs, t.field)|
    ensures |t.indices| == |Ancestors(fs, t.field)| && t.indices[a] >= 0
    ensures !fs[Ancestors(fs, t.field)[a]].IsList() ==> t.indices[a] == 0
  {
    AncestorDepths(fs, t.field);
    hide Ancestors;
  }

  /** An address never ends where another one goes on. */
  lemma NotAbove(fs: seq<Field>, t: Tag, u: Tag, a: nat)
    requires Preorder(fs) && Address(fs, t) && Address(fs, u) && t != u
    requires a <= |Ancestors(fs, t.field)| && a <= |Ancestors(fs, u.field)|
    requires Ancestors(fs, t.field)[..a] == Ancestors(fs, u.field)[..a]
    requires |t.indices| >= a && |u.indices| >= a && t.indices[..a] == u.indices[..a]
    ensures a < |Ancestors(fs, t.field)|
  {
    var ct, cu := Ancestors(fs, t.field), Ancestors(fs, u.field);
    AncestorDepths(fs, t.field);
    AncestorDepths(fs, u.field);
    if a == |ct| {
      assert cu[a-1] == cu[..a][a-1] == ct[a-1] == t.field;
      if a < |cu| {
        AncestorParent(fs, u.field, a);
        ParentHasChild(fs, cu[a]);
      }
    }
  }

  lemma SiblingsNamed(fs: seq<Field>, t: Tag, u: Tag, a: nat)
    requires Preorder(fs) && NamesDistinct(fs) && 0 <= t.field < |fs| && 0 <= u.field < |fs|
    requires a < |Ancestors(fs, t.field)| && a < |Ancestors(fs, u.field)|
    requires Ancestors(fs, t.field)[..a] == Ancestors(fs, u.field)[..a]
    requires Ancestors(fs, t.field)[a] != Ancestors(fs, u.field)[a]
    ensures fs[Ancestors(fs, t.field)[a]].name != fs[Ancestors(fs, u.field)[a]].name
  {
    hide Ancestors, Preorder, Parent;
    AncestorParent(fs, t.field, a);
    AncestorParent(fs, u.field, a);
    if a > 0 {
      assert Ancestors(fs, t.field)[a-1] == Ancestors(fs, t.field)[..a][a-1];
      assert Ancestors(fs, u.field)[a-1] == Ancestors(fs, u.field)[..a][a-1];
    }
  }

  lemma SameLast(fs: seq<Field>, t: Tag, u: Tag, a: nat)
    requires Preorder(fs) && Address(fs, t) && Address(fs, u)
    requires a < |Ancestors(fs, t.field)| && a < |Ancestors(fs, u.field)|
    requires Ancestors(fs, t.field)[a] == Ancestors(fs, u.field)[a]
    ensures a + 1 == |Ancestors(fs, t.field)| <==> a + 1 == |Ancestors(fs, u.field)|
  {
    LastIsLeaf(fs, t, a);
    LastIsLeaf(fs, u, a);
  }

  lemma LastIsLeaf(fs: seq<Field>, t: Tag, a: nat)
    requires Preorder(fs) && Leaf(fs, t) && a < |Ancestors(fs, t.field)|
    ensures a + 1 == |Ancestors(fs, t.field)| <==> !HasChild(fs, Ancestors(fs, t.field)[a])
  {
    if a + 1 < |Ancestors(fs, t.field)| {
      AncestorParent(fs, t.field, a + 1);
      ParentHasChild(fs, Ancestors(fs, t.field)[a + 1]);
    }
  }

  /** The leaves of the longest run are addresses: the index of a level that is not a list is 0. */
  lemma LeafAddress(fs: seq<Field>, t: Tag)
    requires WellFormed(fs) && Leaf(fs, t) && TagOf(fs, t) && IndexOk(fs, t)
    ensures Address(fs, t)
  {
    IndexLevels(fs, t);
    forall k: nat | k < |Ancestors(fs, t.field)| && !fs[Ancestors(fs, t.field)[k]].IsList()
      ensures IndexAt(t.indices, k) == 0
    {
      LastIsLeaf(fs, t, k);
      hide Ancestors;
      assert FieldOk(fs, t.field);
    }
  }

  // ---- A whole walk -------------------------------------------------------------------------------

  datatype Entry = Entry(t: Tag, value: Doc)

  ghost predicate Addresses(fs: seq<Field>, es: seq<Entry>)
    requires Preorder(fs)
  {
    forall e | e in es :: Address(fs, e.t)
  }

  /** The frame after the writes, in order, starting from d. */
  function Written(d: Doc, fs: seq<Field>, es: seq<Entry>): Doc
    requires forall e | e in es :: 0 <= e.t.field < |fs|
  {
    if es == [] then d
    else Write(Written(d, fs, es[..|es|-1]), StepsOf(fs, es[|es|-1].t), es[|es|-1].value)
  }

  lemma AddressFacts(fs: seq<Field>, t: Tag)
    requires Preorder(fs) && Address(fs, t)
    ensures 0 <= t.field < |fs| && t != ROOT && forall k | 0 <= k < |t.indices| :: t.indices[k] >= 0
  {
  }

  lemma Part(fs: seq<Field>, t: Tag, u: Tag)
    requires Preorder(fs) && NamesDistinct(fs) && Address(fs, t) && Address(fs, u) && t != u
    ensures Diverge(StepsOf(fs, t), StepsOf(fs, u)) && SameEnds(StepsOf(fs, t), StepsOf(fs, u))
  {
    PartBelow(fs, t, u, 0);
    assert StepsOf(fs, t)[0..] == StepsOf(fs, t) && StepsOf(fs, u)[0..] == StepsOf(fs, u);
  }

  lemma EmptyIsBlank(fs: seq<Field>, u: Tag)
    requires 0 <= u.field < |fs|
    ensures Blank(Object(map[]), StepsOf(fs, u))
  {
  }

  /** After any writes to addresses, an address holds the value last written to it, or nothing but padding. */
  lemma {:induction false} WrittenAt(fs: seq<Field>, es: seq<Entry>, u: Tag)
    requires Preorder(fs) && NamesDistinct(fs) && Addresses(fs, es) && Address(fs, u)
    ensures var d := Written(Object(map[]), fs, es);
      if exists e :: e in es && e.t == u then Holds(d, StepsOf(fs, u), LastValue(es, u))
      else Blank(d, StepsOf(fs, u))
    decreases |es|
  {
    hide NamesDistinct, Address, Holds, Blank, Write, StepsOf;
    AllFields(fs, es);
    AddressFacts(fs, u);
    if es == [] {
      EmptyIsBlank(fs, u);
    } else {
      var d, e := Written(Object(map[]), fs, es[..|es|-1]), es[|es|-1];
      AddressFacts(fs, e.t);
      WrittenAt(fs, es[..|es|-1], u);
      if e.t == u {
        WriteHolds(d, StepsOf(fs, u), e.value);
      } else {
        Part(fs, e.t, u);
        LastValueSkips(es, u);
        if exists x :: x in es && x.t == u {
          var x :| x in es && x.t == u;
          assert x in es[..|es|-1];
          WriteKeeps(d, StepsOf(fs, e.t), e.value, StepsOf(fs, u), LastValue(es[..|es|-1], u));
        } else {
          WriteLeavesBlank(d, StepsOf(fs, e.t), e.value, StepsOf(fs, u));
        }
      }
    }
  }

  ghost function LastValue(es: seq<Entry>, u: Tag): Doc
    requires exists e :: e in es && e.t == u
    decreases |es|
  {
    if es[|es|-1].t == u then es[|es|-1].value
    else
      assert forall e | e in es && e.t == u :: e in es[..|es|-1];
      LastValue(es[..|es|-1], u)
  }

  lemma LastValueSkips(es: seq<Entry>, u: Tag)
    requires es != [] && es[|es|-1].t != u
    ensures (exists e :: e in es && e.t == u) <==> exists e :: e in es[..|es|-1] && e.t == u
    ensures (exists e :: e in es && e.t == u) ==> LastValue(es, u) == LastValue(es[..|es|-1], u)
  {
    assert forall e | e in es && e.t == u :: e in es[..|es|-1];
  }

  /** Reading the frame back with the reader of the content: each address yields the value written to it,
      and an address that was never written yields nothing, or the padding of a list. */
  lemma FrameReadsBack(fs: seq<Field>, es: seq<Entry>, u: Tag)
    requires Preorder(fs) && NamesDistinct(fs) && Addresses(fs, es) && Address(fs, u)
    ensures var got := Read(Written(Object(map[]), fs, es), fs, u);
      if exists e :: e in es && e.t == u then got == Some(LastValue(es, u))
      else got in {None, Some(Null)}
  {
    hide Holds, Blank, StepsOf;
    WrittenAt(fs, es, u);
    AddressFacts(fs, u);
    var d := Written(Object(map[]), fs, es);
    StepsWhole(fs, u);
    if exists e :: e in es && e.t == u {
      HoldsRead(d, fs, u, 0, LastValue(es, u));
    } else {
      BlankRead(d, fs, u, 0);
    }
  }

  lemma StepsWhole(fs: seq<Field>, t: Tag)
    requires 0 <= t.field < |fs|
    ensures StepsOf(fs, t)[0..] == StepsOf(fs, t)
  {
  }

  /** Whatever the frame was before, the reader finds what was just written. */
  lemma WriteThenRead(fs: seq<Field>, d: Doc, t: Tag, v: Doc)
    requires 0 <= t.field < |fs| && forall k | 0 <= k < |t.indices| :: t.indices[k] >= 0
    ensures Read(Write(d, StepsOf(fs, t), v), fs, t) == Some(v)
  {
    hide Holds, Write, StepsOf;
    WriteHolds(d, StepsOf(fs, t), v);
    StepsWhole(fs, t);
    HoldsRead(Write(d, StepsOf(fs, t), v), fs, t, 0, v);
  }

  /** Swapping two writes to different addresses makes no difference to the frame. */
  lemma WriteOrderIrrelevant(fs: seq<Field>, d: Doc, a: Entry, b: Entry)
    requires Preorder(fs) && NamesDistinct(fs) && Address(fs, a.t) && Address(fs, b.t) && a.t != b.t
    ensures Written(d, fs, [a, b]) == Written(d, fs, [b, a])
  {
    hide Write, StepsOf, NamesDistinct, Preorder;
    Part(fs, a.t, b.t);
    WritesCommute(d, StepsOf(fs, a.t), a.value, StepsOf(fs, b.t), b.value);
    WrittenTwo(fs, d, a, b);
    WrittenTwo(fs, d, b, a);
  }

  lemma WrittenTwo(fs: seq<Field>, d: Doc, a: Entry, b: Entry)
    requires 0 <= a.t.field < |fs| && 0 <= b.t.field < |fs|
    ensures Written(d, fs, [a, b]) == Write(Write(d, StepsOf(fs, a.t), a.value), StepsOf(fs, b.t), b.value)
  {
    assert [a, b][..1] == [a] && [a][..0] == [];
    assert Written(d, fs, [a]) == Write(d, StepsOf(fs, a.t), a.value);
  }

  /** One node of the chosen path: the field it belongs to, if any, and the text it was given. */
  datatype PathNode = PathNode(field: Option<int>, indices: seq<int>, text: string)

  function TrimEnd(s: string): string {
    if |s| > 0 && LineEnd(s[|s|-1]) then TrimEnd(s[..|s|-1]) else s
  }

  predicate LineEnd(c: char) {
    c == '\n' || c == '\r'
  }

  /** What is cut off are line ends only, and none is left at the end. */
  method TrimNewlines(s: string) returns (raw: string)
    ensures raw <= s && (forall i :: |raw| <= i < |s| ==> LineEnd(s[i]))
    ensures raw != [] ==> !LineEnd(raw[|raw|-1])
    ensures raw == TrimEnd(s)
  {
    raw := s;
    while raw != [] && LineEnd(raw[|raw|-1])
      invariant raw <= s && (forall i :: |raw| <= i < |s| ==> LineEnd(s[i]))
      invariant TrimEnd(raw) == TrimEnd(s)
      decreases |raw|
    {
      raw := raw[..|raw|-1];
    }
  }

  /** The writes a path asks for; resolve turns the text of a field into its value. */
  function EntriesOf(path: seq<PathNode>, resolve: (int, string) -> Doc): seq<Entry> {
    if path == [] then []
    else
      var n := path[|path|-1];
      EntriesOf(path[..|path|-1], resolve) +
        (if n.field.Some? then [Entry(Tag(n.field.value, n.indices), resolve(n.field.value, TrimEnd(n.text)))] else [])
  }

  /** The second half of walk_ftt_to_frame: fill the frame from the nodes of the chosen path. */
  method FrameOf(path: seq<PathNode>, fs: seq<Field>, resolve: (int, string) -> Doc) returns (frame: Doc)
    requires Preorder(fs) && Addresses(fs, EntriesOf(path, resolve))
    ensures forall e | e in EntriesOf(path, resolve) :: 0 <= e.t.field < |fs|
    ensures frame == Written(Object(map[]), fs, EntriesOf(path, resolve))
  {
    hide Address, Write, StepsOf, TrimEnd;
    AllFields(fs, EntriesOf(path, resolve));
    frame := Object(map[]);
    assert path[..|path|] == path;
    for i := 0 to |path|
      invariant EntriesOf(path[..i], resolve) <= EntriesOf(path, resolve)
      invariant frame == Written(Object(map[]), fs, EntriesOf(path[..i], resolve))
    {
      EntriesGrow(path, resolve, i);
      var node := path[i];
      if node.field.Some? {
        var raw := TrimNewlines(node.text);
        var value := resolve(node.field.value, raw);
        var t := Tag(node.field.value, node.indices);
        assert Entry(t, value) in EntriesOf(path[..i+1], resolve);
        assert Address(fs, t);
        AddressFacts(fs, t);
        WrittenAppend(fs, EntriesOf(path[..i], resolve), Entry(t, value));
        TagFacts(fs, t);
        frame := SetFieldValue(frame, fs, t, value);
      } else {
        assert EntriesOf(path[..i+1], resolve) == EntriesOf(path[..i], resolve);
      }
    }
  }

  lemma TagFacts(fs: seq<Field>, t: Tag)
    requires Preorder(fs) && Address(fs, t)
    ensures TagOf(fs, t)
  {
  }

  lemma AllFields(fs: seq<Field>, es: seq<Entry>)
    requires Preorder(fs) && Addresses(fs, es)
    ensures forall e | e in es :: 0 <= e.t.field < |fs|
  {
  }

  lemma WrittenAppend(fs: seq<Field>, es: seq<Entry>, e: Entry)
    requires forall x | x in es + [e] :: 0 <= x.t.field < |fs|
    ensures Written(Object(map[]), fs, es + [e]) == Write(Written(Object(map[]), fs, es), StepsOf(fs, e.t), e.value)
  {
    hide Write, StepsOf;
    assert (es + [e])[..|es + [e]| - 1] == es;
  }

  lemma EntriesGrow(path: seq<PathNode>, resolve: (int, string) -> Doc, i: nat)
    requires i < |path|
    ensures EntriesOf(path[..i+1], resolve) == EntriesOf(path[..i], resolve) +
      (if path[i].field.Some?
       then [Entry(Tag(path[i].field.value, path[i].indices), resolve(path[i].field.value, TrimEnd(path[i].text)))]
       else [])
    ensures EntriesOf(path[..i+1], resolve) <= EntriesOf(path, resolve)
  {
    hide TrimEnd;
    assert path[..i+1][..i] == path[..i];
    EntriesPrefix(path, resolve, i + 1);
  }

  lemma {:induction false} EntriesPrefix(path: seq<PathNode>, resolve: (int, string) -> Doc, i: nat)
    requires i <= |path|
    ensures EntriesOf(path[..i], resolve) <= EntriesOf(path, resolve)
    decreases |path|
  {
    hide TrimEnd;
    if i < |path| {
      EntriesPrefix(path[..|path|-1], resolve, i);
      assert path[..|path|-1][..i] == path[..i];
    } else {
      assert path[..i] == path;
    }
  }
}
