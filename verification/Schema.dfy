/** The field table of a prompt, read as a preorder forest, and the two searches
    the runtime makes for the parent of a field. */
module Schema {

  datatype Option<+T> = None | Some(value: T)

  datatype Format =
    | Record
    | Completion(length: Option<int>, vocab: Option<string>)
    | Enum(values: seq<string>)
    | Choice(mode: string, path: seq<string>)

  datatype Field = Field(
    name: string,
    depth: int,
    index: int,
    flatIndex: int,
    desc: seq<string>,
    range: Option<(int, int)>,
    format: Format)
  {
    predicate IsList() { range.Some? }

    predicate IsRecord() { format.Record? }

    /** How often the flow edge can be taken: the upper bound of a list, once for a record, never for a leaf. */
    function Reps(): int {
      if IsList() then range.value.1 else if IsRecord() then 1 else 0
    }

    /** The count from which the exit edge is open. */
    function MinReps(): int {
      if IsList() then range.value.0 else if IsRecord() then 1 else 0
    }
  }

  /** Depths are those of a preorder walk over a forest whose roots have depth 1. */
  ghost predicate Preorder(fs: seq<Field>) {
    && (forall i :: 0 <= i < |fs| ==> fs[i].depth >= 1)
    && (|fs| > 0 ==> fs[0].depth == 1)
    && (forall i :: 0 < i < |fs| ==> NoJump(fs, i))
  }

  /** Field i is at most one level below its predecessor. */
  ghost predicate NoJump(fs: seq<Field>, i: nat)
    requires 0 < i < |fs|
  {
    fs[i].depth <= fs[i-1].depth + 1
  }

  predicate HasChild(fs: seq<Field>, i: nat)
    requires i < |fs|
  {
    i + 1 < |fs| && fs[i+1].depth > fs[i].depth
  }

  function SkipDeeper(fs: seq<Field>, j: nat, d: int): (r: nat)
    requires j <= |fs|
    ensures j <= r <= |fs|
    ensures r < |fs| ==> fs[r].depth <= d
    decreases |fs| - j
  {
    if j < |fs| && fs[j].depth > d then SkipDeeper(fs, j + 1, d) else j
  }

  /** One past the last field of the subtree rooted at i. */
  function End(fs: seq<Field>, i: nat): (r: nat)
    requires i < |fs|
    ensures i < r <= |fs|
    ensures r < |fs| ==> fs[r].depth <= fs[i].depth
  {
    SkipDeeper(fs, i + 1, fs[i].depth)
  }

  lemma {:induction false} SkipSpans(fs: seq<Field>, j: nat, d: int)
    requires j <= |fs|
    ensures forall m :: j <= m < SkipDeeper(fs, j, d) ==> fs[m].depth > d
    decreases |fs| - j
  {
    if j < |fs| && fs[j].depth > d { SkipSpans(fs, j + 1, d); }
  }

  /** Everything between a field and the end of its subtree is deeper. */
  lemma EndSpans(fs: seq<Field>, i: nat)
    requires i < |fs|
    ensures forall m :: i < m < End(fs, i) ==> fs[m].depth > fs[i].depth
  {
    SkipSpans(fs, i + 1, fs[i].depth);
  }

  predicate HasSibling(fs: seq<Field>, i: nat)
    requires i < |fs|
  {
    End(fs, i) < |fs| && fs[End(fs, i)].depth == fs[i].depth
  }

  function Up(fs: seq<Field>, j: int, d: int): (r: int)
    requires -1 <= j < |fs|
    ensures -1 <= r <= j
    ensures r >= 0 ==> fs[r].depth < d
    decreases j + 1
  {
    if j < 0 || fs[j].depth < d then j else Up(fs, j - 1, d)
  }

  /** The enclosing field: the nearest earlier one that is shallower, or -1 at the top level. */
  function Parent(fs: seq<Field>, i: nat): (r: int)
    requires i < |fs|
    ensures -1 <= r < i
    ensures r >= 0 ==> fs[r].depth < fs[i].depth
  {
    Up(fs, i - 1, fs[i].depth)
  }

  /** Ranges are ordered, exactly the records have children (a list of records may do without),
      and the last top-level field is not a list. */
  ghost predicate FieldOk(fs: seq<Field>, i: nat)
    requires i < |fs|
  {
    && (fs[i].IsList() ==> 0 <= fs[i].range.value.0 <= fs[i].range.value.1)
    && (HasChild(fs, i) ==> fs[i].IsRecord())
    && (fs[i].IsRecord() && !fs[i].IsList() ==> HasChild(fs, i))
    && (fs[i].depth == 1 && !HasSibling(fs, i) ==> !fs[i].IsList())
  }

  /** What build_concrete_rec presupposes of a field table. */
  ghost predicate WellFormed(fs: seq<Field>) {
    Preorder(fs) && forall i :: 0 <= i < |fs| ==> FieldOk(fs, i)
  }

  lemma {:induction false} UpSpans(fs: seq<Field>, j: int, d: int)
    requires -1 <= j < |fs|
    ensures forall m :: Up(fs, j, d) < m <= j ==> fs[m].depth >= d
    decreases j + 1
  {
    if j >= 0 && fs[j].depth >= d { UpSpans(fs, j - 1, d); }
  }

  /** Nothing between a field and its parent is shallower than the field. */
  lemma ParentSpans(fs: seq<Field>, i: nat)
    requires i < |fs|
    ensures forall m :: Parent(fs, i) < m < i ==> fs[m].depth >= fs[i].depth
  {
    UpSpans(fs, i - 1, fs[i].depth);
  }

  lemma ParentUnique(fs: seq<Field>, i: nat, r: int)
    requires i < |fs| && -1 <= r < i
    requires r >= 0 ==> fs[r].depth < fs[i].depth
    requires forall m :: r < m < i ==> fs[m].depth >= fs[i].depth
    ensures Parent(fs, i) == r
  {
    ParentSpans(fs, i);
  }

  lemma ChildParent(fs: seq<Field>, i: nat)
    requires i < |fs| && HasChild(fs, i)
    ensures Parent(fs, i + 1) == i
  {
    ParentUnique(fs, i + 1, i);
  }

  lemma SiblingParent(fs: seq<Field>, i: nat)
    requires i < |fs| && HasSibling(fs, i)
    ensures Parent(fs, End(fs, i)) == Parent(fs, i)
  {
    EndSpans(fs, i);
    ParentSpans(fs, i);
    ParentUnique(fs, End(fs, i), Parent(fs, i));
  }

  /** On a preorder table the parent is exactly one level up. */
  lemma ParentDepth(fs: seq<Field>, i: nat)
    requires Preorder(fs) && i < |fs|
    ensures Parent(fs, i) == -1 <==> fs[i].depth == 1
    ensures Parent(fs, i) >= 0 ==> fs[Parent(fs, i)].depth == fs[i].depth - 1
  {
    var r := Parent(fs, i);
    ParentSpans(fs, i);
    if r >= 0 {
      assert NoJump(fs, r + 1);
    } else {
      assert fs[0].depth >= fs[i].depth;
    }
  }

  /** build_parent_map: scan backwards for the first field exactly one level up. */
  method BuildParentMap(fs: seq<Field>) returns (parent: seq<int>)
    requires Preorder(fs)
    ensures ParentMap(fs, parent)
  {
    parent := seq(|fs|, _ => -1);
    for i := 0 to |fs|
      invariant |parent| == |fs|
      invariant forall k :: 0 <= k < i ==> parent[k] == Parent(fs, k)
      invariant forall k :: i <= k < |fs| ==> parent[k] == -1
    {
      ParentDepth(fs, i);
      ParentSpans(fs, i);
      if fs[i].depth > 1 {
        var j := i - 1;
        while j >= 0 && fs[j].depth != fs[i].depth - 1
          invariant Parent(fs, i) <= j < i
        {
          j := j - 1;
        }
        assert j == Parent(fs, i);
        parent := parent[i := j];
      }
    }
  }

  /** build_ancestors, as a function of the field: the chain from the top-level field down to i. */
  function Ancestors(fs: seq<Field>, i: nat): (r: seq<nat>)
    requires i < |fs|
    ensures |r| > 0 && r[|r|-1] == i
    ensures forall k :: 0 <= k < |r| ==> r[k] <= i
    decreases i
  {
    var p := Parent(fs, i);
    if p < 0 then [i] else Ancestors(fs, p) + [i]
  }

  /** The backward scan for the parent: the nearest earlier field that is shallower. */
  method ScanParent(fs: seq<Field>, i: nat) returns (r: int)
    requires i < |fs|
    ensures r == Parent(fs, i)
  {
    ParentSpans(fs, i);
    r := i - 1;
    while r >= 0 && fs[r].depth >= fs[i].depth
      invariant Parent(fs, i) <= r < i
    {
      r := r - 1;
    }
  }

  ghost predicate ParentMap(fs: seq<Field>, parent: seq<int>) {
    |parent| == |fs| && forall i :: 0 <= i < |fs| ==> parent[i] == Parent(fs, i)
  }

  function Reverse<T>(s: seq<T>): (r: seq<T>)
    ensures |r| == |s|
  {
    if s == [] then [] else Reverse(s[1..]) + [s[0]]
  }

  /** The chain of ancestors of cur, empty above the top level. */
  function Above(fs: seq<Field>, cur: int): seq<nat>
    requires cur < |fs|
  {
    if cur < 0 then [] else Ancestors(fs, cur)
  }

  lemma AboveStep(fs: seq<Field>, cur: nat, rest: seq<nat>)
    requires cur < |fs|
    ensures Above(fs, cur) + rest == Above(fs, Parent(fs, cur)) + ([cur] + rest)
  {
    hide Parent;
    var above := Above(fs, Parent(fs, cur));
    assert Ancestors(fs, cur) == above + [cur];
    assert (above + [cur]) + rest == above + ([cur] + rest);
  }

  /** build_ancestors: follow the parent map upwards, then turn the chain round. */
  method BuildAncestors(fs: seq<Field>, i: nat, parent: seq<int>) returns (chain: seq<nat>)
    requires i < |fs| && ParentMap(fs, parent)
    ensures chain == Ancestors(fs, i)
  {
    hide Ancestors, Parent;
    chain := [];
    var cur: int := i;
    while cur >= 0
      invariant -1 <= cur < |fs|
      invariant Above(fs, i) == Above(fs, cur) + Reverse(chain)
      decreases cur + 1
    {
      var c: nat := cur;
      AboveStep(fs, c, Reverse(chain));
      ReverseAppend(chain, c);
      chain := chain + [c];
      cur := parent[cur];
    }
    chain := Reverse(chain);
  }

  lemma {:induction false} ReverseAppend<T>(s: seq<T>, x: T)
    ensures Reverse(s + [x]) == [x] + Reverse(s)
  {
    if s == [] {
      assert [] + [x] == [x];
    } else {
      ReverseAppend(s[1..], x);
      assert (s + [x])[1..] == s[1..] + [x];
    }
  }

  /** The chain of ancestors has one field per level. */
  lemma {:induction false} AncestorDepths(fs: seq<Field>, i: nat)
    requires Preorder(fs) && i < |fs|
    ensures |Ancestors(fs, i)| == fs[i].depth
    ensures forall k | 0 <= k < |Ancestors(fs, i)| :: fs[Ancestors(fs, i)[k]].depth == k + 1
    decreases i
  {
    ParentDepth(fs, i);
    if Parent(fs, i) >= 0 { AncestorDepths(fs, Parent(fs, i)); }
  }

  lemma {:induction false} AncestorParent(fs: seq<Field>, i: nat, k: nat)
    requires i < |fs| && k < |Ancestors(fs, i)|
    ensures Ancestors(fs, i)[k] < |fs|
    ensures Parent(fs, Ancestors(fs, i)[k]) == if k == 0 then -1 else Ancestors(fs, i)[k-1]
    decreases i
  {
    hide Parent;
    if Parent(fs, i) >= 0 && k < |Ancestors(fs, i)| - 1 {
      AncestorParent(fs, Parent(fs, i), k);
    }
  }

  lemma ParentHasChild(fs: seq<Field>, i: nat)
    requires i < |fs| && Parent(fs, i) >= 0
    ensures HasChild(fs, Parent(fs, i))
  {
    ParentSpans(fs, i);
  }
}
