/** The alternatives of a choice whose values the content holds: everything a path of names leads to. */
module Ravelling {
  import opened Schema
  import opened Documents

  // ---- Where a path leads ------------------------------------------------------------------------------------

  /** Name leads from d to e: to the member of that name, or the elements if it is an array; from an array without such
      a member, to the members of its elements. */
  ghost predicate NameLeads(d: Doc, name: string, e: Doc) {
    var child := ObjGet(d, name);
    if child.Some? then (if child.value.Array? then e in child.value.items else e == child.value)
    else d.Array? && exists item :: item in d.items && ObjGet(item, name) == Some(e)
  }

  ghost predicate PathLeads(d: Doc, path: seq<string>, e: Doc)
    decreases |path|
  {
    if path == [] then d == e else exists f :: NameLeads(d, path[0], f) && PathLeads(f, path[1..], e)
  }

  /** Neither an array nor an object. */
  predicate IsScalar(d: Doc) {
    d.Scalar? || d.Null?
  }

  // ---- The documents, in order -------------------------------------------------------------------------------

  function Members(items: seq<Doc>, name: string): seq<Doc> {
    if items == [] then []
    else
      var child := ObjGet(items[|items|-1], name);
      Members(items[..|items|-1], name) + (if child.Some? then [child.value] else [])
  }

  function Into(d: Doc, name: string): seq<Doc> {
    var child := ObjGet(d, name);
    if child.Some? then (if child.value.Array? then child.value.items else [child.value])
    else if d.Array? then Members(d.items, name)
    else []
  }

  function IntoAll(ds: seq<Doc>, name: string): seq<Doc> {
    if ds == [] then [] else IntoAll(ds[..|ds|-1], name) + Into(ds[|ds|-1], name)
  }

  function Ravel(ds: seq<Doc>, path: seq<string>): seq<Doc>
    decreases |path|
  {
    if path == [] then ds else Ravel(IntoAll(ds, path[0]), path[1..])
  }

  function TextOf(d: Doc): string {
    if d.Scalar? then d.text else ""
  }

  function Texts(ds: seq<Doc>): (r: seq<string>)
    ensures |r| == |ds| && forall i :: 0 <= i < |r| ==> r[i] == TextOf(ds[i])
  {
    seq(|ds|, i requires 0 <= i < |ds| => TextOf(ds[i]))
  }

  function Numbers(n: nat, indexText: nat -> string): (r: seq<string>)
    ensures |r| == n && forall i :: 0 <= i < n ==> r[i] == indexText(i)
  {
    seq(n, i requires 0 <= i < n => indexText(i))
  }

  /** The alternatives: the numbers of the documents if one is to be selected, else their texts. */
  function Alternatives(content: Doc, mode: string, path: seq<string>, indexText: nat -> string): Option<seq<string>> {
    var ds := Ravel([content], path);
    if mode == "select" then Some(Numbers(|ds|, indexText))
    else if forall i :: 0 <= i < |ds| ==> IsScalar(ds[i]) then Some(Texts(ds))
    else None
  }

  lemma {:induction false} MembersAre(items: seq<Doc>, name: string, e: Doc)
    ensures e in Members(items, name) <==> exists item :: item in items && ObjGet(item, name) == Some(e)
  {
    if items != [] {
      var front, last := items[..|items|-1], items[|items|-1];
      MembersAre(front, name, e);
      assert items == front + [last];
      if ObjGet(last, name) == Some(e) { assert last in items; }
    }
  }

  lemma IntoIs(d: Doc, name: string, e: Doc)
    ensures e in Into(d, name) <==> NameLeads(d, name, e)
  {
    if d.Array? { MembersAre(d.items, name, e); }
  }

  lemma {:induction false} IntoAllIs(ds: seq<Doc>, name: string, e: Doc)
    ensures e in IntoAll(ds, name) <==> exists d :: d in ds && NameLeads(d, name, e)
  {
    hide NameLeads, Into;
    if ds != [] {
      var front, last := ds[..|ds|-1], ds[|ds|-1];
      IntoAllIs(front, name, e);
      IntoIs(last, name, e);
      assert ds == front + [last];
    }
  }

  /** The documents found are exactly those the path leads to. */
  lemma {:induction false} RavelIs(ds: seq<Doc>, path: seq<string>, e: Doc)
    ensures e in Ravel(ds, path) <==> exists d :: d in ds && PathLeads(d, path, e)
    decreases |path|
  {
    hide NameLeads, IntoAll;
    if path == [] {
      if e in ds { assert PathLeads(e, path, e); }
    } else {
      var next := IntoAll(ds, path[0]);
      RavelIs(next, path[1..], e);
      if f :| f in next && PathLeads(f, path[1..], e) {
        IntoAllIs(ds, path[0], f);
        var d :| d in ds && NameLeads(d, path[0], f);
        assert PathLeads(d, path, e);
      }
      if d :| d in ds && PathLeads(d, path, e) {
        var f :| NameLeads(d, path[0], f) && PathLeads(f, path[1..], e);
        IntoAllIs(ds, path[0], f);
      }
    }
  }

  /** There are no alternatives exactly if texts are asked for and the path leads to an array or an object. */
  lemma NoAlternatives(content: Doc, mode: string, path: seq<string>, indexText: nat -> string)
    ensures Alternatives(content, mode, path, indexText).None? <==>
      mode != "select" && exists e :: PathLeads(content, path, e) && !IsScalar(e)
  {
    hide Ravel, PathLeads, IsScalar;
    var ds := Ravel([content], path);
    if i :| 0 <= i < |ds| && !IsScalar(ds[i]) {
      RavelIs([content], path, ds[i]);
    }
    if e :| PathLeads(content, path, e) && !IsScalar(e) {
      RavelIs([content], path, e);
      assert content in [content];
      var i :| 0 <= i < |ds| && ds[i] == e;
    }
  }

  // ---- How many, and in which order ---------------------------------------------------------------------------

  lemma {:induction false} MembersAppend(xs: seq<Doc>, ys: seq<Doc>, name: string)
    ensures Members(xs + ys, name) == Members(xs, name) + Members(ys, name)
  {
    if ys == [] {
      assert xs + ys == xs;
    } else {
      assert (xs + ys)[..|xs + ys|-1] == xs + ys[..|ys|-1];
      MembersAppend(xs, ys[..|ys|-1], name);
    }
  }

  lemma {:induction false} IntoAllAppend(a: seq<Doc>, b: seq<Doc>, name: string)
    ensures IntoAll(a + b, name) == IntoAll(a, name) + IntoAll(b, name)
  {
    hide Into;
    if b == [] {
      assert a + b == a;
    } else {
      assert (a + b)[..|a + b|-1] == a + b[..|b|-1];
      IntoAllAppend(a, b[..|b|-1], name);
    }
  }

  /** What several documents give comes in their order, nothing shared and nothing dropped. */
  lemma {:induction false} RavelAppend(a: seq<Doc>, b: seq<Doc>, path: seq<string>)
    ensures Ravel(a + b, path) == Ravel(a, path) + Ravel(b, path)
    decreases |path|
  {
    hide IntoAll;
    if path != [] {
      IntoAllAppend(a, b, path[0]);
      RavelAppend(IntoAll(a, path[0]), IntoAll(b, path[0]), path[1..]);
    }
  }

  /** A longer path goes on from what its front leads to. */
  lemma {:induction false} RavelOn(ds: seq<Doc>, p: seq<string>, q: seq<string>)
    ensures Ravel(ds, p + q) == Ravel(Ravel(ds, p), q)
    decreases |p|
  {
    hide IntoAll;
    if p == [] {
      assert p + q == q;
    } else {
      assert (p + q)[1..] == p[1..] + q;
      RavelOn(IntoAll(ds, p[0]), p[1..], q);
    }
  }

  /** One name, from one document: the elements of an array that is a member, in order; any other member once; through an
      array the members of its elements, one for each that has any, in order; else nothing. With the two lemmas
      before this settles what every path gives. */
  lemma RavelName(d: Doc, name: string, xs: seq<Doc>, ys: seq<Doc>)
    ensures Ravel([d], []) == [d]
    ensures var child := ObjGet(d, name);
      && (child.Some? && child.value.Array? ==> Ravel([d], [name]) == child.value.items)
      && (child.Some? && !child.value.Array? ==> Ravel([d], [name]) == [child.value])
      && (child.None? && !d.Array? ==> Ravel([d], [name]) == [])
      && Ravel([Array([d])], [name]) == (if child.Some? then [child.value] else [])
    ensures Ravel([Array(xs + ys)], [name]) == Ravel([Array(xs)], [name]) + Ravel([Array(ys)], [name])
    ensures Ravel([Array([])], [name]) == []
  {
    OneName(d, name);
    OneName(Array([d]), name);
    assert [d][..0] == [];
    OneName(Array(xs + ys), name);
    OneName(Array(xs), name);
    OneName(Array(ys), name);
    OneName(Array([]), name);
    MembersAppend(xs, ys, name);
  }

  lemma OneName(d: Doc, name: string)
    ensures Ravel([d], [name]) == Into(d, name)
  {
    hide Into;
    assert [d][..0] == [] && [name][1..] == [];
    assert IntoAll([d], name) == IntoAll([], name) + Into(d, name);
  }

  /** There is one alternative for each document the path leads to, in that order: its number if one is to be selected,
      else its text, which null does not have. */
  lemma AlternativesAre(content: Doc, mode: string, path: seq<string>, indexText: nat -> string, i: nat)
    requires Alternatives(content, mode, path, indexText).Some? && i < |Ravel([content], path)|
    ensures var r, d := Alternatives(content, mode, path, indexText).value, Ravel([content], path)[i];
      && |r| == |Ravel([content], path)|
      && (mode == "select" ==> r[i] == indexText(i))
      && (mode != "select" ==> (d.Scalar? && r[i] == d.text) || (d.Null? && r[i] == ""))
  {
    hide Ravel;
  }

  // ---- ravel_choices -------------------------------------------------------------------------------------------

  lemma MembersMore(items: seq<Doc>, name: string, i: nat)
    requires i < |items|
    ensures Members(items[..i+1], name) == Members(items[..i], name) +
      (if ObjGet(items[i], name).Some? then [ObjGet(items[i], name).value] else [])
  {
    assert items[..i+1][..i] == items[..i];
  }

  lemma IntoAllMore(ds: seq<Doc>, name: string, i: nat)
    requires i < |ds|
    ensures IntoAll(ds[..i+1], name) == IntoAll(ds[..i], name) + Into(ds[i], name)
  {
    hide Into;
    assert ds[..i+1][..i] == ds[..i];
  }

  method FollowName(current: seq<Doc>, name: string) returns (next: seq<Doc>)
    ensures next == IntoAll(current, name)
  {
    hide IntoAll, Members;
    next := [];
    NoneInto(current, name);
    for i := 0 to |current|
      invariant next == IntoAll(current[..i], name)
    {
      var d := current[i];
      IntoAllMore(current, name, i);
      var child := ObjGet(d, name);
      if child.Some? {
        if child.value.Array? {
          next := next + child.value.items;
        } else {
          next := next + [child.value];
        }
      } else if d.Array? {
        ghost var before := next;
        NoneMembers(d.items, name);
        for j := 0 to |d.items|
          invariant next == before + Members(d.items[..j], name)
        {
          MembersMore(d.items, name, j);
          var member := ObjGet(d.items[j], name);
          if member.Some? { next := next + [member.value]; }
        }
        assert d.items[..|d.items|] == d.items;
      }
    }
    assert current[..|current|] == current;
  }

  lemma NoneInto(ds: seq<Doc>, name: string)
    ensures IntoAll(ds[..0], name) == []
  {
  }

  lemma NoneMembers(items: seq<Doc>, name: string)
    ensures Members(items[..0], name) == []
  {
  }

  lemma RavelStep(ds: seq<Doc>, path: seq<string>, i: nat)
    requires i < |path|
    ensures Ravel(ds, path[i..]) == Ravel(IntoAll(ds, path[i]), path[i+1..])
  {
    hide IntoAll;
    assert path[i..][0] == path[i] && path[i..][1..] == path[i+1..];
  }

  /** ravel_choices: follow the path, then number or render what it leads to; an array or object has no text. */
  method RavelChoices(content: Doc, mode: string, path: seq<string>, indexText: nat -> string) returns (r: Option<seq<string>>)
    ensures r == Alternatives(content, mode, path, indexText)
  {
    hide IntoAll;
    var current := [content];
    assert path[0..] == path;
    for i := 0 to |path|
      invariant Ravel([content], path) == Ravel(current, path[i..])
    {
      RavelStep(current, path, i);
      current := FollowName(current, path[i]);
    }
    hide Ravel;
    assert Ravel(current, path[|path|..]) == current by { RavelDone(current, path); }
    var choices := [];
    if mode == "select" {
      for i := 0 to |current|
        invariant choices == Numbers(i, indexText)
      {
        choices := choices + [indexText(i)];
      }
    } else {
      for i := 0 to |current|
        invariant choices == Texts(current[..i])
        invariant forall k :: 0 <= k < i ==> IsScalar(current[k])
      {
        if !IsScalar(current[i]) { return None; }
        assert current[..i+1] == current[..i] + [current[i]];
        choices := choices + [TextOf(current[i])];
      }
      assert current[..|current|] == current;
    }
    return Some(choices);
  }

  lemma RavelDone(ds: seq<Doc>, path: seq<string>)
    ensures Ravel(ds, path[|path|..]) == ds
  {
  }
}
