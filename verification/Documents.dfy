/** The nested documents the runtime reads its content from and writes its frame into. */
module Documents {
  import opened Schema
  import opened Traversal

  /** A scalar carries the text it is rendered as. */
  datatype Doc =
    | Null
    | Scalar(text: string)
    | Array(items: seq<Doc>)
    | Object(members: map<string, Doc>)

  function ObjGet(d: Doc, key: string): Option<Doc> {
    if d.Object? && key in d.members then Some(d.members[key]) else None
  }

  function IndexAt(indices: seq<int>, a: nat): int {
    if a < |indices| then indices[a] else 0
  }

  // ---- read_content --------------------------------------------------------------------

  /** One level of the descent: into the member of that name, then into the element of that index. */
  function ReadStep(d: Doc, f: Field, idx: int): Option<Doc> {
    var child := ObjGet(d, f.name);
    if child.None? && (d.Object? || d.Null?) then None
    else
      var e := if child.Some? then child.value else d;
      if !f.IsList() then Some(e)
      else if e.Array? && 0 <= idx < |e.items| then Some(e.items[idx])
      else None
  }

  /** What content holds for the state with these ancestors and indices, from level a on. */
  function ReadFrom(d: Doc, fs: seq<Field>, chain: seq<nat>, indices: seq<int>, a: nat): Option<Doc>
    requires a <= |chain| && forall k :: 0 <= k < |chain| ==> chain[k] < |fs|
    decreases |chain| - a
  {
    if a == |chain| then Some(d)
    else
      var e := ReadStep(d, fs[chain[a]], IndexAt(indices, a));
      if e.None? then None else ReadFrom(e.value, fs, chain, indices, a + 1)
  }

  function Read(content: Doc, fs: seq<Field>, t: Tag): Option<Doc> {
    if 0 <= t.field < |fs| then ReadFrom(content, fs, Ancestors(fs, t.field), t.indices, 0) else None
  }

  method ReadContent(content: Doc, fs: seq<Field>, parent: seq<int>, t: Tag) returns (r: Option<Doc>)
    requires t.field < |fs| && ParentMap(fs, parent) && forall k :: 0 <= k < |t.indices| ==> t.indices[k] >= 0
    ensures r == Read(content, fs, t)
  {
    if t.field < 0 { return None; }
    var ancestors := BuildAncestors(fs, t.field, parent);
    var ptr := content;
    var a := 0;
    while a < |ancestors|
      invariant 0 <= a <= |ancestors|
      invariant Read(content, fs, t) == ReadFrom(ptr, fs, ancestors, t.indices, a)
    {
      var f := fs[ancestors[a]];
      var child := ObjGet(ptr, f.name);
      if child.Some? {
        ptr := child.value;
      } else if ptr.Object? || ptr.Null? {
        return None;
      }
      var idx := if a < |t.indices| then t.indices[a] else 0;
      if f.IsList() && ptr.Array? {
        if idx < |ptr.items| {
          ptr := ptr.items[idx];
        } else {
          return None;
        }
      } else if f.IsList() {
        return None;
      }
      a := a + 1;
    }
    return Some(ptr);
  }

  // ---- should_skip ---------------------------------------------------------------------

  /** The content has a list on the way that ends before the index of the state. */
  predicate SkipFrom(d: Doc, fs: seq<Field>, chain: seq<nat>, indices: seq<int>, a: nat)
    requires a <= |chain| && forall k :: 0 <= k < |chain| ==> chain[k] < |fs|
    decreases |chain| - a
  {
    a < |chain| &&
    var f := fs[chain[a]];
    var child := ObjGet(d, f.name);
    if child.None? && d.Object? then false
    else
      var e := if child.Some? then child.value else d;
      if f.IsList() && e.Array? then
        IndexAt(indices, a) >= |e.items| ||
        (IndexAt(indices, a) >= 0 && SkipFrom(e.items[IndexAt(indices, a)], fs, chain, indices, a + 1))
      else SkipFrom(e, fs, chain, indices, a + 1)
  }

  predicate Skip(content: Doc, fs: seq<Field>, t: Tag) {
    0 <= t.field < |fs| && SkipFrom(content, fs, Ancestors(fs, t.field), t.indices, 0)
  }

  method ShouldSkip(content: Doc, fs: seq<Field>, parent: seq<int>, t: Tag) returns (r: bool)
    requires t.field < |fs| && ParentMap(fs, parent) && forall k :: 0 <= k < |t.indices| ==> t.indices[k] >= 0
    ensures r == Skip(content, fs, t)
  {
    if t.field < 0 { return false; }
    var ancestors := BuildAncestors(fs, t.field, parent);
    var ptr := content;
    var a := 0;
    while a < |ancestors|
      invariant 0 <= a <= |ancestors|
      invariant Skip(content, fs, t) == SkipFrom(ptr, fs, ancestors, t.indices, a)
    {
      var f := fs[ancestors[a]];
      var child := ObjGet(ptr, f.name);
      if child.Some? {
        ptr := child.value;
      } else if ptr.Object? {
        return false;
      }
      var idx := if a < |t.indices| then t.indices[a] else 0;
      if f.IsList() && ptr.Array? {
        if idx >= |ptr.items| { return true; }
        ptr := ptr.items[idx];
      }
      a := a + 1;
    }
    return false;
  }
}
