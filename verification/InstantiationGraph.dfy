/** The instantiation graph of the compiler: following references from the entry points until every record and
    prompt that is needed, with the arguments it is needed with, has a node. */
module InstantiationGraph {
  import opened Schema
  import opened Traversal
  import opened Expressions

  datatype Key = Key(fileid: int, name: string)

  /** A declaration, and what else a name can stand for. An import and an alias name a symbol of another file
      and may fix some of its arguments. */
  datatype Symbol =
    | Declared(decl: nat)
    | Import(fileid: int, target: string, config: Option<nat>)
    | Alias(fileid: int, target: string, config: Option<nat>)
    | Python
    | Define

  type Args = map<string, Value>

  datatype Resolved = Resolved(name: string, fileid: int, decl: nat, kwargs: Args)

  datatype Ref = Ref(name: string, kwargs: Args)

  datatype Node = Node(mangled: string, name: string, fileid: int, decl: nat, context: Args, arguments: Args)

  datatype Edge = Edge(source: string, target: string)

  datatype Error =
    | CyclicReference(at: Key) | Unresolved(ref: string) | TooMany | NoEntry(entry: string)
    | MissingArgument(of: string, argument: string)

  /** An argument a declaration has, and whether it has a default. */
  datatype Argument = Argument(name: string, default: bool)

  /** The program, and what evaluating its expressions yields: the arguments a config fixes in a file, the context
      of a file, what the context of a declaration becomes from what it is given, the arguments a declaration has, the
      references of a body in a context, and the mangled name. */
  datatype World = World(
    symbols: map<Key, Symbol>,
    files: seq<int>,
    entryPoints: seq<string>,
    config: (int, nat) -> Args,
    context: (Key, Args) -> Args,
    fileContext: int -> Args,
    declares: nat -> seq<Argument>,
    refs: (nat, Args) -> seq<Ref>,
    mangle: (string, Args) -> string)

  const MAX_INSTANTIATIONS: nat := 10000

  // ---- Following imports and aliases ------------------------------------------------------------------------

  predicate Hop(w: World, k: Key) {
    k in w.symbols && (w.symbols[k].Import? || w.symbols[k].Alias?)
  }

  function Next(w: World, k: Key): Key
    requires Hop(w, k)
  {
    Key(w.symbols[k].fileid, w.symbols[k].target)
  }

  /** The arguments the import or alias at k fixes: an import is read in its own file, an alias in the one it names. */
  function Fixed(w: World, k: Key): Args
    requires Hop(w, k)
  {
    var sym := w.symbols[k];
    if sym.config.None? then map[] else w.config(if sym.Import? then k.fileid else sym.fileid, sym.config.value)
  }

  /** Where the chain from k ends, if it does so within n hops. */
  function Stop(w: World, k: Key, n: nat): Option<Key>
    decreases n
  {
    if !Hop(w, k) then Some(k) else if n == 0 then None else Stop(w, Next(w, k), n - 1)
  }

  /** What k resolves to within n hops. */
  function Chase(w: World, k: Key, n: nat): Option<Resolved>
    decreases n
  {
    if !Hop(w, k) then
      if k in w.symbols && w.symbols[k].Declared? then Some(Resolved(k.name, k.fileid, w.symbols[k].decl, map[])) else None
    else if n == 0 then None
    else
      var r := Chase(w, Next(w, k), n - 1);
      if r.None? then None else Some(r.value.(kwargs := r.value.kwargs + Fixed(w, k)))
  }

  ghost predicate Ends(w: World, k: Key) {
    exists n :: Stop(w, k, n).Some?
  }

  ghost predicate ResolvesTo(w: World, k: Key, r: Resolved) {
    exists n :: Chase(w, k, n) == Some(r)
  }

  ghost predicate Resolvable(w: World, k: Key) {
    exists r :: ResolvesTo(w, k, r)
  }

  ghost predicate IsPython(w: World, k: Key) {
    exists n, e :: Stop(w, k, n) == Some(e) && e in w.symbols && w.symbols[e].Python?
  }

  lemma {:induction false} ChaseMono(w: World, k: Key, n: nat, m: nat)
    requires n <= m && Chase(w, k, n).Some?
    ensures Chase(w, k, m) == Chase(w, k, n)
    decreases n
  {
    if Hop(w, k) { ChaseMono(w, Next(w, k), n - 1, m - 1); }
  }

  lemma {:induction false} StopMono(w: World, k: Key, n: nat, m: nat)
    requires n <= m && Stop(w, k, n).Some?
    ensures Stop(w, k, m) == Stop(w, k, n)
    decreases n
  {
    if Hop(w, k) { StopMono(w, Next(w, k), n - 1, m - 1); }
  }

  /** A symbol resolves exactly when its chain ends at a declaration. */
  lemma {:induction false} ChaseStops(w: World, k: Key, n: nat)
    ensures Chase(w, k, n).Some? <==>
      Stop(w, k, n).Some? && Stop(w, k, n).value in w.symbols && w.symbols[Stop(w, k, n).value].Declared?
    decreases n
  {
    if Hop(w, k) && n > 0 { ChaseStops(w, Next(w, k), n - 1); }
  }

  /** A chain has one stop: what resolves to a declaration is no Python symbol, and a chain that never ends is neither. So
      resolving a name and asking whether it is a Python symbol never both succeed. */
  lemma DeclaredOrPython(w: World, k: Key)
    ensures !(Resolvable(w, k) && IsPython(w, k))
    ensures Resolvable(w, k) || IsPython(w, k) ==> Ends(w, k)
  {
    if r, n: nat :| Chase(w, k, n) == Some(r) {
      ChaseStops(w, k, n);
      if m: nat, e :| Stop(w, k, m) == Some(e) && e in w.symbols && w.symbols[e].Python? {
        StopMono(w, k, n, n + m);
        StopMono(w, k, m, n + m);
      }
    }
  }

  /** A symbol has one resolution. */
  lemma ResolvesOnce(w: World, k: Key, r: Resolved, s: Resolved)
    requires ResolvesTo(w, k, r) && ResolvesTo(w, k, s)
    ensures r == s
  {
    var n: nat :| Chase(w, k, n) == Some(r);
    var m: nat :| Chase(w, k, m) == Some(s);
    if n <= m { ChaseMono(w, k, n, m); } else { ChaseMono(w, k, m, n); }
  }

  // ---- Chains that loop -------------------------------------------------------------------------------------

  /** The symbols under resolution form a chain that leads to k. */
  ghost predicate Leads(w: World, st: seq<Key>, k: Key) {
    forall i :: 0 <= i < |st| ==> LeadAt(w, st, k, i)
  }

  ghost predicate LeadAt(w: World, st: seq<Key>, k: Key, i: nat)
    requires i < |st|
  {
    Hop(w, st[i]) && Next(w, st[i]) == if i + 1 < |st| then st[i+1] else k
  }

  lemma {:induction false} Along(w: World, st: seq<Key>, k: Key, i: nat, n: nat)
    requires Leads(w, st, k) && i < |st| && Stop(w, st[i], n).Some?
    ensures |st| - i <= n && Stop(w, k, n - (|st| - i)).Some?
    decreases |st| - i
  {
    assert LeadAt(w, st, k, i);
    if i + 1 < |st| {
      Along(w, st, k, i + 1, n - 1);
    }
  }

  /** A chain that comes back to itself never ends. */
  lemma {:induction false} LoopNeverEnds(w: World, st: seq<Key>, k: Key, n: nat)
    requires Leads(w, st, k) && k in st
    ensures Stop(w, k, n).None?
    decreases n
  {
    if Stop(w, k, n).Some? {
      var i :| 0 <= i < |st| && st[i] == k;
      Along(w, st, k, i, n);
      LoopNeverEnds(w, st, k, n - (|st| - i));
    }
  }

  lemma EndsOnward(w: World, k: Key)
    requires Hop(w, k)
    ensures Ends(w, k) <==> Ends(w, Next(w, k))
    ensures forall r :: ResolvesTo(w, Next(w, k), r) ==> ResolvesTo(w, k, r.(kwargs := r.kwargs + Fixed(w, k)))
    ensures Resolvable(w, k) ==> Resolvable(w, Next(w, k))
    ensures IsPython(w, k) <==> IsPython(w, Next(w, k))
  {
    hide Fixed;
    if Ends(w, Next(w, k)) {
      var n: nat :| Stop(w, Next(w, k), n).Some?;
      assert Stop(w, k, n + 1).Some?;
    }
    if Ends(w, k) {
      var n: nat :| Stop(w, k, n).Some?;
      assert Stop(w, Next(w, k), n - 1).Some?;
    }
    forall r | ResolvesTo(w, Next(w, k), r) ensures ResolvesTo(w, k, r.(kwargs := r.kwargs + Fixed(w, k))) {
      var n: nat :| Chase(w, Next(w, k), n) == Some(r);
      assert Chase(w, k, n + 1) == Some(r.(kwargs := r.kwargs + Fixed(w, k)));
    }
    if r :| ResolvesTo(w, k, r) {
      var n: nat :| Chase(w, k, n) == Some(r);
      var s := Chase(w, Next(w, k), n - 1).value;
      assert ResolvesTo(w, Next(w, k), s);
    }
    if n: nat, e :| Stop(w, k, n) == Some(e) && e in w.symbols && w.symbols[e].Python? {
      assert Stop(w, Next(w, k), n - 1) == Some(e);
    }
    if n: nat, e :| Stop(w, Next(w, k), n) == Some(e) && e in w.symbols && w.symbols[e].Python? {
      assert Stop(w, k, n + 1) == Some(e);
    }
  }

  lemma EndsHere(w: World, k: Key)
    requires !Hop(w, k)
    ensures Ends(w, k)
    ensures IsPython(w, k) <==> k in w.symbols && w.symbols[k].Python?
    ensures forall r :: ResolvesTo(w, k, r) <==>
      k in w.symbols && w.symbols[k].Declared? && r == Resolved(k.name, k.fileid, w.symbols[k].decl, map[])
  {
    assert Stop(w, k, 0) == Some(k);
    if k in w.symbols && w.symbols[k].Declared? {
      assert Chase(w, k, 0) == Some(Resolved(k.name, k.fileid, w.symbols[k].decl, map[]));
    }
  }

  lemma NeverEnding(w: World, st: seq<Key>, k: Key)
    requires Leads(w, st, k) && k in st
    ensures !Ends(w, k) && !Resolvable(w, k) && !IsPython(w, k)
  {
    forall n: nat ensures Stop(w, k, n).None? && Chase(w, k, n).None? {
      LoopNeverEnds(w, st, k, n);
      ChaseStops(w, k, n);
    }
  }

  // ---- The graph ----------------------------------------------------------------------------------------------

  /** What a declaration is given: the context of its file, over it what was fixed on the way to it, and over that what
      the caller gives. */
  function Given(w: World, r: Resolved, kwargs: Args): Args {
    w.fileContext(r.fileid) + r.kwargs + kwargs
  }

  /** The values a context has for the arguments. */
  function ArgumentsOf(args: seq<Argument>, ctx: Args): Args {
    if args == [] then map[]
    else
      var rest, name := ArgumentsOf(args[..|args|-1], ctx), args[|args|-1].name;
      if name in ctx then rest[name := ctx[name]] else rest
  }

  ghost predicate Names(args: seq<Argument>, x: string) {
    exists a :: a in args && a.name == x
  }

  lemma {:induction false} ArgumentsAre(args: seq<Argument>, ctx: Args, x: string)
    ensures x in ArgumentsOf(args, ctx) <==> x in ctx && Names(args, x)
    ensures x in ArgumentsOf(args, ctx) ==> ArgumentsOf(args, ctx)[x] == ctx[x]
  {
    if args != [] {
      var front, last := args[..|args|-1], args[|args|-1];
      ArgumentsAre(front, ctx, x);
      assert args == front + [last];
      if last.name == x { assert last in args; }
    }
  }

  /** Two uses of a declaration are one node if the contexts they make agree on its arguments, whatever else differs; its
      name is mangled from that of the declaration and the arguments it keeps. */
  lemma SharedNode(w: World, r: Resolved, kwargs: Args, s: Resolved, others: Args)
    requires r.name == s.name && r.decl == s.decl
    requires forall a | a in w.declares(r.decl) ::
      var c, d := NodeOf(w, r, kwargs).context, NodeOf(w, s, others).context;
      if a.name in c then a.name in d && d[a.name] == c[a.name] else a.name !in d
    ensures NodeOf(w, r, kwargs).mangled == NodeOf(w, s, others).mangled
    ensures var n := NodeOf(w, r, kwargs);
      n.mangled == w.mangle(r.name, n.arguments) && n.name == r.name && n.fileid == r.fileid && n.decl == r.decl
  {
    hide Given;
    var n, o := NodeOf(w, r, kwargs), NodeOf(w, s, others);
    forall x ensures x in n.arguments <==> x in o.arguments
             ensures x in n.arguments ==> n.arguments[x] == o.arguments[x] {
      ArgumentsAre(w.declares(r.decl), n.context, x);
      ArgumentsAre(w.declares(r.decl), o.context, x);
    }
    assert n.arguments == o.arguments;
  }

  // ---- What is fixed on the way ---------------------------------------------------------------------------------

  /** The chain from its first symbol to a declaration. */
  ghost predicate Chain(w: World, ks: seq<Key>) {
    && ks != [] && ks[|ks|-1] in w.symbols && w.symbols[ks[|ks|-1]].Declared?
    && forall i :: 0 <= i < |ks| - 1 ==> HopsTo(w, ks[i], ks[i+1])
  }

  ghost predicate HopsTo(w: World, k: Key, l: Key) {
    Hop(w, k) && Next(w, k) == l
  }

  /** Hop i of the chain fixes x at v: a config is evaluated in the file of an import, or in the file an alias leads to. */
  ghost predicate Fixes(w: World, ks: seq<Key>, i: nat, x: string, v: Value) {
    i + 1 < |ks| && Hop(w, ks[i]) && w.symbols[ks[i]].config.Some? &&
    var args := w.config(ks[if w.symbols[ks[i]].Import? then i else i + 1].fileid, w.symbols[ks[i]].config.value);
    x in args && args[x] == v
  }

  /** No hop before the n-th fixes x. */
  ghost predicate FreeUpTo(w: World, ks: seq<Key>, x: string, n: nat) {
    forall i: nat, v :: i < n ==> !Fixes(w, ks, i, x, v)
  }

  ghost predicate FirstFixes(w: World, ks: seq<Key>, x: string, v: Value) {
    exists i: nat :: Fixes(w, ks, i, x, v) && FreeUpTo(w, ks, x, i)
  }

  lemma FixesFirst(w: World, ks: seq<Key>, x: string, v: Value)
    requires Chain(w, ks) && |ks| > 1
    ensures Hop(w, ks[0])
    ensures Fixes(w, ks, 0, x, v) <==> x in Fixed(w, ks[0]) && Fixed(w, ks[0])[x] == v
  {
    assert HopsTo(w, ks[0], ks[1]);
  }

  lemma FixesLater(w: World, ks: seq<Key>, i: nat, x: string, v: Value)
    requires |ks| > 1
    ensures Fixes(w, ks, i + 1, x, v) <==> Fixes(w, ks[1..], i, x, v)
  {
  }

  lemma ChainTail(w: World, ks: seq<Key>)
    requires Chain(w, ks) && |ks| > 1
    ensures Chain(w, ks[1..]) && HopsTo(w, ks[0], ks[1])
  {
    forall i | 0 <= i < |ks[1..]| - 1 ensures HopsTo(w, ks[1..][i], ks[1..][i+1]) {
      assert HopsTo(w, ks[i+1], ks[i+2]);
    }
  }

  /** What a symbol resolves to is the end of its chain, and every argument fixed on the way has the value of the first
      hop, counted from the name used, that fixes it. */
  lemma {:induction false} ChainFixes(w: World, ks: seq<Key>, n: nat, x: string, v: Value)
    requires Chain(w, ks) && |ks| <= n + 1
    ensures var r := Chase(w, ks[0], n); var e := ks[|ks|-1];
      && r.Some? && r.value == Resolved(e.name, e.fileid, w.symbols[e].decl, r.value.kwargs)
      && ((x in r.value.kwargs && r.value.kwargs[x] == v) <==> FirstFixes(w, ks, x, v))
    decreases |ks|
  {
    hide Fixes, Fixed;
    if |ks| == 1 {
      forall i: nat ensures !Fixes(w, ks, i, x, v) { NothingFixed(w, ks, i, x, v); }
    } else {
      ChainTail(w, ks);
      ChainFixes(w, ks[1..], n - 1, x, v);
      FirstFixesStep(w, ks, x, v);
    }
  }

  lemma NothingFixed(w: World, ks: seq<Key>, i: nat, x: string, v: Value)
    requires |ks| == 1
    ensures !Fixes(w, ks, i, x, v)
  {
  }

  lemma FirstFixesStep(w: World, ks: seq<Key>, x: string, v: Value)
    requires Chain(w, ks) && |ks| > 1 && Hop(w, ks[0])
    ensures FirstFixes(w, ks, x, v) <==>
      if x in Fixed(w, ks[0]) then Fixed(w, ks[0])[x] == v else FirstFixes(w, ks[1..], x, v)
  {
    hide Fixes, Fixed, Chain;
    FixesFirst(w, ks, x, v);
    if x in Fixed(w, ks[0]) {
      FixesFirst(w, ks, x, Fixed(w, ks[0])[x]);
      if i: nat :| Fixes(w, ks, i, x, v) && FreeUpTo(w, ks, x, i) {
        assert i == 0;
      }
      if Fixed(w, ks[0])[x] == v { assert FreeUpTo(w, ks, x, 0); }
    } else {
      if i: nat :| Fixes(w, ks, i, x, v) && FreeUpTo(w, ks, x, i) {
        FixesLater(w, ks, i - 1, x, v);
        forall j: nat, u | j < i - 1 ensures !Fixes(w, ks[1..], j, x, u) { FixesLater(w, ks, j, x, u); }
        assert FreeUpTo(w, ks[1..], x, i - 1);
      }
      if i: nat :| Fixes(w, ks[1..], i, x, v) && FreeUpTo(w, ks[1..], x, i) {
        FixesLater(w, ks, i, x, v);
        forall j: nat, u | j < i + 1 ensures !Fixes(w, ks, j, x, u) {
          if j > 0 { FixesLater(w, ks, j - 1, x, u); } else { FixesFirst(w, ks, x, u); }
        }
        assert FreeUpTo(w, ks, x, i + 1);
      }
    }
  }

  /** A symbol that resolves has such a chain. */
  lemma {:induction false} ChainOf(w: World, k: Key, n: nat) returns (ks: seq<Key>)
    requires Chase(w, k, n).Some?
    ensures Chain(w, ks) && ks[0] == k && |ks| <= n + 1
    decreases n
  {
    hide Fixed;
    if !Hop(w, k) { return [k]; }
    var rest := ChainOf(w, Next(w, k), n - 1);
    ks := [k] + rest;
    forall i | 0 <= i < |ks| - 1 ensures HopsTo(w, ks[i], ks[i+1]) {
      if i > 0 { assert HopsTo(w, rest[i-1], rest[i]); }
    }
  }

  lemma GivenAt(w: World, r: Resolved, kwargs: Args, x: string, v: Value)
    ensures x in Given(w, r, kwargs) && Given(w, r, kwargs)[x] == v <==>
      if x in kwargs then kwargs[x] == v
      else if x in r.kwargs then r.kwargs[x] == v
      else x in w.fileContext(r.fileid) && w.fileContext(r.fileid)[x] == v
  {
  }

  /** Where a declaration gets the value of a name from: from the caller, else from the first hop that fixes it, else
      from the context of its file. */
  ghost predicate Gives(w: World, ks: seq<Key>, fileid: int, kwargs: Args, x: string, v: Value) {
    if x in kwargs then kwargs[x] == v
    else if exists u :: FirstFixes(w, ks, x, u) then FirstFixes(w, ks, x, v)
    else x in w.fileContext(fileid) && w.fileContext(fileid)[x] == v
  }

  /** Exactly those are the values a declaration is given. */
  lemma WhatIsGiven(w: World, k: Key, r: Resolved, kwargs: Args) returns (ks: seq<Key>)
    requires ResolvesTo(w, k, r)
    ensures Chain(w, ks) && ks[0] == k
    ensures forall x, v :: Gives(w, ks, r.fileid, kwargs, x, v) <==> x in Given(w, r, kwargs) && Given(w, r, kwargs)[x] == v
  {
    hide Fixed, Fixes, FirstFixes, Chain;
    var n: nat :| Chase(w, k, n) == Some(r);
    ks := ChainOf(w, k, n);
    forall x, v ensures FirstFixes(w, ks, x, v) <==> x in r.kwargs && r.kwargs[x] == v { ChainFixes(w, ks, n, x, v); }
    hide Chase, Given;
    forall x, v ensures Gives(w, ks, r.fileid, kwargs, x, v) <==> x in Given(w, r, kwargs) && Given(w, r, kwargs)[x] == v {
      GivenAt(w, r, kwargs, x, v);
      if x in r.kwargs { assert FirstFixes(w, ks, x, r.kwargs[x]); }
    }
  }

  // ---- The nodes --------------------------------------------------------------------------------------------------

  /** The node a resolved symbol gives with some arguments. */
  function NodeOf(w: World, r: Resolved, kwargs: Args): Node {
    var ctx := w.context(Key(r.fileid, r.name), Given(w, r, kwargs));
    var args := ArgumentsOf(w.declares(r.decl), ctx);
    Node(w.mangle(r.name, args), r.name, r.fileid, r.decl, ctx, args)
  }

  /** The names a declaration finds a value for. */
  function Provided(w: World, r: Resolved, kwargs: Args): set<string> {
    Given(w, r, kwargs).Keys
  }

  /** The arguments that are neither known nor have a default, in order. */
  function Missing(args: seq<Argument>, known: set<string>): seq<string> {
    if args == [] then []
    else
      var a := args[0];
      if a.name in known then Missing(args[1..], known)
      else if a.default then Missing(args[1..], known + {a.name})
      else [a.name] + Missing(args[1..], known)
  }

  function MissingOf(w: World, r: Resolved, kwargs: Args): seq<string> {
    Missing(w.declares(r.decl), Provided(w, r, kwargs))
  }

  /** Argument i has no default and is not known, also not by the default of an earlier one of its name. */
  ghost predicate LacksAt(args: seq<Argument>, known: set<string>, i: nat)
    requires i < |args|
  {
    !args[i].default && args[i].name !in known && forall j :: 0 <= j < i && args[j].default ==> args[j].name != args[i].name
  }

  ghost predicate Lacks(args: seq<Argument>, known: set<string>, name: string) {
    exists i :: 0 <= i < |args| && LacksAt(args, known, i) && args[i].name == name
  }

  /** An argument is missing exactly if nothing gives it a value. */
  lemma {:induction false} MissingAre(args: seq<Argument>, known: set<string>, name: string)
    ensures name in Missing(args, known) <==> Lacks(args, known, name)
  {
    if args != [] {
      var a, rest := args[0], args[1..];
      var more := if a.name !in known && a.default then known + {a.name} else known;
      MissingAre(rest, more, name);
      if Lacks(rest, more, name) {
        var i: nat :| i < |rest| && LacksAt(rest, more, i) && rest[i].name == name;
        assert forall j :: 0 < j < |args| ==> args[j] == rest[j-1];
        assert LacksAt(args, known, i + 1);
      }
      if Lacks(args, known, name) {
        var i: nat :| i < |args| && LacksAt(args, known, i) && args[i].name == name;
        if i > 0 {
          assert forall j :: 0 <= j < |rest| ==> rest[j] == args[j+1];
          assert LacksAt(rest, more, i - 1);
        }
      }
    }
  }

  /** One report per missing argument. */
  function Reports(of: string, names: seq<string>): (r: seq<Error>)
    ensures |r| == |names| && forall i :: 0 <= i < |r| ==> r[i] == MissingArgument(of, names[i])
  {
    seq(|names|, i requires 0 <= i < |names| => MissingArgument(of, names[i]))
  }

  /** A reference of a node has been followed: what it resolves to is at the end of an edge, or it is external, or it
      has been reported; and so has a missing argument. */
  ghost predicate Followed(w: World, edges: seq<Edge>, errors: seq<Error>, n: Node, ref: Ref) {
    var k := Key(n.fileid, ref.name);
    && (forall r :: ResolvesTo(w, k, r) ==>
         Edge(n.mangled, NodeOf(w, r, ref.kwargs).mangled) in edges && Supplied(w, errors, r, ref.kwargs))
    && (!Resolvable(w, k) ==> IsPython(w, k) || Unresolved(ref.name) in errors)
  }

  ghost predicate Supplied(w: World, errors: seq<Error>, r: Resolved, kwargs: Args) {
    forall a | a in MissingOf(w, r, kwargs) :: MissingArgument(r.name, a) in errors
  }

  /** The node has a reference of that name that leads neither to a declaration nor out of the program. */
  ghost predicate LeadsNowhere(w: World, n: Node, name: string) {
    !Resolvable(w, Key(n.fileid, name)) && !IsPython(w, Key(n.fileid, name)) && Refers(w, n, name)
  }

  ghost predicate Refers(w: World, n: Node, name: string) {
    exists ref :: ref in w.refs(n.decl, n.context) && ref.name == name
  }

  /** The entry point is what the first file that has a declaration for it says, file 0 being tried last as well. */
  ghost predicate FoundAs(w: World, entry: string, r: Resolved) {
    || (exists i :: 0 <= i < |w.files| && FirstIn(w, entry, r, i))
    || ((forall f | f in w.files :: !Resolvable(w, Key(f, entry))) && ResolvesTo(w, Key(0, entry), r))
  }

  ghost predicate FirstIn(w: World, entry: string, r: Resolved, i: nat)
    requires i < |w.files|
  {
    ResolvesTo(w, Key(w.files[i], entry), r) && forall j :: 0 <= j < i ==> !Resolvable(w, Key(w.files[j], entry))
  }

  /** No file has a declaration for the entry point. */
  ghost predicate NotFound(w: World, entry: string) {
    !Resolvable(w, Key(0, entry)) && forall f | f in w.files :: !Resolvable(w, Key(f, entry))
  }

  /** The entry point names a declaration that lacks the argument. */
  ghost predicate EntryLacks(w: World, entry: string, of: string, a: string) {
    exists r :: FoundAs(w, entry, r) && r.name == of && a in MissingOf(w, r, map[])
  }

  /** The node has a reference to a declaration that lacks the argument. */
  ghost predicate LacksArgument(w: World, n: Node, of: string, a: string) {
    exists ref :: ref in w.refs(n.decl, n.context) && RefLacks(w, n, ref, of, a)
  }

  ghost predicate RefLacks(w: World, n: Node, ref: Ref, of: string, a: string) {
    exists r :: ResolvesTo(w, Key(n.fileid, ref.name), r) && r.name == of && a in MissingOf(w, r, ref.kwargs)
  }

  /** Nothing is reported without a reason. */
  ghost predicate Justified(w: World, nodes: map<string, Node>, e: Error) {
    match e
    case CyclicReference(at) => !Ends(w, at)
    case Unresolved(name) => exists m :: m in nodes && LeadsNowhere(w, nodes[m], name)
    case TooMany => |nodes| >= MAX_INSTANTIATIONS
    case NoEntry(entry) => entry in w.entryPoints && NotFound(w, entry)
    case MissingArgument(of, a) =>
      || (exists entry :: entry in w.entryPoints && EntryLacks(w, entry, of, a))
      || exists m :: m in nodes && LacksArgument(w, nodes[m], of, a)
  }

  ghost predicate AllFollowed(w: World, edges: seq<Edge>, errors: seq<Error>, n: Node) {
    forall ref | ref in w.refs(n.decl, n.context) :: Followed(w, edges, errors, n, ref)
  }

  /** Both ends of an edge are nodes, unless there was no room for its target, and a reference of its source leads
      to its target. */
  ghost predicate EdgeFine(w: World, nodes: map<string, Node>, errors: seq<Error>, e: Edge) {
    e.source in nodes && (e.target in nodes || TooMany in errors) && EdgeFrom(w, nodes[e.source], e.target)
  }

  ghost predicate EdgeFrom(w: World, n: Node, target: string) {
    exists ref :: ref in w.refs(n.decl, n.context) && LeadsTo(w, n, ref, target)
  }

  ghost predicate LeadsTo(w: World, n: Node, ref: Ref, target: string) {
    exists r :: ResolvesTo(w, Key(n.fileid, ref.name), r) && target == NodeOf(w, r, ref.kwargs).mangled
  }

  /** The node of some declaration with some arguments. */
  ghost predicate Genuine(w: World, n: Node) {
    exists k, r, kwargs :: ResolvesTo(w, k, r) && n == NodeOf(w, r, kwargs)
  }

  /** Some edge leads to m. */
  ghost predicate Targeted(edges: seq<Edge>, m: string) {
    exists e :: e in edges && e.target == m
  }

  ghost predicate IsEntry(w: World, m: string) {
    exists entry, r :: entry in w.entryPoints && FoundAs(w, entry, r) && m == NodeOf(w, r, map[]).mangled
  }

  /** Every node is that of an entry point or at the end of an edge. */
  ghost predicate Needed(w: World, g: Graph) {
    forall m | m in g.nodes :: IsEntry(w, m) || Targeted(g.edges, m)
  }

  /** Every node that was added is at the end of an edge. */
  ghost predicate NewNeeded(g: Graph, h: Graph) {
    forall m | m in h.nodes && m !in g.nodes :: Targeted(h.edges, m)
  }

  /** The entry points that were found lead to a node of what they resolve to. */
  ghost predicate EntryOk(w: World, g: Graph, entry: string, m: string) {
    m in g.nodes && exists r :: FoundAs(w, entry, r) && EntryNode(w, g.errors, r, m)
  }

  ghost predicate EntryNode(w: World, errors: seq<Error>, r: Resolved, m: string) {
    m == NodeOf(w, r, map[]).mangled && Supplied(w, errors, r, map[])
  }

  ghost predicate EntriesOk(w: World, g: Graph, entries: map<string, string>) {
    forall e | e in entries :: EntryOk(w, g, e, entries[e])
  }

  lemma EntryAdded(w: World, g: Graph, h: Graph, entries: map<string, string>, entry: string, r: Resolved)
    requires EntriesOk(w, g, entries) && Grows(g, h) && Supplied(w, h.errors, r, map[])
    requires FoundAs(w, entry, r) && NodeOf(w, r, map[]).mangled in h.nodes
    ensures EntriesOk(w, h, entries[entry := NodeOf(w, r, map[]).mangled])
  {
    hide FoundAs, NodeOf;
    EntriesStay(w, g, h, entries);
    assert EntryNode(w, h.errors, r, NodeOf(w, r, map[]).mangled);
    hide EntryNode, Grows, Supplied;
    assert EntryOk(w, h, entry, NodeOf(w, r, map[]).mangled);
    hide EntryOk;
  }

  lemma EntriesStay(w: World, g: Graph, h: Graph, entries: map<string, string>)
    requires EntriesOk(w, g, entries) && Grows(g, h)
    ensures EntriesOk(w, h, entries)
  {
    hide FoundAs, NodeOf;
    InLonger(g.errors, h.errors);
    forall e | e in entries ensures EntryOk(w, h, e, entries[e]) {
      assert EntryOk(w, g, e, entries[e]);
      var r :| FoundAs(w, e, r) && EntryNode(w, g.errors, r, entries[e]);
      assert EntryNode(w, h.errors, r, entries[e]);
    }
  }

  datatype Graph = Graph(nodes: map<string, Node>, edges: seq<Edge>, errors: seq<Error>, queue: seq<string>)

  /** At every moment of the build: done are the names taken off the queue, in order; every node was queued once. */
  ghost predicate Consistent(w: World, g: Graph, done: seq<string>) {
    && NoDup(done + g.queue)
    && (forall m :: m in g.nodes <==> m in done + g.queue)
    && (forall m | m in g.nodes :: g.nodes[m].mangled == m && Genuine(w, g.nodes[m]))
    && (forall e | e in g.edges :: EdgeFine(w, g.nodes, g.errors, e))
    && (forall e | e in g.errors :: Justified(w, g.nodes, e))
  }

  ghost predicate DoneFollowed(w: World, g: Graph, done: seq<string>) {
    forall m | m in done && m in g.nodes :: AllFollowed(w, g.edges, g.errors, g.nodes[m])
  }

  /** The graph grows: nodes, edges and errors stay. */
  ghost predicate Grows(g: Graph, h: Graph) {
    && (forall m | m in g.nodes :: m in h.nodes && h.nodes[m] == g.nodes[m])
    && g.edges <= h.edges && g.errors <= h.errors
  }

  lemma GrowsStep(g: Graph, h: Graph, i: Graph)
    requires Grows(g, h) && Grows(h, i)
    ensures Grows(g, i)
  {
  }

  lemma FollowedStays(w: World, g: Graph, h: Graph, n: Node, ref: Ref)
    requires Grows(g, h) && Followed(w, g.edges, g.errors, n, ref)
    ensures Followed(w, h.edges, h.errors, n, ref)
  {
    hide ResolvesTo, Resolvable, IsPython;
    InLonger(g.edges, h.edges);
  }

  lemma InLonger<X>(a: seq<X>, b: seq<X>)
    requires a <= b
    ensures forall x | x in a :: x in b
  {
    forall x | x in a ensures x in b {
      var i :| 0 <= i < |a| && a[i] == x;
      assert b[i] == x;
    }
  }

  lemma DoneStays(w: World, g: Graph, h: Graph, done: seq<string>)
    requires Grows(g, h) && DoneFollowed(w, g, done) && forall m | m in done :: m in g.nodes
    ensures DoneFollowed(w, h, done)
  {
    hide Followed;
    forall m | m in done && m in h.nodes ensures AllFollowed(w, h.edges, h.errors, h.nodes[m]) {
      assert AllFollowed(w, g.edges, g.errors, g.nodes[m]);
      forall ref | ref in w.refs(g.nodes[m].decl, g.nodes[m].context) ensures Followed(w, h.edges, h.errors, g.nodes[m], ref) {
        FollowedStays(w, g, h, g.nodes[m], ref);
      }
    }
  }

  lemma FineStays(w: World, g: Graph, h: Graph)
    requires Grows(g, h) && forall e | e in g.edges :: EdgeFine(w, g.nodes, g.errors, e)
    ensures forall e | e in g.edges :: EdgeFine(w, h.nodes, h.errors, e)
  {
    hide EdgeFrom;
    InLonger(g.errors, h.errors);
  }

  lemma JustifiedStays(w: World, nodes: map<string, Node>, more: map<string, Node>, e: Error)
    requires Justified(w, nodes, e) && forall m | m in nodes :: m in more && more[m] == nodes[m]
    ensures Justified(w, more, e)
  {
    hide Resolvable, IsPython, Ends, LeadsNowhere, NotFound, EntryLacks, LacksArgument;
    SubsetSize(nodes.Keys, more.Keys);
    if e.Unresolved? {
      var m :| m in nodes && LeadsNowhere(w, nodes[m], e.ref);
      assert m in more && LeadsNowhere(w, more[m], e.ref);
    }
    if e.MissingArgument? {
      if m :| m in nodes && LacksArgument(w, nodes[m], e.of, e.argument) {
        assert m in more && LacksArgument(w, more[m], e.of, e.argument);
      }
    }
  }

  lemma {:induction false} SubsetSize<X>(a: set<X>, b: set<X>)
    requires a <= b
    ensures |a| <= |b|
  {
    assert b == a + (b - a);
  }

  /** Adding a node that is not there yet puts its name on the queue once. */
  lemma AddNode(w: World, g: Graph, done: seq<string>, n: Node)
    requires Consistent(w, g, done) && n.mangled !in g.nodes && Genuine(w, n)
    ensures var h := g.(nodes := g.nodes[n.mangled := n], queue := g.queue + [n.mangled]);
      Consistent(w, h, done) && Grows(g, h) && |h.nodes| == |g.nodes| + 1
  {
    hide Justified, EdgeFine, NoDup, Genuine;
    var h := g.(nodes := g.nodes[n.mangled := n], queue := g.queue + [n.mangled]);
    assert done + h.queue == (done + g.queue) + [n.mangled];
    NoDupMore(done + g.queue, n.mangled);
    assert h.nodes.Keys == g.nodes.Keys + {n.mangled};
    FineStays(w, g, h);
    forall e | e in h.errors ensures Justified(w, h.nodes, e) { JustifiedStays(w, g.nodes, h.nodes, e); }
  }

  lemma NoDupMore<X>(s: seq<X>, x: X)
    requires NoDup(s) && x !in s
    ensures NoDup(s + [x])
  {
  }

  lemma AddEdge(w: World, g: Graph, done: seq<string>, e: Edge)
    requires Consistent(w, g, done) && EdgeFine(w, g.nodes, g.errors, e)
    ensures Consistent(w, g.(edges := g.edges + [e]), done)
  {
  }

  lemma AddError(w: World, g: Graph, done: seq<string>, e: Error)
    requires Consistent(w, g, done) && Justified(w, g.nodes, e)
    ensures Consistent(w, g.(errors := g.errors + [e]), done) && Grows(g, g.(errors := g.errors + [e]))
  {
    hide Justified;
    FineStays(w, g, g.(errors := g.errors + [e]));
  }

  /** The error reports a chain that never ends. */
  ghost predicate Cyclic(w: World, e: Error) {
    e.CyclicReference? && !Ends(w, e.at)
  }

  /** The errors since are all of that kind. */
  ghost predicate OnlyCyclic(w: World, errors: seq<Error>, more: seq<Error>) {
    errors <= more && forall i :: |errors| <= i < |more| ==> Cyclic(w, more[i])
  }

  ghost function Max(a: nat, b: nat): nat {
    if a >= b then a else b
  }

  /** extract_arguments. */
  method ExtractArguments(args: seq<Argument>, ctx: Args) returns (values: Args)
    ensures values == ArgumentsOf(args, ctx)
  {
    values := map[];
    for i := 0 to |args|
      invariant values == ArgumentsOf(args[..i], ctx)
    {
      var name := args[i].name;
      if name in ctx { values := values[name := ctx[name]]; }
      assert args[..i+1][..i] == args[..i];
    }
    assert args[..|args|] == args;
  }

  class Builder {
    const w: World
    var nodes: map<string, Node>
    var edges: seq<Edge>
    var errors: seq<Error>
    var queue: seq<string>
    var resolving: seq<Key>
    var pyChecking: set<Key>
    var entryMap: map<string, string>

    constructor (w: World)
      ensures this.w == w && Snap() == Graph(map[], [], [], [])
      ensures resolving == [] && pyChecking == {} && entryMap == map[]
    {
      this.w := w;
      nodes, edges, errors, queue := map[], [], [], [];
      resolving, pyChecking, entryMap := [], {}, map[];
    }

    ghost function Snap(): Graph
      reads this
    {
      Graph(nodes, edges, errors, queue)
    }

    /** resolve: follow imports and aliases to a declaration. A loop is reported, and the stack of symbols under
        resolution is as before on every return. */
    method Resolve(name: string, fileid: int) returns (r: Option<Resolved>)
      requires NoDup(resolving) && Leads(w, resolving, Key(fileid, name))
      modifies this`resolving, this`errors
      ensures resolving == old(resolving)
      ensures r.Some? ==> ResolvesTo(w, Key(fileid, name), r.value)
      ensures r.None? ==> !Resolvable(w, Key(fileid, name))
      ensures if Ends(w, Key(fileid, name)) then errors == old(errors)
              else |errors| == |old(errors)| + 1 && errors[..|old(errors)|] == old(errors) && Cyclic(w, errors[|old(errors)|])
      decreases |w.symbols.Keys - (set k | k in resolving)|
    {
      hide Resolvable, ResolvesTo, Ends, IsPython, Fixed;
      var k := Key(fileid, name);
      if k in resolving {
        NeverEnding(w, resolving, k);
        errors := errors + [CyclicReference(k)];
        return None;
      }
      if k !in w.symbols {
        EndsHere(w, k);
        NotResolvable(w, k);
        return None;
      }
      resolving := resolving + [k];
      match w.symbols[k] {
        case Declared(decl) =>
          EndsHere(w, k);
          r := Some(Resolved(name, fileid, decl, map[]));
        case Import(file, target, config) =>
          EndsOnward(w, k);
          StackGrows(w, old(resolving), k);
          r := Resolve(target, file);
          if r.Some? {
            r := Some(r.value.(kwargs := r.value.kwargs + (if config.Some? then w.config(fileid, config.value) else map[])));
          }
          FixedIs(w, k);
        case Alias(file, target, config) =>
          EndsOnward(w, k);
          StackGrows(w, old(resolving), k);
          r := Resolve(target, file);
          if r.Some? {
            r := Some(r.value.(kwargs := r.value.kwargs + (if config.Some? then w.config(file, config.value) else map[])));
          }
          FixedIs(w, k);
        case _ =>
          EndsHere(w, k);
          NotResolvable(w, k);
          r := None;
      }
      resolving := resolving[..|resolving|-1];
    }

    /** is_python_symbol: a symbol caught in a loop is not one. */
    method IsPythonSymbol(name: string, fileid: int, ghost st: seq<Key>) returns (r: bool)
      requires Leads(w, st, Key(fileid, name)) && forall k :: k in pyChecking <==> k in st
      modifies this`pyChecking
      ensures pyChecking == old(pyChecking)
      ensures r <==> IsPython(w, Key(fileid, name))
      decreases |w.symbols.Keys - pyChecking|
    {
      hide Resolvable, ResolvesTo, Ends, IsPython;
      var k := Key(fileid, name);
      if k in pyChecking {
        NeverEnding(w, st, k);
        return false;
      }
      ghost var before := pyChecking;
      pyChecking := pyChecking + {k};
      if k !in w.symbols {
        EndsHere(w, k);
        r := false;
      } else {
        match w.symbols[k] {
          case Python =>
            EndsHere(w, k);
            r := true;
          case Import(file, target, _) =>
            EndsOnward(w, k);
            LeadsOn(w, st, k);
            FewerLeft(w, before, k);
            r := IsPythonSymbol(target, file, st + [k]);
          case Alias(file, target, _) =>
            EndsOnward(w, k);
            LeadsOn(w, st, k);
            FewerLeft(w, before, k);
            r := IsPythonSymbol(target, file, st + [k]);
          case _ =>
            EndsHere(w, k);
            r := false;
        }
      }
      pyChecking := pyChecking - {k};
      assert pyChecking == before;
    }

    ghost predicate Idle()
      reads this
    {
      resolving == [] && pyChecking == {}
    }

    /** emit_error. */
    method Report(e: Error, ghost done: seq<string>)
      requires Consistent(w, Snap(), done) && Justified(w, nodes, e)
      modifies this`errors
      ensures errors == old(errors) + [e]
      ensures Consistent(w, Snap(), done) && Grows(old(Snap()), Snap())
    {
      AddError(w, Snap(), done, e);
      errors := errors + [e];
    }

    /** Evaluate the context of a resolved declaration; a missing argument is reported. */
    method Instantiate(r: Resolved, kwargs: Args, ghost done: seq<string>) returns (n: Node)
      requires Consistent(w, Snap(), done)
      requires forall a | a in MissingOf(w, r, kwargs) :: Justified(w, nodes, MissingArgument(r.name, a))
      modifies this`errors
      ensures n == NodeOf(w, r, kwargs)
      ensures errors == old(errors) + Reports(r.name, MissingOf(w, r, kwargs)) && Supplied(w, errors, r, kwargs)
      ensures Consistent(w, Snap(), done) && Grows(old(Snap()), Snap())
    {
      hide Consistent, Grows, Justified, Missing, MissingOf, Reports;
      ghost var g := Snap();
      GrowsSelf(g);
      MissingIs(w, r, kwargs);
      var args := w.declares(r.decl);
      var known := Provided(w, r, kwargs);
      ghost var reported: seq<string> := [];
      assert args[0..] == args;
      for i := 0 to |args|
        invariant MissingOf(w, r, kwargs) == reported + Missing(args[i..], known)
        invariant errors == g.errors + Reports(r.name, reported)
        invariant Consistent(w, Snap(), done) && Grows(g, Snap())
      {
        var a := args[i];
        MissingStep(args, i, known);
        if a.name !in known {
          if a.default {
            known := known + {a.name};
          } else {
            IsMissing(w, r, kwargs, reported, a.name, Missing(args[i+1..], known));
            ghost var h := Snap();
            Report(MissingArgument(r.name, a.name), done);
            GrowsStep(g, h, Snap());
            ReportsMore(r.name, reported, a.name);
            reported := reported + [a.name];
          }
        }
      }
      MissingNone(args, known);
      AllReported(w, g.errors, r, kwargs);
      var ctx := w.context(Key(r.fileid, r.name), Given(w, r, kwargs));
      var values := ExtractArguments(args, ctx);
      n := Node(w.mangle(r.name, values), r.name, r.fileid, r.decl, ctx, values);
    }

    /** Record the edge, and the node if it is new and there is room for it. */
    method Link(n: Node, node: Node, ghost done: seq<string>)
      requires Consistent(w, Snap(), done) && n.mangled in nodes && Genuine(w, node)
      modifies this`nodes, this`edges, this`errors, this`queue
      ensures edges == old(edges) + [Edge(n.mangled, node.mangled)]
      ensures var there, room := node.mangled in old(nodes), |old(nodes)| < MAX_INSTANTIATIONS;
        && nodes == (if !there && room then old(nodes)[node.mangled := node] else old(nodes))
        && queue == old(queue) + (if !there && room then [node.mangled] else [])
        && errors == old(errors) + (if !there && !room then [TooMany] else [])
      ensures Consistent(w, Snap().(edges := old(edges)), done) && Grows(old(Snap()), Snap().(edges := old(edges)))
      ensures node.mangled in nodes || TooMany in errors
      ensures |nodes| - |old(nodes)| == |queue| - |old(queue)| && |old(nodes)| <= |nodes| <= Max(MAX_INSTANTIATIONS, |old(nodes)|)
    {
      hide Consistent, Grows, Genuine;
      ghost var g := Snap();
      edges := edges + [Edge(n.mangled, node.mangled)];
      if node.mangled in nodes {
        GrowsSelf(g);
        return;
      }
      if |nodes| >= MAX_INSTANTIATIONS {
        AddError(w, g, done, TooMany);
        errors := errors + [TooMany];
        return;
      }
      AddNode(w, g, done, node);
      nodes := nodes[node.mangled := node];
      queue := queue + [node.mangled];
    }

    /** process_reference: an edge to the node of what the reference resolves to, and the node if it is new. */
    method ProcessReference(n: Node, ref: Ref, ghost done: seq<string>)
      requires Idle() && Consistent(w, Snap(), done) && n.mangled in nodes && nodes[n.mangled] == n
      requires ref in w.refs(n.decl, n.context)
      modifies this`resolving, this`pyChecking, this`nodes, this`edges, this`errors, this`queue
      ensures Idle() && Consistent(w, Snap(), done) && Grows(old(Snap()), Snap()) && NewNeeded(old(Snap()), Snap())
      ensures Followed(w, edges, errors, n, ref)
      ensures |nodes| - |old(nodes)| == |queue| - |old(queue)| && |old(nodes)| <= |nodes| <= Max(MAX_INSTANTIATIONS, |old(nodes)|)
    {
      hide Consistent, Grows, Resolvable, ResolvesTo, Ends, IsPython, Leads, Followed, NodeOf, Justified, Cyclic, Genuine,
        MissingOf, Reports, Supplied;
      ghost var g0 := Snap();
      var k := Key(n.fileid, ref.name);
      NothingLeads(w, k);
      var resolved := Resolve(ref.name, n.fileid);
      ErrorsMore(w, g0, done, Snap());
      ghost var g1 := Snap();
      if resolved.None? {
        var python := IsPythonSymbol(ref.name, n.fileid, []);
        if !python {
          NowhereJustified(w, nodes, n, ref);
          Report(Unresolved(ref.name), done);
          GrowsStep(g0, g1, Snap());
        }
        NotFollowed(w, edges, errors, n, ref);
        return;
      }
      LacksJustified(w, nodes, n, ref, resolved.value);
      var node := Instantiate(resolved.value, ref.kwargs, done);
      IsGenuine(w, k, resolved.value, ref.kwargs);
      ghost var g2 := Snap();
      GrowsStep(g0, g1, g2);
      GrowsKeeps(g0, g2, n.mangled);
      Link(n, node, done);
      LinkDone(w, g0, g2, Snap(), done, n, ref, resolved.value);
    }

    /** process_node: follow every reference of the declaration. */
    method ProcessNode(n: Node, ghost done: seq<string>)
      requires Idle() && Consistent(w, Snap(), done) && n.mangled in nodes && nodes[n.mangled] == n
      modifies this`resolving, this`pyChecking, this`nodes, this`edges, this`errors, this`queue
      ensures Idle() && Consistent(w, Snap(), done) && Grows(old(Snap()), Snap()) && NewNeeded(old(Snap()), Snap())
      ensures AllFollowed(w, edges, errors, n)
      ensures |nodes| - |old(nodes)| == |queue| - |old(queue)| && |old(nodes)| <= |nodes| <= Max(MAX_INSTANTIATIONS, |old(nodes)|)
    {
      hide Consistent, Grows, Followed, Targeted;
      ghost var g0 := Snap();
      GrowsSelf(g0);
      var refs := w.refs(n.decl, n.context);
      for i := 0 to |refs|
        invariant Idle() && Consistent(w, Snap(), done) && Grows(g0, Snap()) && NewNeeded(g0, Snap())
        invariant n.mangled in nodes && nodes[n.mangled] == n
        invariant forall j :: 0 <= j < i ==> Followed(w, edges, errors, n, refs[j])
        invariant |nodes| - |g0.nodes| == |queue| - |g0.queue| && |g0.nodes| <= |nodes| <= Max(MAX_INSTANTIATIONS, |g0.nodes|)
      {
        ghost var g1 := Snap();
        ProcessReference(n, refs[i], done);
        GrowsStep(g0, g1, Snap());
        NeededStep(g0, g1, Snap());
        GrowsKeeps(g1, Snap(), n.mangled);
        forall j | 0 <= j < i ensures Followed(w, edges, errors, n, refs[j]) {
          FollowedStays(w, g1, Snap(), n, refs[j]);
        }
      }
      forall ref | ref in refs ensures Followed(w, edges, errors, n, ref) {
        var j :| 0 <= j < |refs| && refs[j] == ref;
      }
    }

    /** The symbol an entry point names: the first file that has it wins, and file 0 is tried again at the end. */
    method FindEntry(entry: string) returns (r: Option<Resolved>)
      requires Idle()
      modifies this`resolving, this`errors
      ensures Idle() && OnlyCyclic(w, old(errors), errors)
      ensures r.Some? ==> FoundAs(w, entry, r.value)
      ensures r.None? ==> NotFound(w, entry)
    {
      hide Resolvable, ResolvesTo, Ends, Leads, Cyclic;
      for i := 0 to |w.files|
        invariant Idle() && OnlyCyclic(w, old(errors), errors)
        invariant forall j :: 0 <= j < i ==> !Resolvable(w, Key(w.files[j], entry))
      {
        NothingLeads(w, Key(w.files[i], entry));
        r := Resolve(entry, w.files[i]);
        if r.Some? {
          assert FirstIn(w, entry, r.value, i);
          return;
        }
      }
      NothingLeads(w, Key(0, entry));
      r := Resolve(entry, 0);
    }

    /** The seeds: the entry points, which are not subject to the limit. */
    method Seed()
      requires Idle() && Snap() == Graph(map[], [], [], []) && entryMap == map[]
      modifies this
      ensures Idle() && Consistent(w, Snap(), []) && |nodes| <= |w.entryPoints|
      ensures EntriesOk(w, Snap(), entryMap) && Needed(w, Snap())
      ensures forall e | e in w.entryPoints :: e in entryMap || NoEntry(e) in errors
    {
      hide Consistent, Grows, EntriesOk, Needed, NotFound;
      EmptyConsistent(w);
      NothingNeeded(w);
      var entries := w.entryPoints;
      for i := 0 to |entries|
        invariant Idle() && Consistent(w, Snap(), []) && |nodes| <= i && edges == []
        invariant EntriesOk(w, Snap(), entryMap) && Needed(w, Snap())
        invariant forall j :: 0 <= j < i ==> entries[j] in entryMap || NoEntry(entries[j]) in errors
      {
        ghost var before := errors;
        SeedEntry(entries[i]);
        InLonger(before, errors);
      }
    }

    method AddOnce(node: Node)
      requires Consistent(w, Snap(), []) && Genuine(w, node)
      modifies this`nodes, this`queue
      ensures nodes == if node.mangled in old(nodes) then old(nodes) else old(nodes)[node.mangled := node]
      ensures Consistent(w, Snap(), []) && |nodes| <= |old(nodes)| + 1
      ensures Grows(old(Snap()), Snap())
    {
      hide Consistent, Grows, Genuine;
      GrowsSelf(Snap());
      if node.mangled in nodes { return; }
      AddNode(w, Snap(), [], node);
      nodes := nodes[node.mangled := node];
      queue := queue + [node.mangled];
    }

    method SeedEntry(entry: string)
      requires Idle() && Consistent(w, Snap(), []) && EntriesOk(w, Snap(), entryMap) && entry in w.entryPoints
      requires edges == [] && Needed(w, Snap())
      modifies this
      ensures Idle() && Consistent(w, Snap(), []) && |nodes| <= |old(nodes)| + 1
      ensures EntriesOk(w, Snap(), entryMap) && edges == [] && Needed(w, Snap())
      ensures forall e | e in old(entryMap) :: e in entryMap
      ensures old(errors) <= errors && (entry in entryMap || NoEntry(entry) in errors)
    {
      hide Consistent, Grows, FoundAs, NodeOf, EntriesOk, Cyclic, NotFound, Needed, Genuine, Justified, MissingOf, Reports, Supplied;
      ghost var g := Snap();
      var resolved := FindEntry(entry);
      ErrorsMore(w, g, [], Snap());
      if resolved.None? {
        ghost var g1 := Snap();
        NoneJustified(w, nodes, entry);
        Report(NoEntry(entry), []);
        GrowsStep(g, g1, Snap());
        EntriesStay(w, g, Snap(), entryMap);
        SameNeeded(w, g, Snap());
        return;
      }
      ghost var g1 := Snap();
      EntryLacksJustified(w, nodes, entry, resolved.value);
      var node := Instantiate(resolved.value, map[], []);
      ghost var g2 := Snap();
      GrowsStep(g, g1, g2);
      FoundGenuine(w, entry, resolved.value);
      ghost var had := entryMap;
      entryMap := entryMap[entry := node.mangled];
      AddOnce(node);
      EntryNeeded(w, g, entry, resolved.value, Snap());
      GrowsStep(g, g2, Snap());
      EntryAdded(w, g, Snap(), had, entry, resolved.value);
    }

    /** build: every name is queued at most once, the number of nodes is bounded, and in the end every reference of
        every node has been followed. Nothing is in the graph without need: every node is that of an entry point or
        at the end of an edge, every edge is that of a reference, and every error has its reason. */
    method Build() returns (ghost done: seq<string>)
      requires Idle() && Snap() == Graph(map[], [], [], []) && entryMap == map[]
      modifies this
      ensures Idle() && queue == [] && NoDup(done) && forall m :: m in nodes <==> m in done
      ensures |nodes| <= Max(MAX_INSTANTIATIONS, |w.entryPoints|)
      ensures forall m | m in nodes :: AllFollowed(w, edges, errors, nodes[m])
      ensures forall e | e in edges :: EdgeFine(w, nodes, errors, e)
      ensures EntriesOk(w, Snap(), entryMap) && Needed(w, Snap())
      ensures forall m | m in nodes :: nodes[m].mangled == m && Genuine(w, nodes[m])
      ensures forall e | e in w.entryPoints :: e in entryMap || NoEntry(e) in errors
      ensures forall e | e in errors :: Justified(w, nodes, e)
    {
      hide Consistent, Grows, DoneFollowed, EntriesOk, Needed, NewNeeded;
      Seed();
      done := [];
      NoneDone(w, Snap());
      ghost var cap := Max(MAX_INSTANTIATIONS, |w.entryPoints|);
      while queue != []
        invariant Idle() && Consistent(w, Snap(), done) && DoneFollowed(w, Snap(), done)
        invariant |nodes| <= cap
        invariant EntriesOk(w, Snap(), entryMap) && Needed(w, Snap())
        invariant forall e | e in w.entryPoints :: e in entryMap || NoEntry(e) in errors
        decreases cap - |nodes|, |queue|
      {
        ghost var g := Snap();
        var mangled := queue[0];
        QueuedIsNode(w, g, done);
        queue := queue[1..];
        TakeOne(w, g, done);
        var n := nodes[mangled];
        ghost var g1 := Snap();
        ProcessNode(n, done + [mangled]);
        StillDone(w, g, g1, Snap(), done, mangled);
        MoreNeeded(w, g, g1, Snap());
        EntriesStay(w, g, Snap(), entryMap);
        done := done + [mangled];
      }
      AllDone(w, Snap(), done);
    }
  }

  lemma GrowsSelf(g: Graph)
    ensures Grows(g, g)
  {
  }

  lemma GrowsKeeps(g: Graph, h: Graph, m: string)
    requires Grows(g, h) && m in g.nodes
    ensures m in h.nodes && h.nodes[m] == g.nodes[m]
  {
  }

  lemma IsTargeted(edges: seq<Edge>, e: Edge)
    requires e in edges
    ensures Targeted(edges, e.target)
  {
  }

  lemma IsGenuine(w: World, k: Key, r: Resolved, kwargs: Args)
    requires ResolvesTo(w, k, r)
    ensures Genuine(w, NodeOf(w, r, kwargs))
  {
    hide ResolvesTo, NodeOf;
  }

  lemma FoundGenuine(w: World, entry: string, r: Resolved)
    requires FoundAs(w, entry, r)
    ensures Genuine(w, NodeOf(w, r, map[]))
  {
    hide ResolvesTo, Resolvable, Genuine, NodeOf;
    if i: nat :| i < |w.files| && FirstIn(w, entry, r, i) {
      IsGenuine(w, Key(w.files[i], entry), r, map[]);
    } else {
      IsGenuine(w, Key(0, entry), r, map[]);
    }
  }

  lemma TargetStays(edges: seq<Edge>, more: seq<Edge>, m: string)
    requires Targeted(edges, m) && edges <= more
    ensures Targeted(more, m)
  {
    InLonger(edges, more);
  }

  lemma NeededStep(g: Graph, h: Graph, i: Graph)
    requires Grows(h, i) && NewNeeded(g, h) && NewNeeded(h, i)
    ensures NewNeeded(g, i)
  {
    hide Targeted;
    forall m | m in i.nodes && m !in g.nodes ensures Targeted(i.edges, m) {
      if m in h.nodes { TargetStays(h.edges, i.edges, m); }
    }
  }

  lemma MoreNeeded(w: World, g: Graph, g1: Graph, h: Graph)
    requires Needed(w, g) && g1.nodes == g.nodes && g1.edges == g.edges && Grows(g1, h) && NewNeeded(g1, h)
    ensures Needed(w, h)
  {
    hide Targeted, IsEntry;
    forall m | m in h.nodes ensures IsEntry(w, m) || Targeted(h.edges, m) {
      if m in g.nodes && !IsEntry(w, m) { TargetStays(g.edges, h.edges, m); }
    }
  }

  lemma SameNeeded(w: World, g: Graph, h: Graph)
    requires Needed(w, g) && h.nodes == g.nodes && h.edges == g.edges
    ensures Needed(w, h)
  {
  }

  lemma EntryNeeded(w: World, g: Graph, entry: string, r: Resolved, h: Graph)
    requires Needed(w, g) && g.edges == h.edges && entry in w.entryPoints && FoundAs(w, entry, r)
    requires forall m | m in h.nodes && m !in g.nodes :: m == NodeOf(w, r, map[]).mangled
    ensures Needed(w, h)
  {
    hide Targeted, FoundAs, NodeOf;
    assert IsEntry(w, NodeOf(w, r, map[]).mangled);
    hide IsEntry;
  }

  lemma NothingLeads(w: World, k: Key)
    ensures Leads(w, [], k)
  {
  }

  lemma ErrorsMore(w: World, g: Graph, done: seq<string>, h: Graph)
    requires Consistent(w, g, done) && OnlyCyclic(w, g.errors, h.errors) && h == g.(errors := h.errors)
    ensures Consistent(w, h, done) && Grows(g, h)
  {
    hide Ends, Resolvable, IsPython, LeadsNowhere, NotFound, EntryLacks, LacksArgument;
    FineStays(w, g, h);
    forall e | e in h.errors ensures Justified(w, h.nodes, e) {
      var i :| 0 <= i < |h.errors| && h.errors[i] == e;
      if i < |g.errors| { assert e == g.errors[i]; }
    }
  }

  lemma NowhereJustified(w: World, nodes: map<string, Node>, n: Node, ref: Ref)
    requires n.mangled in nodes && nodes[n.mangled] == n && ref in w.refs(n.decl, n.context)
    requires !Resolvable(w, Key(n.fileid, ref.name)) && !IsPython(w, Key(n.fileid, ref.name))
    ensures Justified(w, nodes, Unresolved(ref.name))
  {
    hide Resolvable, IsPython;
    assert Refers(w, n, ref.name);
    assert LeadsNowhere(w, nodes[n.mangled], ref.name);
  }

  lemma LackJustified(w: World, nodes: map<string, Node>, n: Node, ref: Ref, r: Resolved, a: string)
    requires n.mangled in nodes && nodes[n.mangled] == n && ref in w.refs(n.decl, n.context)
    requires ResolvesTo(w, Key(n.fileid, ref.name), r) && a in MissingOf(w, r, ref.kwargs)
    ensures Justified(w, nodes, MissingArgument(r.name, a))
  {
    hide ResolvesTo, MissingOf;
    assert RefLacks(w, n, ref, r.name, a);
    assert LacksArgument(w, nodes[n.mangled], r.name, a);
  }

  lemma LacksJustified(w: World, nodes: map<string, Node>, n: Node, ref: Ref, r: Resolved)
    requires n.mangled in nodes && nodes[n.mangled] == n && ref in w.refs(n.decl, n.context)
    requires ResolvesTo(w, Key(n.fileid, ref.name), r)
    ensures forall a | a in MissingOf(w, r, ref.kwargs) :: Justified(w, nodes, MissingArgument(r.name, a))
  {
    hide ResolvesTo, MissingOf, Justified;
    forall a | a in MissingOf(w, r, ref.kwargs) ensures Justified(w, nodes, MissingArgument(r.name, a)) {
      LackJustified(w, nodes, n, ref, r, a);
    }
  }

  lemma EntryLacksJustified(w: World, nodes: map<string, Node>, entry: string, r: Resolved)
    requires entry in w.entryPoints && FoundAs(w, entry, r)
    ensures forall a | a in MissingOf(w, r, map[]) :: Justified(w, nodes, MissingArgument(r.name, a))
  {
    hide FoundAs, MissingOf, Justified;
    forall a | a in MissingOf(w, r, map[]) ensures Justified(w, nodes, MissingArgument(r.name, a)) {
      EntryLackJustified(w, nodes, entry, r, a);
    }
  }

  lemma MissingIs(w: World, r: Resolved, kwargs: Args)
    ensures MissingOf(w, r, kwargs) == [] + Missing(w.declares(r.decl), Provided(w, r, kwargs))
    ensures forall errors: seq<Error> :: errors == errors + Reports(r.name, [])
  {
    hide Missing;
  }

  lemma MissingStep(args: seq<Argument>, i: nat, known: set<string>)
    requires i < |args|
    ensures Missing(args[i..], known) ==
      if args[i].name in known then Missing(args[i+1..], known)
      else if args[i].default then Missing(args[i+1..], known + {args[i].name})
      else [args[i].name] + Missing(args[i+1..], known)
  {
    assert args[i..][1..] == args[i+1..];
  }

  lemma MissingNone(args: seq<Argument>, known: set<string>)
    ensures Missing(args[|args|..], known) == []
  {
  }

  lemma IsMissing(w: World, r: Resolved, kwargs: Args, front: seq<string>, a: string, rest: seq<string>)
    requires MissingOf(w, r, kwargs) == front + ([a] + rest)
    ensures a in MissingOf(w, r, kwargs) && MissingOf(w, r, kwargs) == (front + [a]) + rest
  {
    hide MissingOf;
    assert (front + ([a] + rest))[|front|] == a;
  }

  lemma ReportsMore(of: string, names: seq<string>, a: string)
    ensures forall errors: seq<Error> ::
      (errors + Reports(of, names)) + [MissingArgument(of, a)] == errors + Reports(of, names + [a])
  {
    assert Reports(of, names + [a]) == Reports(of, names) + [MissingArgument(of, a)];
    hide Reports;
  }

  lemma AllReported(w: World, errors: seq<Error>, r: Resolved, kwargs: Args)
    ensures Supplied(w, errors + Reports(r.name, MissingOf(w, r, kwargs)), r, kwargs)
  {
    hide MissingOf;
    var names := MissingOf(w, r, kwargs);
    var all := errors + Reports(r.name, names);
    forall a | a in names ensures MissingArgument(r.name, a) in all {
      var i :| 0 <= i < |names| && names[i] == a;
      assert all[|errors| + i] == MissingArgument(r.name, a);
    }
  }

  lemma NoneJustified(w: World, nodes: map<string, Node>, entry: string)
    requires entry in w.entryPoints && NotFound(w, entry)
    ensures Justified(w, nodes, NoEntry(entry))
  {
    hide NotFound;
  }

  lemma EntryLackJustified(w: World, nodes: map<string, Node>, entry: string, r: Resolved, a: string)
    requires entry in w.entryPoints && FoundAs(w, entry, r) && a in MissingOf(w, r, map[])
    ensures Justified(w, nodes, MissingArgument(r.name, a))
  {
    hide FoundAs, MissingOf;
    assert EntryLacks(w, entry, r.name, a);
  }

  lemma NotFollowed(w: World, edges: seq<Edge>, errors: seq<Error>, n: Node, ref: Ref)
    requires !Resolvable(w, Key(n.fileid, ref.name)) && (IsPython(w, Key(n.fileid, ref.name)) || Unresolved(ref.name) in errors)
    ensures Followed(w, edges, errors, n, ref)
  {
    hide ResolvesTo, IsPython;
  }

  /** After the edge, and the node or the error. */
  lemma LinkDone(w: World, g0: Graph, g: Graph, h: Graph, done: seq<string>, n: Node, ref: Ref, r: Resolved)
    requires Grows(g0, g) && n.mangled in g.nodes && g.nodes[n.mangled] == n && ref in w.refs(n.decl, n.context)
    requires ResolvesTo(w, Key(n.fileid, ref.name), r) && Supplied(w, g.errors, r, ref.kwargs)
    requires var m := NodeOf(w, r, ref.kwargs).mangled; var e := Edge(n.mangled, m);
      var mid := h.(edges := g.edges);
      h.edges == g.edges + [e] && Consistent(w, mid, done) && Grows(g, mid) && (m in h.nodes || TooMany in h.errors)
    requires g.nodes == g0.nodes && forall m | m in h.nodes && m !in g.nodes :: m == NodeOf(w, r, ref.kwargs).mangled
    ensures Consistent(w, h, done) && Grows(g0, h) && NewNeeded(g0, h) && Followed(w, h.edges, h.errors, n, ref)
  {
    hide ResolvesTo, IsPython, Consistent, Targeted;
    var e := Edge(n.mangled, NodeOf(w, r, ref.kwargs).mangled);
    assert LeadsTo(w, n, ref, e.target);
    assert h.edges[|g.edges|] == e;
    IsTargeted(h.edges, e);
    AddEdge(w, h.(edges := g.edges), done, e);
    GrowsStep(g0, g, h);
    forall s | ResolvesTo(w, Key(n.fileid, ref.name), s) ensures s == r {
      ResolvesOnce(w, Key(n.fileid, ref.name), s, r);
    }
    assert Resolvable(w, Key(n.fileid, ref.name));
  }

  lemma EmptyConsistent(w: World)
    ensures Consistent(w, Graph(map[], [], [], []), [])
  {
  }

  lemma NothingNeeded(w: World)
    ensures Needed(w, Graph(map[], [], [], [])) && EntriesOk(w, Graph(map[], [], [], []), map[])
  {
  }

  lemma NoneDone(w: World, g: Graph)
    ensures DoneFollowed(w, g, [])
  {
  }

  lemma QueuedIsNode(w: World, g: Graph, done: seq<string>)
    requires Consistent(w, g, done) && g.queue != []
    ensures g.queue[0] in g.nodes && g.nodes[g.queue[0]].mangled == g.queue[0]
  {
    assert g.queue[0] in done + g.queue;
  }

  lemma TakeOne(w: World, g: Graph, done: seq<string>)
    requires Consistent(w, g, done) && g.queue != []
    ensures Consistent(w, g.(queue := g.queue[1..]), done + [g.queue[0]])
  {
    assert (done + [g.queue[0]]) + g.queue[1..] == done + g.queue;
  }

  lemma StillDone(w: World, g: Graph, g1: Graph, h: Graph, done: seq<string>, m: string)
    requires Consistent(w, g, done) && DoneFollowed(w, g, done) && g1.nodes == g.nodes && g1.edges == g.edges && g1.errors == g.errors
    requires Grows(g1, h) && m in g.nodes && AllFollowed(w, h.edges, h.errors, g.nodes[m])
    ensures DoneFollowed(w, h, done + [m])
    ensures forall x | x in g.nodes :: x in h.nodes
    ensures Grows(g, h) && forall e | e in g.errors :: e in h.errors
  {
    hide AllFollowed;
    assert Grows(g, h);
    assert forall x | x in done :: x in done + g.queue;
    InLonger(g.errors, h.errors);
    DoneStays(w, g, h, done);
  }

  lemma AllDone(w: World, g: Graph, done: seq<string>)
    requires Consistent(w, g, done) && DoneFollowed(w, g, done) && g.queue == []
    ensures NoDup(done) && forall m :: m in g.nodes <==> m in done
    ensures forall m | m in g.nodes :: AllFollowed(w, g.edges, g.errors, g.nodes[m])
    ensures forall e | e in g.edges :: EdgeFine(w, g.nodes, g.errors, e)
    ensures forall e | e in g.errors :: Justified(w, g.nodes, e)
    ensures forall m | m in g.nodes :: g.nodes[m].mangled == m && Genuine(w, g.nodes[m])
  {
    hide AllFollowed, EdgeFine, Justified, Genuine;
    assert done + g.queue == done;
  }

  lemma NotResolvable(w: World, k: Key)
    requires !Hop(w, k) && (k !in w.symbols || !w.symbols[k].Declared?)
    ensures !Resolvable(w, k)
  {
    EndsHere(w, k);
  }

  lemma FixedIs(w: World, k: Key)
    requires Hop(w, k)
    ensures Fixed(w, k) == match w.symbols[k]
      case Import(_, _, c) => if c.Some? then w.config(k.fileid, c.value) else map[]
      case Alias(f, _, c) => if c.Some? then w.config(f, c.value) else map[]
      case _ => map[]
  {
  }

  lemma LeadsOn(w: World, st: seq<Key>, k: Key)
    requires Leads(w, st, k) && Hop(w, k)
    ensures Leads(w, st + [k], Next(w, k))
  {
    forall i | 0 <= i < |st + [k]| ensures LeadAt(w, st + [k], Next(w, k), i) {
      if i < |st| { assert LeadAt(w, st, k, i); }
    }
  }

  lemma FewerLeft(w: World, seen: set<Key>, k: Key)
    requires k in w.symbols && k !in seen
    ensures |w.symbols.Keys - (seen + {k})| < |w.symbols.Keys - seen|
  {
    var a, b := w.symbols.Keys - (seen + {k}), w.symbols.Keys - seen;
    assert b == a + {k} && k !in a;
  }

  lemma StackGrows(w: World, st: seq<Key>, k: Key)
    requires NoDup(st) && k !in st && Leads(w, st, k) && Hop(w, k)
    ensures NoDup(st + [k]) && Leads(w, st + [k], Next(w, k))
    ensures |w.symbols.Keys - (set x | x in st + [k])| < |w.symbols.Keys - (set x | x in st)|
  {
    LeadsOn(w, st, k);
    assert (set x | x in st + [k]) == (set x | x in st) + {k};
    FewerLeft(w, (set x | x in st), k);
  }
}
