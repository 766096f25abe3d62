/** Evaluating defines on demand: values are memoised, and a define that is being evaluated is marked so that
    a cycle ends in an error instead of going on for ever. */
module DefineEvaluator {
  import opened Schema
  import opened Expressions

  datatype DefineKind = Define | Argument | Vocab

  datatype Symbol =
    | DefineSymbol(kind: DefineKind, init: Option<Expr>)
    | OtherSymbol

  type VarMap = map<string, Option<Value>>

  /** What a name is looked up in: the memo as it was at first, and the symbols seen from one scope. */
  datatype Env = Env(symbols: map<string, Symbol>, scope: string, base: VarMap, lib: Library)

  // ---- Scopes -----------------------------------------------------------------------------------------------

  predicate SepAt(s: string, i: int) {
    0 <= i && i + 1 < |s| && s[i] == ':' && s[i+1] == ':'
  }

  /** The last separator before position n. */
  function LastSep(s: string, n: nat): (r: int)
    ensures -1 <= r < n
    ensures r >= 0 ==> SepAt(s, r)
    ensures forall k :: r < k < n ==> !SepAt(s, k)
  {
    if n == 0 then -1 else if SepAt(s, n - 1) then n - 1 else LastSep(s, n - 1)
  }

  function Qualified(scope: string, name: string): string {
    scope + "::" + name
  }

  /** The symbol a name stands for: in the scope itself, else in the one around it. */
  function Lookup(env: Env, name: string): Option<Symbol> {
    var key := Qualified(env.scope, name);
    if key in env.symbols then Some(env.symbols[key])
    else
      var sep := LastSep(env.scope, |env.scope|);
      if sep < 0 then None
      else
        var outer := Qualified(env.scope[..sep], name);
        if outer in env.symbols then Some(env.symbols[outer]) else None
  }

  /** The initializer by which a name that is not in the memo is evaluated. */
  function Initializer(env: Env, name: string): Option<Expr> {
    match Lookup(env, name)
    case Some(DefineSymbol(kind, init)) => if kind == Vocab then None else init
    case _ => None
  }

  // ---- The meaning without a memo ---------------------------------------------------------------------------

  /** The value of an expression when defines may be unfolded n deep. */
  function Sem(env: Env, n: nat, e: Expr): Option<Value>
    decreases n, Size(e), 1
  {
    match e
    case Literal(v) => Some(v)
    case Format(text) =>
      var ps := Pieces(text, 0);
      if ps.None? then None
      else
        var s := SemPieces(env, n, ps.value);
        if s.None? then None else Some(StrV(s.value))
    case Name(x) => SemName(env, n, x)
    case Unary(op, a) =>
      var v := Sem(env, n, a);
      if v.None? then None else ApplyUnary(op, v.value)
    case Binary(op, a, b) =>
      var l := Sem(env, n, a);
      if l.None? then None
      else
        var r := Sem(env, n, b);
        if r.None? then None else ApplyBinary(env.lib, op, l.value, r.value)
    case Conditional(c, a, b) =>
      var v := Sem(env, n, c);
      if v.Some? && v.value.BoolV? then Sem(env, n, if v.value.b then a else b) else None
    case Paren(a) => Sem(env, n, a)
    case VocabOnly => None
  }

  function SemName(env: Env, n: nat, x: string): Option<Value>
    decreases n, 0, 0
  {
    if x in env.base then env.base[x]
    else
      var init := Initializer(env, x);
      if n == 0 || init.None? then None else Sem(env, n - 1, init.value)
  }

  function SemPieces(env: Env, n: nat, ps: seq<Piece>): Option<string>
    decreases n, 1, 0, |ps|
  {
    if ps == [] then Some("")
    else
      var head := match ps[0] case Lit(c) => Some([c]) case Var(x) =>
        (var v := SemName(env, n, x); if v.None? then None else Some(Show(env.lib, v.value)));
      var rest := SemPieces(env, n, ps[1..]);
      if head.None? || rest.None? then None else Some(head.value + rest.value)
  }

  ghost predicate Means(env: Env, e: Expr, v: Value) {
    exists n :: Sem(env, n, e) == Some(v)
  }

  ghost predicate NameMeans(env: Env, x: string, v: Value) {
    exists n :: SemName(env, n, x) == Some(v)
  }

  /** Unfolding deeper changes nothing that was defined. */
  lemma {:induction false} SemMono(env: Env, n: nat, m: nat, e: Expr)
    requires n <= m && Sem(env, n, e).Some?
    ensures Sem(env, m, e) == Sem(env, n, e)
    decreases n, Size(e), 1
  {
    match e
    case Literal(_) =>
    case Format(text) => PiecesMono(env, n, m, Pieces(text, 0).value);
    case Name(x) => NameMono(env, n, m, x);
    case Unary(_, a) => SemMono(env, n, m, a);
    case Binary(_, a, b) => SemMono(env, n, m, a); SemMono(env, n, m, b);
    case Conditional(c, a, b) =>
      SemMono(env, n, m, c);
      SemMono(env, n, m, if Sem(env, n, c).value.b then a else b);
    case Paren(a) => SemMono(env, n, m, a);
    case VocabOnly =>
  }

  lemma {:induction false} NameMono(env: Env, n: nat, m: nat, x: string)
    requires n <= m && SemName(env, n, x).Some?
    ensures SemName(env, m, x) == SemName(env, n, x)
    decreases n, 0, 0
  {
    if x !in env.base { SemMono(env, n - 1, m - 1, Initializer(env, x).value); }
  }

  lemma {:induction false} PiecesMono(env: Env, n: nat, m: nat, ps: seq<Piece>)
    requires n <= m && SemPieces(env, n, ps).Some?
    ensures SemPieces(env, m, ps) == SemPieces(env, n, ps)
    decreases n, 1, 0, |ps|
  {
    if ps != [] {
      if ps[0].Var? { NameMono(env, n, m, ps[0].name); }
      PiecesMono(env, n, m, ps[1..]);
    }
  }

  lemma SemUnique(env: Env, n: nat, m: nat, e: Expr)
    requires Sem(env, n, e).Some? && Sem(env, m, e).Some?
    ensures Sem(env, n, e) == Sem(env, m, e)
  {
    if n <= m { SemMono(env, n, m, e); } else { SemMono(env, m, n, e); }
  }

  // ---- What the memo may hold -----------------------------------------------------------------------------

  /** Whatever depth gives x a value gives one to a define that is being evaluated: x cannot be had without it. */
  ghost predicate NameBlocked(env: Env, busy: set<string>, x: string) {
    forall n: nat :: SemName(env, n, x).Some? ==> SomeBusy(env, busy, n)
  }

  ghost predicate Blocked(env: Env, busy: set<string>, e: Expr) {
    forall n: nat :: Sem(env, n, e).Some? ==> SomeBusy(env, busy, n)
  }

  ghost predicate SomeBusy(env: Env, busy: set<string>, n: nat) {
    exists p :: p in busy && SemName(env, n, p).Some?
  }

  /** An entry the evaluator made: the value the name has, or the mark left on a name that has none. */
  ghost predicate EntryOk(env: Env, vm: VarMap, busy: set<string>, x: string)
    requires x in vm
  {
    match vm[x]
    case Some(v) => NameMeans(env, x, v)
    case None => NameBlocked(env, busy, x)
  }

  ghost predicate Consistent(env: Env, vm: VarMap, busy: set<string>) {
    && (forall x | x in env.base :: x in vm && vm[x] == env.base[x])
    && (forall x | x in vm && x !in env.base :: EntryOk(env, vm, busy, x))
  }

  /** Nothing that was in the memo changes. */
  ghost predicate Extends(vm: VarMap, vm1: VarMap) {
    forall x | x in vm :: x in vm1 && vm1[x] == vm[x]
  }

  ghost predicate OnlyValues(vm: VarMap, vm1: VarMap) {
    forall x | x in vm1 && x !in vm :: vm1[x].Some?
  }

  lemma MoreBusy(env: Env, vm: VarMap, busy: set<string>, x: string)
    requires Consistent(env, vm, busy) && x !in vm
    ensures Consistent(env, vm[x := None], busy + {x})
  {
    hide SemName;
    var more := busy + {x};
    forall y | y in vm[x := None] && y !in env.base ensures EntryOk(env, vm[x := None], more, y) {
      if y == x {
        forall n: nat | SemName(env, n, x).Some? ensures SomeBusy(env, more, n) { assert x in more; }
      } else {
        assert EntryOk(env, vm, busy, y);
        if vm[y].None? { BusyGrows(env, busy, more, y); }
      }
    }
  }

  lemma BusyGrows(env: Env, busy: set<string>, more: set<string>, x: string)
    requires busy <= more && NameBlocked(env, busy, x)
    ensures NameBlocked(env, more, x)
  {
    hide SemName;
    forall n: nat | SemName(env, n, x).Some? ensures SomeBusy(env, more, n) {
      assert SomeBusy(env, busy, n);
      var p :| p in busy && SemName(env, n, p).Some?;
      assert p in more;
    }
  }

  /** The least depth that gives a name its value. */
  lemma {:induction false} LeastDepth(env: Env, x: string, n: nat) returns (k: nat)
    requires SemName(env, n, x).Some?
    ensures k <= n && SemName(env, k, x).Some? && forall j: nat :: j < k ==> SemName(env, j, x).None?
  {
    hide SemName;
    k := 0;
    while SemName(env, k, x).None?
      invariant k <= n && forall j: nat :: j < k ==> SemName(env, j, x).None?
      decreases n - k
    {
      k := k + 1;
    }
  }

  /** A name whose initializer is blocked by itself and others is blocked by the others alone: at the least depth
      that could give it a value, its initializer would need itself at a lesser one. */
  lemma SelfNeedless(env: Env, busy: set<string>, x: string, init: Expr)
    requires x !in env.base && Initializer(env, x) == Some(init) && Blocked(env, busy + {x}, init)
    ensures NameBlocked(env, busy, x)
  {
    forall n: nat | SemName(env, n, x).Some? ensures SomeBusy(env, busy, n) {
      var k := LeastDepth(env, x, n);
      Unfolded(env, k, x, init);
      hide SemName, Sem;
      assert SomeBusy(env, busy + {x}, k - 1);
      var p :| p in busy + {x} && SemName(env, k - 1, p).Some?;
      assert p in busy;
      NameMono(env, k - 1, n, p);
    }
  }

  lemma Unfolded(env: Env, n: nat, x: string, init: Expr)
    requires x !in env.base && Initializer(env, x) == Some(init) && SemName(env, n, x).Some?
    ensures n > 0 && Sem(env, n - 1, init) == SemName(env, n, x)
  {
  }

  /** Giving up on x: the marks left behind are blocked by what is still busy. */
  lemma GiveUp(env: Env, vm: VarMap, busy: set<string>, x: string)
    requires Consistent(env, vm, busy + {x}) && NameBlocked(env, busy, x)
    ensures Consistent(env, vm, busy)
  {
    hide SemName;
    forall y | y in vm && y !in env.base ensures EntryOk(env, vm, busy, y) {
      assert EntryOk(env, vm, busy + {x}, y);
      if vm[y].None? {
        forall n: nat | SemName(env, n, y).Some? ensures SomeBusy(env, busy, n) {
          assert SomeBusy(env, busy + {x}, n);
          var p :| p in busy + {x} && SemName(env, n, p).Some?;
          if p == x { assert SomeBusy(env, busy, n); }
        }
      }
    }
  }

  /** Memoising the value of x. */
  lemma Memoise(env: Env, vm0: VarMap, vm: VarMap, busy: set<string>, x: string, v: Value, init: Expr)
    requires Consistent(env, vm0, busy) && Consistent(env, vm, busy + {x}) && x !in vm0
    requires Extends(vm0[x := None], vm) && OnlyValues(vm0[x := None], vm)
    requires Initializer(env, x) == Some(init) && Means(env, init, v)
    ensures Consistent(env, vm[x := Some(v)], busy) && Extends(vm0, vm[x := Some(v)]) && OnlyValues(vm0, vm[x := Some(v)])
    ensures NameMeans(env, x, v)
  {
    assert x !in env.base;
    var n: nat :| Sem(env, n, init) == Some(v);
    assert SemName(env, n + 1, x) == Some(v);
    hide SemName, Sem;
    var vm1 := vm[x := Some(v)];
    forall y | y in vm1 && y !in env.base ensures EntryOk(env, vm1, busy, y) {
      if y != x {
        assert EntryOk(env, vm, busy + {x}, y);
        if y in vm0 { assert EntryOk(env, vm0, busy, y); }
      }
    }
  }

  // ---- Termination ------------------------------------------------------------------------------------------

  predicate Prefixed(k: string, pre: string) {
    |pre| <= |k| && k[..|pre|] == pre
  }

  /** The names some symbol can be found for from a scope. */
  function Within(symbols: map<string, Symbol>, scope: string): set<string> {
    var pre := scope + "::";
    set k | k in symbols && Prefixed(k, pre) :: k[|pre|..]
  }

  function Universe(env: Env): set<string> {
    var sep := LastSep(env.scope, |env.scope|);
    Within(env.symbols, env.scope) + (if sep < 0 then {} else Within(env.symbols, env.scope[..sep]))
  }

  lemma QualifiedWithin(symbols: map<string, Symbol>, scope: string, name: string)
    ensures Qualified(scope, name) in symbols ==> name in Within(symbols, scope)
  {
    var k := Qualified(scope, name);
    assert k == (scope + "::") + name;
    assert Prefixed(k, scope + "::") && k[|scope| + 2..] == name;
  }

  lemma InUniverse(env: Env, name: string)
    ensures Lookup(env, name).Some? ==> name in Universe(env)
  {
    hide Within;
    QualifiedWithin(env.symbols, env.scope, name);
    var sep := LastSep(env.scope, |env.scope|);
    if sep >= 0 { QualifiedWithin(env.symbols, env.scope[..sep], name); }
  }

  /** The names that can still be evaluated for the first time. */
  ghost function Open(env: Env, vm: VarMap): nat {
    |Universe(env) - vm.Keys|
  }

  lemma SubsetSize(a: set<string>, b: set<string>)
    requires a <= b
    ensures |a| <= |b|
    ensures a != b ==> |a| < |b|
  {
    assert b == a + (b - a);
    if a != b { assert b - a != {}; }
  }

  lemma OpenShrinks(env: Env, vm: VarMap, vm1: VarMap)
    requires Extends(vm, vm1)
    ensures Open(env, vm1) <= Open(env, vm)
  {
    hide Universe;
    SubsetSize(Universe(env) - vm1.Keys, Universe(env) - vm.Keys);
  }

  lemma OpenTakes(env: Env, vm: VarMap, x: string)
    requires x !in vm && x in Universe(env)
    ensures Open(env, vm[x := None]) < Open(env, vm)
  {
    hide Universe;
    var a, b := Universe(env) - vm[x := None].Keys, Universe(env) - vm.Keys;
    assert x in b && x !in a;
    SubsetSize(a, b);
  }

  // ---- The evaluator -----------------------------------------------------------------------------------------

  lemma ExtendsStep(a: VarMap, b: VarMap, c: VarMap)
    requires Extends(a, b) && Extends(b, c)
    ensures Extends(a, c)
    ensures OnlyValues(a, b) && OnlyValues(b, c) ==> OnlyValues(a, c)
  {
  }

  /** A part that is blocked blocks the whole. */
  lemma PartBlocks(env: Env, busy: set<string>, part: Expr, whole: Expr)
    requires Blocked(env, busy, part) && forall n: nat :: Sem(env, n, whole).Some? ==> Sem(env, n, part).Some?
    ensures Blocked(env, busy, whole)
  {
    hide Sem, SomeBusy;
  }

  lemma NameIs(env: Env, x: string)
    ensures forall n: nat :: Sem(env, n, Name(x)) == SemName(env, n, x)
  {
  }

  lemma NoInitializer(env: Env, busy: set<string>, x: string)
    requires x !in env.base && Initializer(env, x).None?
    ensures NameBlocked(env, busy, x)
  {
  }

  lemma BaseNone(env: Env, busy: set<string>, x: string)
    requires x in env.base && env.base[x].None?
    ensures NameBlocked(env, busy, x)
  {
  }

  lemma Found(env: Env, vm: VarMap, busy: set<string>, x: string)
    requires Consistent(env, vm, busy) && x in vm
    ensures vm[x].Some? ==> NameMeans(env, x, vm[x].value)
    ensures vm[x].None? ==> NameBlocked(env, busy, x)
  {
    if x in env.base {
      if vm[x].Some? { assert SemName(env, 0, x) == vm[x]; } else { BaseNone(env, busy, x); }
    } else {
      assert EntryOk(env, vm, busy, x);
    }
  }

  lemma UnaryMeans(env: Env, op: UnaryOp, a: Expr, v: Value)
    requires Means(env, a, v)
    ensures ApplyUnary(op, v).Some? ==> Means(env, Unary(op, a), ApplyUnary(op, v).value)
    ensures ApplyUnary(op, v).None? ==> forall n: nat :: Sem(env, n, Unary(op, a)).None?
  {
    var n: nat :| Sem(env, n, a) == Some(v);
    if ApplyUnary(op, v).Some? {
      assert Sem(env, n, Unary(op, a)) == ApplyUnary(op, v);
    } else {
      forall m: nat ensures Sem(env, m, Unary(op, a)).None? {
        if Sem(env, m, a).Some? { SemUnique(env, n, m, a); }
      }
    }
  }

  lemma BinaryMeans(env: Env, op: BinaryOp, a: Expr, b: Expr, v: Value, w: Value)
    requires Means(env, a, v) && Means(env, b, w)
    ensures var r := ApplyBinary(env.lib, op, v, w);
      && (r.Some? ==> Means(env, Binary(op, a, b), r.value))
      && (r.None? ==> forall n: nat :: Sem(env, n, Binary(op, a, b)).None?)
  {
    hide ApplyBinary;
    var n: nat :| Sem(env, n, a) == Some(v);
    var m: nat :| Sem(env, m, b) == Some(w);
    var r := ApplyBinary(env.lib, op, v, w);
    if r.Some? {
      var k := if n <= m then m else n;
      SemMono(env, n, k, a);
      SemMono(env, m, k, b);
      assert Sem(env, k, Binary(op, a, b)) == r;
    } else {
      forall k: nat ensures Sem(env, k, Binary(op, a, b)).None? {
        if Sem(env, k, a).Some? { SemUnique(env, n, k, a); }
        if Sem(env, k, b).Some? { SemUnique(env, m, k, b); }
      }
    }
  }

  lemma ConditionMeans(env: Env, c: Expr, a: Expr, b: Expr, v: Value)
    requires Means(env, c, v)
    ensures !v.BoolV? ==> forall n: nat :: Sem(env, n, Conditional(c, a, b)).None?
    ensures v.BoolV? ==>
      var e := if v.b then a else b;
      && (forall n: nat :: Sem(env, n, Conditional(c, a, b)).Some? ==> Sem(env, n, e).Some?)
      && (forall w :: Means(env, e, w) ==> Means(env, Conditional(c, a, b), w))
  {
    var n: nat :| Sem(env, n, c) == Some(v);
    var e := if v.BoolV? && v.b then a else b;
    forall k: nat ensures Sem(env, k, Conditional(c, a, b)).Some? ==> v.BoolV? && Sem(env, k, e).Some? {
      if Sem(env, k, c).Some? { SemUnique(env, n, k, c); }
    }
    if v.BoolV? {
      forall w | Means(env, e, w) ensures Means(env, Conditional(c, a, b), w) {
        var m: nat :| Sem(env, m, e) == Some(w);
        var k := if n <= m then m else n;
        SemMono(env, n, k, c);
        SemMono(env, m, k, e);
        assert Sem(env, k, Conditional(c, a, b)) == Some(w);
      }
    }
  }

  lemma NeverBlocked(env: Env, busy: set<string>, e: Expr)
    requires forall n: nat :: Sem(env, n, e).None?
    ensures Blocked(env, busy, e)
  {
    hide Sem;
  }

  /** A piece stands for the text t. */
  ghost predicate PieceMeans(env: Env, p: Piece, t: string) {
    if p.Lit? then t == [p.c] else exists v :: NameMeans(env, p.name, v) && t == Show(env.lib, v)
  }

  lemma PiecesMeans(env: Env, ps: seq<Piece>, s: string, p: Piece, t: string)
    requires exists n :: SemPieces(env, n, ps) == Some(s)
    requires PieceMeans(env, p, t)
    ensures exists n :: SemPieces(env, n, ps + [p]) == Some(s + t)
  {
    hide Show;
    var n: nat :| SemPieces(env, n, ps) == Some(s);
    var k := n;
    if p.Var? {
      var v :| NameMeans(env, p.name, v) && t == Show(env.lib, v);
      var m: nat :| SemName(env, m, p.name) == Some(v);
      k := if n <= m then m else n;
      NameMono(env, m, k, p.name);
    }
    PiecesMono(env, n, k, ps);
    PieceText(env, k, p, t);
    PiecesAppend(env, k, ps, p);
    assert SemPieces(env, k, ps + [p]) == Some(s + t);
  }

  lemma PieceText(env: Env, n: nat, p: Piece, t: string)
    requires p.Lit? ==> t == [p.c]
    requires p.Var? ==> SemName(env, n, p.name).Some? && t == Show(env.lib, SemName(env, n, p.name).value)
    ensures SemPieces(env, n, [p]) == Some(t)
  {
    hide Show;
    assert [p][1..] == [];
    assert SemPieces(env, n, []) == Some("");
    assert t + "" == t;
  }

  lemma {:induction false} PiecesAppend(env: Env, n: nat, ps: seq<Piece>, p: Piece)
    ensures SemPieces(env, n, ps + [p]) ==
      var a, b := SemPieces(env, n, ps), SemPieces(env, n, [p]);
      if a.None? || b.None? then None else Some(a.value + b.value)
  {
    hide Show;
    if ps == [] {
      assert [] + [p] == [p];
      var b := SemPieces(env, n, [p]);
      if b.Some? { assert "" + b.value == b.value; }
    } else {
      PiecesAppend(env, n, ps[1..], p);
      assert (ps + [p])[1..] == ps[1..] + [p] && (ps + [p])[0] == ps[0];
      var a, b := SemPieces(env, n, ps[1..]), SemPieces(env, n, [p]);
      if a.Some? && b.Some? && SemPieces(env, n, ps).Some? {
        var h := SemPieces(env, n, ps).value;
        var front := h[..|h| - |a.value|];
        assert h == front + a.value;
        assert (front + a.value) + b.value == front + (a.value + b.value);
      }
    }
  }

  ghost predicate FormatMeans(env: Env, ps: seq<Piece>, s: string) {
    exists n :: SemPieces(env, n, ps) == Some(s)
  }

  lemma FormatNone(env: Env)
    ensures FormatMeans(env, [], "")
  {
    assert SemPieces(env, 0, []) == Some("");
  }

  /** A scan that has come to position i with the pieces before it. */
  ghost predicate ScannedTo(text: string, i: nat, ps: seq<Piece>)
    requires i <= |text|
  {
    Pieces(text, 0) == (var rest := Pieces(text, i); if rest.None? then None else Some(ps + rest.value))
  }

  lemma ScanStep(text: string, i: nat, ps: seq<Piece>)
    requires i < |text| && ScannedTo(text, i, ps)
    ensures ScanAt(text, i).None? ==> Pieces(text, 0).None?
    ensures ScanAt(text, i).Some? ==> ScannedTo(text, ScanAt(text, i).value.next, ps + [ScanAt(text, i).value.piece])
  {
    hide ScanAt;
    var r := ScanAt(text, i);
    if r.Some? {
      var rest := Pieces(text, r.value.next);
      if rest.Some? { assert ps + ([r.value.piece] + rest.value) == (ps + [r.value.piece]) + rest.value; }
    }
  }

  /** A well-formed text that contains a name that is blocked is blocked itself. */
  lemma VarBlocks(env: Env, busy: set<string>, text: string, i: nat, ps: seq<Piece>, x: string)
    requires i < |text| && ScannedTo(text, i, ps) && ScanAt(text, i).Some? && ScanAt(text, i).value.piece == Var(x)
    requires NameBlocked(env, busy, x)
    ensures Blocked(env, busy, Format(text))
  {
    hide SomeBusy, ScanAt, Pieces;
    ScanStep(text, i, ps);
    var more := ps + [Var(x)];
    assert more[|ps|] == Var(x);
    forall n: nat | Sem(env, n, Format(text)).Some? ensures SomeBusy(env, busy, n) {
      ScannedPrefix(text, ScanAt(text, i).value.next, more);
      VarNeeded(env, n, Pieces(text, 0).value, |ps|);
    }
  }

  lemma ScannedPrefix(text: string, i: nat, ps: seq<Piece>)
    requires i <= |text| && ScannedTo(text, i, ps) && Pieces(text, 0).Some?
    ensures ps <= Pieces(text, 0).value
  {
    hide Pieces;
  }

  lemma {:induction false} VarNeeded(env: Env, n: nat, ps: seq<Piece>, k: nat)
    requires SemPieces(env, n, ps).Some? && k < |ps| && ps[k].Var?
    ensures SemName(env, n, ps[k].name).Some?
  {
    hide SemName;
    if k > 0 { VarNeeded(env, n, ps[1..], k - 1); }
  }

  class Evaluator {
    const symbols: map<string, Symbol>
    const lib: Library
    var varmap: VarMap

    constructor (symbols: map<string, Symbol>, lib: Library, varmap: VarMap)
      ensures this.symbols == symbols && this.lib == lib && this.varmap == varmap
      ensures forall scope :: Ready(Env(symbols, scope, varmap, lib), scope, {})
    {
      this.symbols, this.lib, this.varmap := symbols, lib, varmap;
    }

    /** env is what this evaluator evaluates in, seen from a scope. */
    ghost predicate In(env: Env, scope: string) {
      env.symbols == symbols && env.lib == lib && env.scope == scope
    }

    ghost predicate Ready(env: Env, scope: string, busy: set<string>)
      reads this
    {
      In(env, scope) && Consistent(env, varmap, busy)
    }

    /** What every evaluation keeps, whether it succeeds or not. */
    twostate predicate Kept(env: Env, busy: set<string>, ok: bool)
      reads this
    {
      && Extends(old(varmap), varmap) && Consistent(env, varmap, busy)
      && (ok ==> OnlyValues(old(varmap), varmap))
    }

    method Evaluate(scope: string, e: Expr, ghost env: Env, ghost busy: set<string>) returns (r: Option<Value>)
      requires Ready(env, scope, busy)
      modifies this
      ensures Kept(env, busy, r.Some?)
      ensures r.Some? ==> Means(env, e, r.value)
      ensures r.None? ==> Blocked(env, busy, e)
      decreases Open(env, varmap), Size(e), 2
    {
      hide Sem, Means, Blocked, Consistent, Extends, OnlyValues, Open, Universe, NameBlocked, NameMeans;
      ghost var vm0 := varmap;
      ExtendsSelf(vm0);
      match e
      case Literal(v) =>
        LiteralMeans(env, v);
        r := Some(v);
      case Format(text) =>
        r := EvaluateFormat(scope, text, env, busy);
      case Name(x) =>
        r := RetrieveValue(scope, x, env, busy);
        NameIs(env, x);
        NameAsExpr(env, busy, x);
      case Unary(op, a) =>
        r := EvaluateUnary(scope, op, a, env, busy);
      case Binary(op, a, b) =>
        r := EvaluateBinary(scope, op, a, b, env, busy);
      case Conditional(c, a, b) =>
        r := EvaluateConditional(scope, c, a, b, env, busy);
      case Paren(a) =>
        r := Evaluate(scope, a, env, busy);
        ParenMeans(env, busy, a);
      case VocabOnly =>
        VocabMeans(env);
        NeverBlocked(env, busy, e);
        r := None;
    }

    method EvaluateUnary(scope: string, op: UnaryOp, a: Expr, ghost env: Env, ghost busy: set<string>) returns (r: Option<Value>)
      requires Ready(env, scope, busy)
      modifies this
      ensures Kept(env, busy, r.Some?)
      ensures r.Some? ==> Means(env, Unary(op, a), r.value)
      ensures r.None? ==> Blocked(env, busy, Unary(op, a))
      decreases Open(env, varmap), Size(Unary(op, a)), 1
    {
      hide Means, Blocked, Consistent, Extends, OnlyValues, Open, Universe;
      var v := Evaluate(scope, a, env, busy);
      if v.None? {
        PartBlocks(env, busy, a, Unary(op, a));
        return None;
      }
      hide Sem;
      UnaryMeans(env, op, a, v.value);
      r := ApplyUnary(op, v.value);
      if r.None? { NeverBlocked(env, busy, Unary(op, a)); }
    }

    method EvaluateBinary(scope: string, op: BinaryOp, a: Expr, b: Expr, ghost env: Env, ghost busy: set<string>)
      returns (r: Option<Value>)
      requires Ready(env, scope, busy)
      modifies this
      ensures Kept(env, busy, r.Some?)
      ensures r.Some? ==> Means(env, Binary(op, a, b), r.value)
      ensures r.None? ==> Blocked(env, busy, Binary(op, a, b))
      decreases Open(env, varmap), Size(Binary(op, a, b)), 1
    {
      hide Means, Blocked, Consistent, Extends, OnlyValues, Open, Universe, ApplyBinary;
      ghost var vm0 := varmap;
      BinaryParts(env, op, a, b);
      hide Sem;
      var lhs := Evaluate(scope, a, env, busy);
      if lhs.None? {
        PartBlocks(env, busy, a, Binary(op, a, b));
        return None;
      }
      ghost var vm1 := varmap;
      OpenShrinks(env, vm0, vm1);
      var rhs := Evaluate(scope, b, env, busy);
      ExtendsStep(vm0, vm1, varmap);
      if rhs.None? {
        PartBlocks(env, busy, b, Binary(op, a, b));
        return None;
      }
      BinaryMeans(env, op, a, b, lhs.value, rhs.value);
      r := ApplyBinary(lib, op, lhs.value, rhs.value);
      if r.None? { NeverBlocked(env, busy, Binary(op, a, b)); }
    }

    method EvaluateConditional(scope: string, c: Expr, a: Expr, b: Expr, ghost env: Env, ghost busy: set<string>)
      returns (r: Option<Value>)
      requires Ready(env, scope, busy)
      modifies this
      ensures Kept(env, busy, r.Some?)
      ensures r.Some? ==> Means(env, Conditional(c, a, b), r.value)
      ensures r.None? ==> Blocked(env, busy, Conditional(c, a, b))
      decreases Open(env, varmap), Size(Conditional(c, a, b)), 1
    {
      hide Means, Blocked, Consistent, Extends, OnlyValues, Open, Universe;
      ghost var vm0 := varmap;
      ConditionalPart(env, c, a, b);
      hide Sem;
      var v := Evaluate(scope, c, env, busy);
      if v.None? {
        PartBlocks(env, busy, c, Conditional(c, a, b));
        return None;
      }
      ConditionMeans(env, c, a, b, v.value);
      if !v.value.BoolV? {
        NeverBlocked(env, busy, Conditional(c, a, b));
        return None;
      }
      ghost var vm1 := varmap;
      OpenShrinks(env, vm0, vm1);
      r := Evaluate(scope, if v.value.b then a else b, env, busy);
      ExtendsStep(vm0, vm1, varmap);
      if r.None? { PartBlocks(env, busy, if v.value.b then a else b, Conditional(c, a, b)); }
    }

    /** Format strings are scanned from left to right, and each name is looked up as it is met. */
    method EvaluateFormat(scope: string, text: string, ghost env: Env, ghost busy: set<string>) returns (r: Option<Value>)
      requires Ready(env, scope, busy)
      modifies this
      ensures Kept(env, busy, r.Some?)
      ensures r.Some? ==> Means(env, Format(text), r.value)
      ensures r.None? ==> Blocked(env, busy, Format(text))
      decreases Open(env, varmap), 1, 1
    {
      hide Means, Blocked, Consistent, Extends, OnlyValues, Open, Universe, ScannedTo, Pieces, Sem, FormatMeans, Show;
      ghost var vm0 := varmap;
      ExtendsSelf(vm0);
      var result := "";
      ghost var ps: seq<Piece> := [];
      var i := 0;
      FormatNone(env);
      ScanStart(text);
      while i < |text|
        invariant i <= |text| && ScannedTo(text, i, ps) && FormatMeans(env, ps, result)
        invariant Extends(vm0, varmap) && OnlyValues(vm0, varmap) && Consistent(env, varmap, busy)
        decreases |text| - i
      {
        ScanStep(text, i, ps);
        var scan := ScanPiece(text, i);
        if scan.None? {
          FormatBroken(env, text);
          NeverBlocked(env, busy, Format(text));
          return None;
        }
        ghost var vm1 := varmap;
        OpenShrinks(env, vm0, vm1);
        var t := "";
        match scan.value.piece {
          case Lit(c) => t := [c];
          case Var(x) =>
            var v := RetrieveValue(scope, x, env, busy);
            ExtendsStep(vm0, vm1, varmap);
            if v.None? {
              VarBlocks(env, busy, text, i, ps, x);
              return None;
            }
            t := Show(lib, v.value);
        }
        FormatStep(env, ps, result, scan.value.piece, t);
        ps, result, i := ps + [scan.value.piece], result + t, scan.value.next;
      }
      FormatEnd(env, text, ps, result);
      return Some(StrV(result));
    }

    /** retrieve_value: from the memo, else by evaluating the initializer while the name is marked. The name is
        looked up in the scope and then in the one around it; a mark that is found, left by a cycle or by an
        earlier failure, is an error. */
    method RetrieveValue(scope: string, x: string, ghost env: Env, ghost busy: set<string>) returns (r: Option<Value>)
      requires Ready(env, scope, busy)
      modifies this
      ensures Kept(env, busy, r.Some?)
      ensures r.Some? ==> NameMeans(env, x, r.value)
      ensures r.None? ==> NameBlocked(env, busy, x)
      decreases Open(env, varmap), 1, 0
    {
      hide Means, Blocked, Consistent, Extends, OnlyValues, Open, Universe, NameMeans, NameBlocked, Sem, SemName;
      ghost var vm0 := varmap;
      ExtendsSelf(vm0);
      if x in varmap {
        Found(env, varmap, busy, x);
        return varmap[x];
      }
      NotInBase(env, varmap, busy, x);
      var key := Qualified(scope, x);
      if key !in symbols {
        var sep := LastSep(scope, |scope|);
        if sep >= 0 { key := Qualified(scope[..sep], x); }
        if key !in symbols {
          NoInitializer(env, busy, x);
          return None;
        }
      }
      var sym := symbols[key];
      InUniverse(env, x);
      if !sym.DefineSymbol? || sym.kind == Vocab || sym.init.None? {
        NoInitializer(env, busy, x);
        return None;
      }
      MoreBusy(env, varmap, busy, x);
      OpenTakes(env, varmap, x);
      varmap := varmap[x := None];
      ghost var vm1 := varmap;
      r := Evaluate(scope, sym.init.value, env, busy + {x});
      if r.None? {
        SelfNeedless(env, busy, x, sym.init.value);
        GiveUp(env, varmap, busy, x);
        ExtendsPast(vm0, x, varmap);
        return None;
      }
      Memoise(env, vm0, varmap, busy, x, r.value, sym.init.value);
      varmap := varmap[x := Some(r.value)];
    }

    /** evaluate_expression, with nothing under evaluation: it succeeds exactly when the expression has a value
        without any memo, and returns that value; and the memo it leaves is as good as the one it found. */
    method EvaluateExpression(scope: string, e: Expr, ghost env: Env) returns (r: Option<Value>)
      requires Ready(env, scope, {})
      modifies this
      ensures r.Some? <==> exists v :: Means(env, e, v)
      ensures r.Some? ==> Means(env, e, r.value)
      ensures Ready(env, scope, {}) && Extends(old(varmap), varmap)
    {
      hide Consistent, Extends, Sem;
      r := Evaluate(scope, e, env, {});
      if r.None? {
        forall v ensures !Means(env, e, v) {
          forall n: nat ensures Sem(env, n, e) != Some(v) {
            assert !SomeBusy(env, {}, n);
          }
        }
      }
    }
  }

  lemma ExtendsSelf(vm: VarMap)
    ensures Extends(vm, vm) && OnlyValues(vm, vm)
  {
  }

  lemma ExtendsPast(vm0: VarMap, x: string, vm: VarMap)
    requires x !in vm0 && Extends(vm0[x := None], vm)
    ensures Extends(vm0, vm)
  {
  }

  lemma LiteralMeans(env: Env, v: Value)
    ensures Means(env, Literal(v), v)
  {
    assert Sem(env, 0, Literal(v)) == Some(v);
  }

  lemma NameAsExpr(env: Env, busy: set<string>, x: string)
    ensures forall v :: NameMeans(env, x, v) ==> Means(env, Name(x), v)
    ensures NameBlocked(env, busy, x) ==> Blocked(env, busy, Name(x))
  {
    NameIs(env, x);
    hide SemName, Sem;
    forall v | NameMeans(env, x, v) ensures Means(env, Name(x), v) {
      var n: nat :| SemName(env, n, x) == Some(v);
      assert Sem(env, n, Name(x)) == Some(v);
    }
  }

  lemma ParenMeans(env: Env, busy: set<string>, a: Expr)
    ensures forall v :: Means(env, a, v) ==> Means(env, Paren(a), v)
    ensures Blocked(env, busy, a) ==> Blocked(env, busy, Paren(a))
  {
    assert forall n: nat :: Sem(env, n, Paren(a)) == Sem(env, n, a);
    hide Sem;
    forall v | Means(env, a, v) ensures Means(env, Paren(a), v) {
      var n: nat :| Sem(env, n, a) == Some(v);
      assert Sem(env, n, Paren(a)) == Some(v);
    }
  }

  lemma VocabMeans(env: Env)
    ensures forall n: nat :: Sem(env, n, VocabOnly).None?
  {
  }

  lemma BinaryParts(env: Env, op: BinaryOp, a: Expr, b: Expr)
    ensures forall n: nat :: Sem(env, n, Binary(op, a, b)).Some? ==> Sem(env, n, a).Some? && Sem(env, n, b).Some?
  {
  }

  lemma ConditionalPart(env: Env, c: Expr, a: Expr, b: Expr)
    ensures forall n: nat :: Sem(env, n, Conditional(c, a, b)).Some? ==> Sem(env, n, c).Some?
  {
  }

  lemma ScanStart(text: string)
    ensures ScannedTo(text, 0, [])
  {
    var ps := Pieces(text, 0);
    if ps.Some? { assert [] + ps.value == ps.value; }
  }

  lemma FormatBroken(env: Env, text: string)
    requires Pieces(text, 0).None?
    ensures forall n: nat :: Sem(env, n, Format(text)).None?
  {
  }

  lemma FormatStep(env: Env, ps: seq<Piece>, s: string, p: Piece, t: string)
    requires FormatMeans(env, ps, s) && PieceMeans(env, p, t)
    ensures FormatMeans(env, ps + [p], s + t)
  {
    PiecesMeans(env, ps, s, p, t);
  }

  lemma FormatEnd(env: Env, text: string, ps: seq<Piece>, s: string)
    requires ScannedTo(text, |text|, ps) && FormatMeans(env, ps, s)
    ensures Means(env, Format(text), StrV(s))
  {
    assert Pieces(text, |text|) == Some([]);
    assert ps + [] == ps;
    var n: nat :| SemPieces(env, n, ps) == Some(s);
    assert Sem(env, n, Format(text)) == Some(StrV(s));
  }

  lemma NotInBase(env: Env, vm: VarMap, busy: set<string>, x: string)
    requires Consistent(env, vm, busy) && x !in vm
    ensures x !in env.base
  {
  }
}
