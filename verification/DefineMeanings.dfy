/** What the value of an expression is made of, construct by construct, without a memo and without counting how deep defines
    are unfolded. With the laws of the operators this settles every value the evaluator returns. */
module DefineMeanings {
  import opened Schema
  import opened Expressions
  import opened ExpressionLaws
  import opened DefineEvaluator

  // ---- Names --------------------------------------------------------------------------------------------------

  /** In a scope within another a name is looked up there, then in the one around it, and no further. */
  lemma LookupNested(env: Env, outer: string, inner: string, name: string)
    requires env.scope == outer + "::" + inner && ':' !in inner
    ensures Lookup(env, name) ==
      var here, there := env.scope + "::" + name, outer + "::" + name;
      if here in env.symbols then Some(env.symbols[here])
      else if there in env.symbols then Some(env.symbols[there])
      else None
  {
    var s := env.scope;
    var i := LastSep(s, |s|);
    assert s[|outer|] == ':' && s[|outer|+1] == ':';
    assert SepAt(s, |outer|);
    assert forall k :: 0 <= k < |inner| ==> s[|outer| + 2 + k] == inner[k] && inner[k] in inner;
    assert forall k :: |outer| + 2 <= k < |s| ==> s[k] == inner[k - |outer| - 2];
    assert i == |outer|;
    assert s[..i] == outer;
  }

  lemma LookupTop(env: Env, name: string)
    requires ':' !in env.scope
    ensures Lookup(env, name) ==
      var here := env.scope + "::" + name;
      if here in env.symbols then Some(env.symbols[here]) else None
  {
    var i := LastSep(env.scope, |env.scope|);
    assert i < 0;
  }

  /** The name stands for a define or an argument with that initializer; a vocabulary is no value. */
  ghost predicate Bound(env: Env, x: string, init: Expr) {
    exists kind :: kind != Vocab && Lookup(env, x) == Some(DefineSymbol(kind, Some(init)))
  }

  lemma BoundInitializer(env: Env, x: string, init: Expr)
    ensures Bound(env, x, init) <==> Initializer(env, x) == Some(init)
  {
    hide Lookup;
    if Initializer(env, x) == Some(init) {
      assert Lookup(env, x) == Some(DefineSymbol(Lookup(env, x).value.kind, Some(init)));
    }
  }

  /** A name that is given has the value given, if that is one; any other has that of its initializer. */
  lemma NameValue(env: Env, x: string, v: Value)
    ensures Means(env, Name(x), v) <==> NameMeans(env, x, v)
    ensures NameMeans(env, x, v) <==>
      if x in env.base then env.base[x] == Some(v) else exists init :: Bound(env, x, init) && Means(env, init, v)
  {
    NameUnfolds(env, x);
    hide Sem, SemName, Bound, Initializer;
    if n: nat :| Sem(env, n, Name(x)) == Some(v) { assert SemName(env, n, x) == Some(v); }
    if n: nat :| SemName(env, n, x) == Some(v) {
      assert Sem(env, n, Name(x)) == Some(v);
      if x !in env.base {
        BoundInitializer(env, x, Initializer(env, x).value);
        assert Means(env, Initializer(env, x).value, v);
      }
    }
    if x in env.base { assert SemName(env, 0, x) == env.base[x]; }
    if x !in env.base {
      if init :| Bound(env, x, init) && Means(env, init, v) {
        BoundInitializer(env, x, init);
        var n: nat :| Sem(env, n, init) == Some(v);
        assert SemName(env, n + 1, x) == Sem(env, n, init);
      }
    }
  }

  lemma NameUnfolds(env: Env, x: string)
    ensures forall n: nat :: Sem(env, n, Name(x)) == SemName(env, n, x)
    ensures x in env.base ==> forall n: nat :: SemName(env, n, x) == env.base[x]
    ensures x !in env.base ==> forall n: nat :: SemName(env, n, x).Some? ==>
      n > 0 && Initializer(env, x).Some? && SemName(env, n, x) == Sem(env, n - 1, Initializer(env, x).value)
    ensures x !in env.base && Initializer(env, x).Some? ==>
      forall n: nat :: SemName(env, n + 1, x) == Sem(env, n, Initializer(env, x).value)
  {
    hide Initializer;
  }

  // ---- Operators, conditionals, parentheses ---------------------------------------------------------------------

  lemma LiteralValue(env: Env, v: Value, w: Value)
    ensures Means(env, Literal(v), w) <==> w == v
    ensures !Means(env, VocabOnly, w)
  {
    assert Sem(env, 0, Literal(v)) == Some(v);
  }

  lemma ParenValue(env: Env, a: Expr, w: Value)
    ensures Means(env, Paren(a), w) <==> Means(env, a, w)
  {
    assert forall n: nat :: Sem(env, n, Paren(a)) == Sem(env, n, a);
  }

  ghost predicate UnaryFrom(env: Env, op: UnaryOp, a: Expr, w: Value) {
    exists v :: Means(env, a, v) && ApplyUnary(op, v) == Some(w)
  }

  lemma UnaryValue(env: Env, op: UnaryOp, a: Expr, w: Value)
    ensures Means(env, Unary(op, a), w) <==> UnaryFrom(env, op, a, w)
  {
    hide ApplyUnary;
    if n: nat :| Sem(env, n, Unary(op, a)) == Some(w) {
      var v := Sem(env, n, a).value;
      assert Means(env, a, v) && ApplyUnary(op, v) == Some(w);
    }
    if v :| Means(env, a, v) && ApplyUnary(op, v) == Some(w) { UnaryMeans(env, op, a, v); }
  }

  ghost predicate BinaryFrom(env: Env, op: BinaryOp, a: Expr, b: Expr, w: Value) {
    exists v, u :: Means(env, a, v) && Means(env, b, u) && ApplyBinary(env.lib, op, v, u) == Some(w)
  }

  /** Both operands need a value, also of a logical operator. */
  lemma BinaryValue(env: Env, op: BinaryOp, a: Expr, b: Expr, w: Value)
    ensures Means(env, Binary(op, a, b), w) <==> BinaryFrom(env, op, a, b, w)
  {
    hide ApplyBinary;
    if n: nat :| Sem(env, n, Binary(op, a, b)) == Some(w) {
      var v, u := Sem(env, n, a).value, Sem(env, n, b).value;
      assert Means(env, a, v) && Means(env, b, u);
    }
    if v, u :| Means(env, a, v) && Means(env, b, u) && ApplyBinary(env.lib, op, v, u) == Some(w) {
      BinaryMeans(env, op, a, b, v, u);
    }
  }

  /** Only the branch taken needs a value. */
  lemma ConditionalValue(env: Env, c: Expr, a: Expr, b: Expr, w: Value)
    ensures Means(env, Conditional(c, a, b), w) <==>
      (Means(env, c, BoolV(true)) && Means(env, a, w)) || (Means(env, c, BoolV(false)) && Means(env, b, w))
  {
    if n: nat :| Sem(env, n, Conditional(c, a, b)) == Some(w) {
      var v := Sem(env, n, c).value;
      var e := if v.b then a else b;
      assert Sem(env, n, c) == Some(v) && Sem(env, n, e) == Some(w);
      assert Means(env, c, v) && Means(env, e, w);
    }
    hide Sem;
    if Means(env, c, BoolV(true)) { ConditionMeans(env, c, a, b, BoolV(true)); }
    if Means(env, c, BoolV(false)) { ConditionMeans(env, c, a, b, BoolV(false)); }
  }

  // ---- Format strings -----------------------------------------------------------------------------------------

  /** The text is made of what the pieces stand for, in their order. */
  ghost predicate Fills(env: Env, ps: seq<Piece>, s: string)
    decreases |ps|
  {
    if ps == [] then s == ""
    else exists k :: 0 <= k <= |s| && PieceMeans(env, ps[0], s[..k]) && Fills(env, ps[1..], s[k..])
  }

  ghost predicate Formatted(env: Env, ps: seq<Piece>, s: string) {
    exists n :: SemPieces(env, n, ps) == Some(s)
  }

  lemma FirstPiece(env: Env, n: nat, ps: seq<Piece>, s: string) returns (k: nat)
    requires ps != [] && SemPieces(env, n, ps) == Some(s)
    ensures k <= |s| && PieceMeans(env, ps[0], s[..k]) && SemPieces(env, n, ps[1..]) == Some(s[k..])
  {
    hide Show;
    var rest := SemPieces(env, n, ps[1..]).value;
    k := |s| - |rest|;
    assert s == s[..k] + s[k..];
    if ps[0].Var? { assert NameMeans(env, ps[0].name, SemName(env, n, ps[0].name).value); }
  }

  lemma JoinPiece(env: Env, p: Piece, ps: seq<Piece>, t: string, s: string)
    requires PieceMeans(env, p, t) && Formatted(env, ps, s)
    ensures Formatted(env, [p] + ps, t + s)
  {
    hide Show;
    var n: nat :| SemPieces(env, n, ps) == Some(s);
    var k := n;
    if p.Var? {
      var v :| NameMeans(env, p.name, v) && t == Show(env.lib, v);
      var m: nat :| SemName(env, m, p.name) == Some(v);
      k := if n <= m then m else n;
      NameMono(env, m, k, p.name);
    }
    PiecesMono(env, n, k, ps);
    assert ([p] + ps)[1..] == ps;
    assert SemPieces(env, k, [p] + ps) == Some(t + s);
  }

  lemma {:induction false} FillsIs(env: Env, ps: seq<Piece>, s: string)
    ensures Formatted(env, ps, s) <==> Fills(env, ps, s)
    decreases |ps|
  {
    hide SemPieces, PieceMeans;
    if ps == [] {
      NoPieces(env, s);
    } else {
      if n: nat :| SemPieces(env, n, ps) == Some(s) {
        var k := FirstPiece(env, n, ps, s);
        FillsIs(env, ps[1..], s[k..]);
      }
      if Fills(env, ps, s) {
        var k :| 0 <= k <= |s| && PieceMeans(env, ps[0], s[..k]) && Fills(env, ps[1..], s[k..]);
        FillsIs(env, ps[1..], s[k..]);
        JoinPiece(env, ps[0], ps[1..], s[..k], s[k..]);
        assert [ps[0]] + ps[1..] == ps && s[..k] + s[k..] == s;
      }
    }
  }

  lemma NoPieces(env: Env, s: string)
    ensures Formatted(env, [], s) <==> s == ""
  {
    assert SemPieces(env, 0, []) == Some("");
  }

  /** The text is written as the pieces ps, which make s. */
  ghost predicate Spells(env: Env, text: string, ps: seq<Piece>, s: string) {
    text == WrittenAll(ps) && Proper(ps) && Fills(env, ps, s)
  }

  /** A format string has a value exactly if it is properly written and every name in it has one: the characters and the
      values of the names, in order. */
  lemma FormatValue(env: Env, text: string, w: Value)
    ensures Means(env, Format(text), w) <==> w.StrV? && exists ps :: Spells(env, text, ps, w.s)
  {
    hide SemPieces, Fills, WrittenAll, Proper, Pieces;
    assert text[0..] == text;
    if n: nat :| Sem(env, n, Format(text)) == Some(w) {
      var ps := Pieces(text, 0).value;
      FormatSpelled(text, 0, ps);
      assert SemPieces(env, n, ps) == Some(w.s);
      FillsIs(env, ps, w.s);
      assert Spells(env, text, ps, w.s);
    }
    if w.StrV? {
      if ps :| Spells(env, text, ps, w.s) {
        FormatSpelled(text, 0, ps);
        FillsIs(env, ps, w.s);
        var n: nat :| SemPieces(env, n, ps) == Some(w.s);
        assert Sem(env, n, Format(text)) == Some(w);
      }
    }
  }

  /** How a value is rendered within a text: a text as it is, truth values by name, numbers by the library. */
  lemma Rendered(lib: Library, s: string, i: int, f: real)
    ensures Show(lib, StrV(s)) == s && Show(lib, BoolV(true)) == "true" && Show(lib, BoolV(false)) == "false"
    ensures Show(lib, IntV(i)) == lib.showInt(i) && Show(lib, FloatV(f)) == lib.showFloat(f)
  {
  }
}
