/** What the operators of the expression language mean, as laws that do not mention how they are computed. */
module ExpressionLaws {
  import opened Schema
  import opened Expressions

  function Int(lib: Library, op: BinaryOp, a: int, b: int): Option<Value> {
    ApplyBinary(lib, op, IntV(a), IntV(b))
  }

  function Float(lib: Library, op: BinaryOp, a: real, b: real): Option<Value> {
    ApplyBinary(lib, op, FloatV(a), FloatV(b))
  }

  function IsInt(v: Option<Value>): Option<int> {
    if v.Some? && v.value.IntV? then Some(v.value.i) else None
  }

  function IsFloat(v: Option<Value>): Option<real> {
    if v.Some? && v.value.FloatV? then Some(v.value.f) else None
  }

  function IsBool(v: Option<Value>): Option<bool> {
    if v.Some? && v.value.BoolV? then Some(v.value.b) else None
  }

  // ---- Sums and differences -----------------------------------------------------------------------------------

  /** On integers: 0 is neutral, the successor of an operand gives the successor of the sum, subtraction undoes addition, and
      negation is subtraction from 0. */
  lemma IntSums(lib: Library, a: int, b: int)
    ensures Int(lib, Add, a, 0) == Some(IntV(a)) && Int(lib, Add, 0, a) == Some(IntV(a))
    ensures Int(lib, Add, a, b).Some? && Int(lib, Add, a, b).value.IntV?
    ensures Int(lib, Add, a, b + 1) == Some(IntV(Int(lib, Add, a, b).value.i + 1))
    ensures ApplyBinary(lib, Sub, Int(lib, Add, a, b).value, IntV(b)) == Some(IntV(a))
    ensures Int(lib, Sub, a, b).Some? && ApplyBinary(lib, Add, Int(lib, Sub, a, b).value, IntV(b)) == Some(IntV(a))
    ensures ApplyUnary(Neg, IntV(a)) == Int(lib, Sub, 0, a)
  {
  }

  /** On floats: 0 is neutral, the sum moves with its operands, and the rest is as for integers. */
  lemma FloatSums(lib: Library, a: real, b: real, d: real)
    ensures Float(lib, Add, a, 0.0) == Some(FloatV(a)) && Float(lib, Add, 0.0, a) == Some(FloatV(a))
    ensures Float(lib, Add, a, b).Some? && Float(lib, Add, a, b).value.FloatV?
    ensures Float(lib, Add, a, b + d) == Some(FloatV(Float(lib, Add, a, b).value.f + d))
    ensures ApplyBinary(lib, Sub, Float(lib, Add, a, b).value, FloatV(b)) == Some(FloatV(a))
    ensures Float(lib, Sub, a, b).Some? && ApplyBinary(lib, Add, Float(lib, Sub, a, b).value, FloatV(b)) == Some(FloatV(a))
    ensures ApplyUnary(Neg, FloatV(a)) == Float(lib, Sub, 0.0, a)
  {
  }

  /** Strings are added end to end. */
  lemma StringSums(lib: Library, a: string, b: string, c: string, k: nat)
    ensures ApplyBinary(lib, Add, StrV(a), StrV("")) == ApplyBinary(lib, Add, StrV(""), StrV(a)) == Some(StrV(a))
    ensures ApplyBinary(lib, Add, StrV(a), StrV(b)).Some? && ApplyBinary(lib, Add, StrV(a), StrV(b)).value.StrV?
    ensures var s := ApplyBinary(lib, Add, StrV(a), StrV(b)).value.s;
      |s| == |a| + |b| && (k < |a| ==> s[k] == a[k]) && (k < |b| ==> s[|a| + k] == b[k])
  {
    assert a + "" == a && "" + a == a;
  }

  // ---- Products, quotients, remainders ------------------------------------------------------------------------

  /** On integers: multiplication has unit 1 and distributes over addition. */
  lemma IntProducts(lib: Library, a: int, b: int, c: int)
    ensures Int(lib, Mul, a, 1) == Some(IntV(a)) && Int(lib, Mul, 1, a) == Some(IntV(a))
    ensures IsInt(Int(lib, Mul, a, b)).Some? && IsInt(Int(lib, Mul, a, c)).Some?
    ensures Int(lib, Mul, a, b + c) == Int(lib, Add, Int(lib, Mul, a, b).value.i, Int(lib, Mul, a, c).value.i)
  {
    assert a * (b + c) == a * b + a * c;
  }

  lemma FloatProducts(lib: Library, a: real, b: real, c: real)
    ensures Float(lib, Mul, a, 1.0) == Some(FloatV(a)) && Float(lib, Mul, 1.0, a) == Some(FloatV(a))
    ensures IsFloat(Float(lib, Mul, a, b)).Some? && IsFloat(Float(lib, Mul, a, c)).Some?
    ensures Float(lib, Mul, a, b + c) == Float(lib, Add, Float(lib, Mul, a, b).value.f, Float(lib, Mul, a, c).value.f)
  {
    Distribute(a, b, c);
    hide Times;
  }

  lemma Distribute(a: real, b: real, c: real)
    ensures Times(a, b + c) == Times(a, b) + Times(a, c) && Times(a, 1.0) == a == Times(1.0, a)
  {
  }

  /** Division of numbers fails exactly by zero; otherwise it gives a float, also for integers, which multiplied by the divisor
      is the dividend. */
  lemma Quotients(lib: Library, l: Value, r: Value)
    requires Numeric(l) && Numeric(r)
    ensures ApplyBinary(lib, Div, l, r).None? <==> AsReal(r) == 0.0
    ensures AsReal(r) != 0.0 ==>
      var q := ApplyBinary(lib, Div, l, r);
      IsFloat(q).Some? && ApplyBinary(lib, Mul, q.value, r) == Some(FloatV(AsReal(l)))
  {
    hide Times;
    if AsReal(r) != 0.0 {
      var a, b := AsReal(l), AsReal(r);
      DivTimes(a, b);
      assert ApplyBinary(lib, Div, l, r) == Some(FloatV(a / b));
      ProductIs(lib, a / b, r);
    }
  }

  lemma ProductIs(lib: Library, q: real, r: Value)
    requires Numeric(r)
    ensures ApplyBinary(lib, Mul, FloatV(q), r) == Some(FloatV(Times(q, AsReal(r))))
  {
    hide Times;
  }

  lemma DivTimes(a: real, b: real)
    requires b != 0.0
    ensures Times(a / b, b) == a
  {
  }

  /** The remainder fails exactly by zero; it is less than the divisor in size, has the sign of the dividend, and
      differs from the dividend by a multiple of the divisor. */
  lemma Remainders(lib: Library, a: int, b: int)
    ensures Int(lib, Mod, a, b).None? <==> b == 0
    ensures b != 0 ==> IsInt(Int(lib, Mod, a, b)).Some? && IsRemainder(a, b, Int(lib, Mod, a, b).value.i)
  {
    if b != 0 { RemainderIs(a, b); }
    hide IsRemainder, Remainder;
  }

  lemma RemainderIs(a: int, b: int)
    requires b != 0
    ensures IsRemainder(a, b, Remainder(a, b))
  {
    var p := if a >= 0 then a else -a;
    var k, m := p / b, p % b;
    DivMod(p, b, k, m);
    var q := if a >= 0 then k else -k;
    NegTimes(k, b);
    assert a == q * b + Remainder(a, b);
  }

  lemma DivMod(p: nat, b: int, k: int, m: int)
    requires b != 0 && k == p / b && m == p % b
    ensures p == k * b + m && 0 <= m && (if b > 0 then m < b else m < -b) && m <= p
  {
    if b > p || -b > p { Small(p, b); }
  }

  lemma Small(p: nat, b: int)
    requires b > p || -b > p
    ensures p % b == p
  {
  }

  ghost predicate IsRemainder(a: int, b: int, r: int)
    requires b != 0
  {
    && (exists q: int :: a == q * b + r)
    && (if b > 0 then -b < r < b else b < r < -b)
    && (r > 0 ==> a > 0) && (r < 0 ==> a < 0)
  }

  lemma NegTimes(k: int, b: int)
    ensures (-k) * b == -(k * b)
  {
  }

  /** That says all there is to say about it. */
  lemma OneRemainder(a: int, b: int, r: int, s: int)
    requires b != 0 && IsRemainder(a, b, r) && IsRemainder(a, b, s)
    ensures r == s
  {
    var p: int :| a == p * b + r;
    var q: int :| a == q * b + s;
    Apart(p - q, b);
    assert (p - q) * b == p * b - q * b;
  }

  /** A multiple of b that is not 0 is at least as large as b. */
  lemma Apart(k: int, b: int)
    requires b != 0
    ensures k == 0 || (if (k > 0) == (b > 0) then k * b >= 1 else k * b <= -1)
    ensures k == 0 || k * b <= -(if b > 0 then b else -b) || k * b >= (if b > 0 then b else -b)
  {
  }

  // ---- Mixed operands -----------------------------------------------------------------------------------------

  /** An integer and a float are added, subtracted and multiplied as floats. */
  lemma Mixed(lib: Library, op: BinaryOp, l: Value, r: Value)
    requires op in {Add, Sub, Mul} && Numeric(l) && Numeric(r) && (l.FloatV? || r.FloatV?)
    ensures ApplyBinary(lib, op, l, r) == Float(lib, op, AsReal(l), AsReal(r))
  {
    hide Times;
    var a, b := AsReal(l), AsReal(r);
    match op {
      case Add => assert ApplyBinary(lib, op, l, r) == Some(FloatV(a + b));
      case Sub => assert ApplyBinary(lib, op, l, r) == Some(FloatV(a - b));
      case Mul => assert ApplyBinary(lib, op, l, r) == Some(FloatV(Times(a, b)));
    }
  }

  // ---- Comparisons --------------------------------------------------------------------------------------------

  /** Numbers, integer or float, compare as the sign of their difference says. */
  lemma NumberOrder(lib: Library, l: Value, r: Value)
    requires Numeric(l) && Numeric(r)
    ensures var d := ApplyBinary(lib, Sub, l, r);
      && d.Some? && Numeric(d.value)
      && ApplyBinary(lib, Lt, l, r) == Some(BoolV(AsReal(d.value) < 0.0))
      && ApplyBinary(lib, Gt, l, r) == Some(BoolV(AsReal(d.value) > 0.0))
      && ApplyBinary(lib, Eq, l, r) == Some(BoolV(AsReal(d.value) == 0.0))
  {
  }

  /** Equality is defined for all values, and inequality is its opposite. */
  lemma Equality(lib: Library, l: Value, r: Value)
    ensures IsBool(ApplyBinary(lib, Eq, l, r)).Some?
    ensures ApplyBinary(lib, Neq, l, r) == Some(BoolV(!ApplyBinary(lib, Eq, l, r).value.b))
    ensures ApplyBinary(lib, Eq, l, r) == ApplyBinary(lib, Eq, r, l) && ApplyBinary(lib, Eq, l, l) == Some(BoolV(true))
  {
    hide Arithmetic;
  }

  /** The other comparisons agree with it and with each other: each says the opposite of another, and swapping the operands
      turns one into another. */
  lemma Comparisons(lib: Library, l: Value, r: Value)
    requires Ordered(l, r)
    ensures forall op | op in {Lt, Gt, Lte, Gte, Eq} ::
      IsBool(ApplyBinary(lib, op, l, r)).Some? && IsBool(ApplyBinary(lib, op, r, l)).Some?
    ensures ApplyBinary(lib, Gt, l, r) == ApplyBinary(lib, Lt, r, l)
    ensures ApplyBinary(lib, Gte, l, r) == ApplyBinary(lib, Lte, r, l)
    ensures ApplyBinary(lib, Gte, l, r) == Some(BoolV(!ApplyBinary(lib, Lt, l, r).value.b))
    ensures ApplyBinary(lib, Lte, l, r) == Some(BoolV(ApplyBinary(lib, Lt, l, r).value.b || ApplyBinary(lib, Eq, l, r).value.b))
  {
    hide Arithmetic, StrLess;
    if l.StrV? && r.StrV? { StrTotal(l.s, r.s); }
  }

  /** What has an order: two numbers, or two strings. */
  predicate Ordered(l: Value, r: Value) {
    (Numeric(l) && Numeric(r)) || (l.StrV? && r.StrV?)
  }

  /** Where the strings part, the first differs from the second by a smaller character, or by ending there. */
  ghost predicate ComesFirst(a: string, b: string, k: nat) {
    k <= |a| && k < |b| && a[..k] == b[..k] && (k == |a| || a[k] < b[k])
  }

  lemma {:induction false} StrLessIs(a: string, b: string)
    ensures StrLess(a, b) <==> exists k :: ComesFirst(a, b, k)
  {
    if StrLess(a, b) {
      if a == [] || a[0] < b[0] {
        assert ComesFirst(a, b, 0);
      } else {
        StrLessIs(a[1..], b[1..]);
        var k: nat :| ComesFirst(a[1..], b[1..], k);
        assert a[..k+1] == [a[0]] + a[1..][..k] && b[..k+1] == [b[0]] + b[1..][..k];
        assert ComesFirst(a, b, k + 1);
      }
    }
    if k: nat :| ComesFirst(a, b, k) {
      if k > 0 {
        assert a[..k][0] == b[..k][0];
        assert a[1..][..k-1] == a[..k][1..] && b[1..][..k-1] == b[..k][1..];
        assert ComesFirst(a[1..], b[1..], k - 1);
        StrLessIs(a[1..], b[1..]);
      }
    }
  }

  lemma {:induction false} StrTotal(a: string, b: string)
    ensures a == b ==> !StrLess(a, b) && !StrLess(b, a)
    ensures a != b ==> (StrLess(a, b) <==> !StrLess(b, a))
  {
    if a != [] && b != [] && a[0] == b[0] {
      StrTotal(a[1..], b[1..]);
      assert a == [a[0]] + a[1..] && b == [b[0]] + b[1..];
    }
  }

  /** Strings are ordered by where they part first. */
  lemma StringOrder(lib: Library, a: string, b: string)
    ensures ApplyBinary(lib, Lt, StrV(a), StrV(b)) == Some(BoolV(exists k :: ComesFirst(a, b, k)))
    ensures ApplyBinary(lib, Eq, StrV(a), StrV(b)) == Some(BoolV(a == b))
  {
    StrLessIs(a, b);
  }

  // ---- Truth values -------------------------------------------------------------------------------------------

  lemma TruthTables(lib: Library)
    ensures ApplyBinary(lib, And, BoolV(true), BoolV(true)) == Some(BoolV(true))
    ensures ApplyBinary(lib, And, BoolV(true), BoolV(false)) == Some(BoolV(false))
    ensures ApplyBinary(lib, And, BoolV(false), BoolV(true)) == Some(BoolV(false))
    ensures ApplyBinary(lib, And, BoolV(false), BoolV(false)) == Some(BoolV(false))
    ensures ApplyBinary(lib, Or, BoolV(true), BoolV(true)) == Some(BoolV(true))
    ensures ApplyBinary(lib, Or, BoolV(true), BoolV(false)) == Some(BoolV(true))
    ensures ApplyBinary(lib, Or, BoolV(false), BoolV(true)) == Some(BoolV(true))
    ensures ApplyBinary(lib, Or, BoolV(false), BoolV(false)) == Some(BoolV(false))
    ensures ApplyUnary(Not, BoolV(true)) == Some(BoolV(false)) && ApplyUnary(Not, BoolV(false)) == Some(BoolV(true))
    ensures ApplyBinary(lib, Eq, BoolV(true), BoolV(false)) == Some(BoolV(false))
    ensures ApplyBinary(lib, Eq, BoolV(false), BoolV(true)) == Some(BoolV(false))
  {
  }

  // ---- Where the operators fail -------------------------------------------------------------------------------

  /** The operands an operator takes. */
  predicate Takes(op: BinaryOp, l: Value, r: Value) {
    match op
    case Add => (Numeric(l) && Numeric(r)) || (l.StrV? && r.StrV?)
    case Sub => Numeric(l) && Numeric(r)
    case Mul => Numeric(l) && Numeric(r)
    case Div => Numeric(l) && Numeric(r) && AsReal(r) != 0.0
    case Mod => l.IntV? && r.IntV? && r.i != 0
    case And => l.BoolV? && r.BoolV?
    case Or => l.BoolV? && r.BoolV?
    case BAnd => l.IntV? && r.IntV?
    case BOr => l.IntV? && r.IntV?
    case Eq => true
    case Neq => true
    case _ => Ordered(l, r)
  }

  /** An operator fails exactly on the operands it does not take; values of different kinds, other than numbers, are
      never equal. */
  lemma Failures(lib: Library, op: BinaryOp, uop: UnaryOp, l: Value, r: Value)
    ensures ApplyBinary(lib, op, l, r).Some? <==> Takes(op, l, r)
    ensures ApplyUnary(uop, l).Some? <==> if uop == Neg then Numeric(l) else l.BoolV?
    ensures (l.StrV? != r.StrV?) || (l.BoolV? != r.BoolV?) ==> ApplyBinary(lib, Eq, l, r) == Some(BoolV(false))
  {
  }

  // ---- Format strings -----------------------------------------------------------------------------------------

  /** How a piece is written: braces are doubled, a name stands between braces. */
  function Written(p: Piece): string {
    match p
    case Lit(c) => if c == '{' || c == '}' then [c, c] else [c]
    case Var(name) => "{" + name + "}"
  }

  function WrittenAll(ps: seq<Piece>): string {
    if ps == [] then "" else Written(ps[0]) + WrittenAll(ps[1..])
  }

  ghost predicate Proper(ps: seq<Piece>) {
    forall i :: 0 <= i < |ps| && ps[i].Var? ==> Identifier(ps[i].name)
  }

  lemma {:induction false} CloseBraceIs(s: string, j: nat, k: nat)
    requires j <= k < |s| && s[k] == '}' && forall l :: j <= l < k ==> s[l] != '}'
    ensures CloseBrace(s, j) == k
    decreases k - j
  {
    if j < k { CloseBraceIs(s, j + 1, k); }
  }

  lemma {:induction false} CloseBraceFirst(s: string, j: nat)
    requires j <= |s|
    ensures var k := CloseBrace(s, j);
      (k < |s| ==> s[k] == '}') && forall l :: j <= l < k ==> s[l] != '}'
    decreases |s| - j
  {
    if j < |s| && s[j] != '}' { CloseBraceFirst(s, j + 1); }
  }

  /** What stands at i is scanned as p exactly if p, properly written, stands there. */
  lemma ScanIs(s: string, i: nat, p: Piece)
    requires i < |s|
    ensures ScanAt(s, i).Some? && ScanAt(s, i).value.piece == p ==>
      ScanAt(s, i).value.next == i + |Written(p)| <= |s| && s[i..i+|Written(p)|] == Written(p) && (p.Var? ==> Identifier(p.name))
  {
    CloseBraceFirst(s, i + 1);
    var r := ScanAt(s, i);
    if r.Some? {
      if r.value.piece.Var? {
        var j := CloseBrace(s, i + 1);
        assert s[i..j+1] == "{" + s[i+1..j] + "}";
      } else if r.value.next == i + 2 {
        assert s[i..i+2] == [s[i], s[i+1]];
      } else {
        assert s[i..i+1] == [s[i]];
      }
    }
  }

  lemma ScanFinds(s: string, i: nat, p: Piece)
    requires i + |Written(p)| <= |s| && s[i..i+|Written(p)|] == Written(p) && (p.Var? ==> Identifier(p.name))
    ensures i < |s| && ScanAt(s, i) == Some(Scan(p, i + |Written(p)|))
  {
    var w := Written(p);
    assert forall k :: 0 <= k < |w| ==> s[i + k] == w[k];
    match p {
      case Lit(c) =>
        assert s[i] == w[0];
        if |w| == 2 { assert s[i+1] == w[1]; }
      case Var(name) =>
        var j := i + 1 + |name|;
        assert s[i] == w[0] && s[j] == w[1 + |name|];
        forall l | i + 1 <= l < j ensures s[l] == name[l - i - 1] && s[l] != '}' && s[l] != '{' {
          assert s[l] == w[l - i];
        }
        CloseBraceIs(s, i + 1, j);
        assert s[i+1..j] == name;
        assert s[i+1] == name[0];
    }
  }

  /** A format string means the pieces it is the spelling of, and has no meaning if it is the spelling of none. */
  lemma FormatSpelled(s: string, i: nat, ps: seq<Piece>)
    requires i <= |s|
    ensures Pieces(s, i) == Some(ps) <==> s[i..] == WrittenAll(ps) && Proper(ps)
  {
    hide Pieces, WrittenAll, Proper;
    if Pieces(s, i) == Some(ps) { FormatReads(s, i, ps); }
    if s[i..] == WrittenAll(ps) && Proper(ps) { FormatFinds(s, i, ps); }
  }

  lemma {:induction false} FormatReads(s: string, i: nat, ps: seq<Piece>)
    requires i <= |s| && Pieces(s, i) == Some(ps)
    ensures s[i..] == WrittenAll(ps) && Proper(ps)
    decreases |s| - i
  {
    hide ScanAt, Written, Identifier;
    if i < |s| {
      var r := ScanAt(s, i).value;
      ScanIs(s, i, r.piece);
      var rest := ps[1..];
      assert ps == [r.piece] + rest && Pieces(s, r.next) == Some(rest);
      FormatReads(s, r.next, rest);
      assert s[i..] == s[i..r.next] + s[r.next..];
      forall k | 0 <= k < |ps| && ps[k].Var? ensures Identifier(ps[k].name) {
        if k > 0 { assert rest[k-1] == ps[k]; }
      }
    }
  }

  lemma {:induction false} FormatFinds(s: string, i: nat, ps: seq<Piece>)
    requires i <= |s| && s[i..] == WrittenAll(ps) && Proper(ps)
    ensures Pieces(s, i) == Some(ps)
    decreases |ps|
  {
    hide ScanAt, Written, Identifier;
    WrittenSome(ps);
    if ps != [] {
      var n := |Written(ps[0])|;
      assert s[i..i+n] == s[i..][..n] == Written(ps[0]);
      assert s[i+n..] == s[i..][n..] == WrittenAll(ps[1..]);
      ScanFinds(s, i, ps[0]);
      FormatFinds(s, i + n, ps[1..]);
      assert ps == [ps[0]] + ps[1..];
    }
  }

  lemma WrittenSome(ps: seq<Piece>)
    ensures ps == [] <==> WrittenAll(ps) == ""
  {
    if ps != [] { assert |Written(ps[0])| > 0; }
  }
}
