/** The value expressions of the compiler and their operators. */
module Expressions {
  import opened Schema

  datatype Value = IntV(i: int) | FloatV(f: real) | BoolV(b: bool) | StrV(s: string)

  datatype UnaryOp = Neg | Not

  datatype BinaryOp = Add | Sub | Mul | Div | Mod | And | Or | BAnd | BOr | Lt | Gt | Lte | Gte | Eq | Neq

  datatype Expr =
    | Literal(value: Value)
    | Format(text: string)
    | Name(name: string)
    | Unary(uop: UnaryOp, operand: Expr)
    | Binary(op: BinaryOp, lhs: Expr, rhs: Expr)
    | Conditional(cond: Expr, yes: Expr, no: Expr)
    | Paren(inner: Expr)
    | VocabOnly

  /** What the libraries compute: bitwise operations on machine integers, and numbers as text. */
  datatype Library = Library(band: (int, int) -> int, bor: (int, int) -> int, showInt: int -> string, showFloat: real -> string)

  function Size(e: Expr): (n: nat)
    ensures n > 0
  {
    match e
    case Unary(_, a) => 1 + Size(a)
    case Binary(_, a, b) => 1 + Size(a) + Size(b)
    case Conditional(c, a, b) => 1 + Size(c) + Size(a) + Size(b)
    case Paren(a) => 1 + Size(a)
    case _ => 1
  }

  function ApplyUnary(op: UnaryOp, v: Value): Option<Value> {
    match (op, v)
    case (Neg, IntV(i)) => Some(IntV(-i))
    case (Neg, FloatV(f)) => Some(FloatV(-f))
    case (Not, BoolV(b)) => Some(BoolV(!b))
    case _ => None
  }

  predicate Numeric(v: Value) {
    v.IntV? || v.FloatV?
  }

  function AsReal(v: Value): real
    requires Numeric(v)
  {
    if v.IntV? then v.i as real else v.f
  }

  /** The remainder that takes the sign of the dividend. */
  function Remainder(a: int, b: int): int
    requires b != 0
  {
    if a >= 0 then a % b else -((-a) % b)
  }

  predicate StrLess(a: string, b: string) {
    b != [] && (a == [] || a[0] < b[0] || (a[0] == b[0] && StrLess(a[1..], b[1..])))
  }

  function Times(a: real, b: real): real {
    a * b
  }

  function Arithmetic(op: BinaryOp, l: Value, r: Value): Option<Value> {
    if op == Add && l.StrV? && r.StrV? then Some(StrV(l.s + r.s))
    else if op == Mod then
      if l.IntV? && r.IntV? && r.i != 0 then Some(IntV(Remainder(l.i, r.i))) else None
    else if l.IntV? && r.IntV? then
      match op
      case Add => Some(IntV(l.i + r.i))
      case Sub => Some(IntV(l.i - r.i))
      case Mul => Some(IntV(l.i * r.i))
      case Div => if r.i == 0 then None else Some(FloatV(l.i as real / r.i as real))
      case _ => None
    else if Numeric(l) && Numeric(r) then
      match op
      case Add => Some(FloatV(AsReal(l) + AsReal(r)))
      case Sub => Some(FloatV(AsReal(l) - AsReal(r)))
      case Mul => Some(FloatV(Times(AsReal(l), AsReal(r))))
      case Div => if AsReal(r) == 0.0 then None else Some(FloatV(AsReal(l) / AsReal(r)))
      case _ => None
    else None
  }

  predicate SameValue(l: Value, r: Value) {
    if Numeric(l) && Numeric(r) then AsReal(l) == AsReal(r) else l == r
  }

  function Comparison(op: BinaryOp, l: Value, r: Value): Option<Value> {
    if op == Eq then Some(BoolV(SameValue(l, r)))
    else if op == Neq then Some(BoolV(!SameValue(l, r)))
    else if Numeric(l) && Numeric(r) then
      match op
      case Lt => Some(BoolV(AsReal(l) < AsReal(r)))
      case Lte => Some(BoolV(AsReal(l) <= AsReal(r)))
      case Gt => Some(BoolV(AsReal(l) > AsReal(r)))
      case Gte => Some(BoolV(AsReal(l) >= AsReal(r)))
      case _ => None
    else if l.StrV? && r.StrV? then
      match op
      case Lt => Some(BoolV(StrLess(l.s, r.s)))
      case Lte => Some(BoolV(!StrLess(r.s, l.s)))
      case Gt => Some(BoolV(StrLess(r.s, l.s)))
      case Gte => Some(BoolV(!StrLess(l.s, r.s)))
      case _ => None
    else None
  }

  /** Both operands are evaluated before any operator is applied, the logical ones included. */
  function ApplyBinary(lib: Library, op: BinaryOp, l: Value, r: Value): Option<Value> {
    match op
    case Add => Arithmetic(op, l, r)
    case Sub => Arithmetic(op, l, r)
    case Mul => Arithmetic(op, l, r)
    case Div => Arithmetic(op, l, r)
    case Mod => Arithmetic(op, l, r)
    case And => if l.BoolV? && r.BoolV? then Some(BoolV(l.b && r.b)) else None
    case Or => if l.BoolV? && r.BoolV? then Some(BoolV(l.b || r.b)) else None
    case BAnd => if l.IntV? && r.IntV? then Some(IntV(lib.band(l.i, r.i))) else None
    case BOr => if l.IntV? && r.IntV? then Some(IntV(lib.bor(l.i, r.i))) else None
    case _ => Comparison(op, l, r)
  }

  function Show(lib: Library, v: Value): string {
    match v
    case IntV(i) => lib.showInt(i)
    case FloatV(f) => lib.showFloat(f)
    case BoolV(b) => if b then "true" else "false"
    case StrV(s) => s
  }

  // ---- Format strings -----------------------------------------------------------------------------------

  datatype Piece = Lit(c: char) | Var(name: string)

  predicate Alpha(c: char) {
    'a' <= c <= 'z' || 'A' <= c <= 'Z'
  }

  predicate Digit(c: char) {
    '0' <= c <= '9'
  }

  predicate Identifier(s: string) {
    && s != [] && (Alpha(s[0]) || s[0] == '_')
    && forall k :: 1 <= k < |s| ==> Alpha(s[k]) || Digit(s[k]) || s[k] == '_'
  }

  /** The next closing brace from j on, or the end of the text. */
  function CloseBrace(s: string, j: nat): (k: nat)
    requires j <= |s|
    ensures j <= k <= |s|
    decreases |s| - j
  {
    if j < |s| && s[j] != '}' then CloseBrace(s, j + 1) else j
  }

  datatype Scan = Scan(piece: Piece, next: nat)

  /** The piece that starts at i, and where the next one starts; doubled braces stand for themselves. */
  function ScanAt(s: string, i: nat): (r: Option<Scan>)
    requires i < |s|
    ensures r.Some? ==> i < r.value.next <= |s|
  {
    if i + 1 < |s| && s[i] == '{' && s[i+1] == '{' then Some(Scan(Lit('{'), i + 2))
    else if i + 1 < |s| && s[i] == '}' && s[i+1] == '}' then Some(Scan(Lit('}'), i + 2))
    else if s[i] == '{' then
      var j := CloseBrace(s, i + 1);
      if j < |s| && Identifier(s[i+1..j]) then Some(Scan(Var(s[i+1..j]), j + 1)) else None
    else if s[i] == '}' then None
    else Some(Scan(Lit(s[i]), i + 1))
  }

  /** The pieces of a format string, if it is well formed. */
  function Pieces(s: string, i: nat): Option<seq<Piece>>
    requires i <= |s|
    decreases |s| - i
  {
    if i == |s| then Some([])
    else
      var r := ScanAt(s, i);
      if r.None? then None
      else
        var rest := Pieces(s, r.value.next);
        if rest.None? then None else Some([r.value.piece] + rest.value)
  }

  /** The scan of one piece, character by character. */
  method ScanPiece(s: string, i: nat) returns (r: Option<Scan>)
    requires i < |s|
    ensures r == ScanAt(s, i)
  {
    if i + 1 < |s| {
      if s[i] == '{' && s[i+1] == '{' { return Some(Scan(Lit('{'), i + 2)); }
      if s[i] == '}' && s[i+1] == '}' { return Some(Scan(Lit('}'), i + 2)); }
    }
    if s[i] == '{' {
      var j := i + 1;
      while j < |s| && s[j] != '}'
        invariant i + 1 <= j <= |s| && CloseBrace(s, j) == CloseBrace(s, i + 1)
      {
        j := j + 1;
      }
      if j >= |s| { return None; }
      var name := s[i+1..j];
      if name == [] || (!Alpha(name[0]) && name[0] != '_') { return None; }
      for k := 1 to |name|
        invariant forall l :: 1 <= l < k ==> Alpha(name[l]) || Digit(name[l]) || name[l] == '_'
      {
        if !Alpha(name[k]) && !Digit(name[k]) && name[k] != '_' { return None; }
      }
      return Some(Scan(Var(name), j + 1));
    } else if s[i] == '}' {
      return None;
    }
    return Some(Scan(Lit(s[i]), i + 1));
  }
}
