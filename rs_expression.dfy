/// The values and expressions of the Rust assembler (src/assembler/expression.rs)
/// and the typed data directives they fill (`Data`, src/assembler/mod.rs).
module RsExpression {
  import opened Wrappers
  import opened Bits
  import opened RsLexer

  /// `Value`: a 32-bit unsigned or signed integer, or the bits of an `f32`.
  datatype Value = Unsigned(u: u32) | Signed(i: i32) | Float32(bits: u32)

  /// The binary operators, in the three binding tiers of `collect_expr`.
  datatype Op = Add | Sub | Mul | Div | Mod | And | Or | Xor

  datatype UnaryOp = Neg | Not

  /// `Expression`. Its evaluation is not part of this model.
  datatype Expression =
    | Variable(name: string)
    | Literal(value: Value)
    | Unary(uop: UnaryOp, operand: Expression)
    | Binary(op: Op, left: Expression, right: Expression)
    | Call(callee: string, args: seq<Expression>)

  /// `Value::ty`.
  function ValueKind(v: Value): string
  {
    match v
    case Unsigned(_) => "unsigned integer"
    case Signed(_) => "signed integer"
    case Float32(_) => "float"
  }

  /// Each variant has a name of its own.
  lemma ValueKindNames(a: Value, b: Value)
    ensures ValueKind(a) == ValueKind(b) <==>
      (a.Unsigned? && b.Unsigned?) || (a.Signed? && b.Signed?) || (a.Float32? && b.Float32?)
  {
    if a.Unsigned? && b.Signed? {
      assert ValueKind(a)[0] != ValueKind(b)[0];
    } else if a.Signed? && b.Unsigned? {
      assert ValueKind(a)[0] != ValueKind(b)[0];
    }
  }

  // ---------------------------------------------------------------------------
  // Op::from_char, UnaryOp::from_char

  /// `Op::from_char`.
  function OpOf(c: char, loc: Option<Loc>): (r: Result<Op, Error>)
  {
    match c
    case '+' => Ok(Add)
    case '*' => Ok(Mul)
    case '-' => Ok(Sub)
    case '/' => Ok(Div)
    case '&' => Ok(And)
    case '|' => Ok(Or)
    case '^' => Ok(Xor)
    case '%' => Ok(Mod)
    case _ => Err(Error(InvalidBinaryOp(c), loc))
  }

  /// The character each operator is written with.
  function OpSymbol(op: Op): char
  {
    match op
    case Add => '+'
    case Sub => '-'
    case Mul => '*'
    case Div => '/'
    case Mod => '%'
    case And => '&'
    case Or => '|'
    case Xor => '^'
  }

  /// `Op::from_char` reads exactly the eight operator symbols, each as its
  /// operator, and rejects every other character with the character itself.
  lemma OpOfSymbol(c: char, op: Op, loc: Option<Loc>)
    ensures OpOf(OpSymbol(op), loc) == Ok(op)
    ensures OpOf(c, loc).Ok? ==> OpSymbol(OpOf(c, loc).value) == c
    ensures OpOf(c, loc).Err? <==> c !in "+-*/%&|^"
    ensures OpOf(c, loc).Err? ==> OpOf(c, loc).error == Error(InvalidBinaryOp(c), loc)
  {
  }

  /// `UnaryOp::from_char`.
  function UnaryOf(c: char, loc: Option<Loc>): (r: Result<UnaryOp, Error>)
  {
    match c
    case '-' => Ok(Neg)
    case '~' => Ok(Not)
    case _ => Err(Error(InvalidUnaryOp(c), loc))
  }

  function UnarySymbol(op: UnaryOp): char
  {
    match op
    case Neg => '-'
    case Not => '~'
  }

  /// `UnaryOp::from_char` reads `-` and `~` and nothing else.
  lemma UnaryOfSymbol(c: char, op: UnaryOp, loc: Option<Loc>)
    ensures UnaryOf(UnarySymbol(op), loc) == Ok(op)
    ensures UnaryOf(c, loc).Ok? ==> UnarySymbol(UnaryOf(c, loc).value) == c
    ensures UnaryOf(c, loc).Err? <==> c != '-' && c != '~'
    ensures UnaryOf(c, loc).Err? ==> UnaryOf(c, loc).error == Error(InvalidUnaryOp(c), loc)
  {
  }

  // ---------------------------------------------------------------------------
  // Data and Data::ty

  /// The type of a numeric data directive.
  datatype Kind = F32 | U32 | I32 | U16 | I16 | U8 | I8

  /// `Data`: an ASCII string, or a typed scalar given by an expression. The
  /// `slot` is the place `Value::copy_into` fills with the value.
  datatype Data = Ascii(text: string) | Scalar(kind: Kind, expr: Expression, slot: Option<int>)

  function KindName(k: Kind): string
  {
    match k
    case F32 => "f32"
    case U32 => "u32"
    case I32 => "i32"
    case U16 => "u16"
    case I16 => "i16"
    case U8 => "u8"
    case I8 => "i8"
  }

  /// `Data::ty`.
  function DataType(d: Data): string
  {
    match d
    case Ascii(_) => "ascii"
    case Scalar(k, _, _) => KindName(k)
  }

  /// The kind a data directive's name selects (the names `instructionize`
  /// accepts after `.`).
  function KindOf(name: string): (r: Option<Kind>)
  {
    if name == "f32" then Some(F32)
    else if name == "u32" then Some(U32)
    else if name == "i32" then Some(I32)
    else if name == "u16" then Some(U16)
    else if name == "i16" then Some(I16)
    else if name == "u8" then Some(U8)
    else if name == "i8" then Some(I8)
    else None
  }

  /// `Data::ty` names the kinds apart, and its names are the ones the directive
  /// reader accepts; `ascii` is none of them.
  lemma KindNames(k: Kind, name: string)
    ensures KindOf(KindName(k)) == Some(k)
    ensures KindOf(name).Some? ==> KindName(KindOf(name).value) == name
    ensures KindOf("ascii").None?
  {
  }

  // ---------------------------------------------------------------------------
  // Value::copy_into

  /// The number a value carries: the integer, or the float's bits.
  function Number(v: Value): int
  {
    match v
    case Unsigned(u) => u
    case Signed(i) => i
    case Float32(bits) => bits
  }

  /// The 32-bit kind a value already has.
  function KindOfValue(v: Value): Kind
  {
    match v
    case Unsigned(_) => U32
    case Signed(_) => I32
    case Float32(_) => F32
  }

  /// The 32-bit kind of the same family (unsigned, signed, float).
  function Wide(k: Kind): Kind
  {
    match k
    case U16 => U32
    case U8 => U32
    case I16 => I32
    case I8 => I32
    case _ => k
  }

  /// The number of bytes a value of kind `k` takes.
  function Width(k: Kind): (n: nat)
    ensures n == 1 || n == 2 || n == 4
  {
    match k
    case U16 => 2
    case I16 => 2
    case U8 => 1
    case I8 => 1
    case _ => 4
  }

  /// `x` is representable in kind `k` (a float is kept by its 32 bits).
  predicate Fits(k: Kind, x: int)
  {
    var signed := k == I32 || k == I16 || k == I8;
    var span := Pow256(Width(k));
    if signed then -(span / 2) <= x < span / 2 else 0 <= x < span
  }

  function Pow256(n: nat): (r: nat)
    ensures r > 0
  {
    if n == 0 then 1 else 256 * Pow256(n - 1)
  }

  /// `Value::copy_into`: the value is put into the slot of a target of its own
  /// family when it fits the target's width. An ASCII target, a target of
  /// another family and a value out of range are errors.
  function CopyInto(v: Value, dummy: Data, loc: Option<Loc>): (r: Result<Data, Error>)
    ensures r.Ok? <==> dummy.Scalar? && Wide(dummy.kind) == KindOfValue(v) && Fits(dummy.kind, Number(v))
    ensures r.Ok? ==> r.value == dummy.(slot := Some(Number(v)))
    ensures dummy.Ascii? ==> r == Err(Error(AsciiValue("ascii"), loc))
    ensures dummy.Scalar? && Wide(dummy.kind) != KindOfValue(v) ==>
      r == Err(Error(KindMismatch(DataType(dummy), ValueKind(v)), loc))
    ensures dummy.Scalar? && Wide(dummy.kind) == KindOfValue(v) && !Fits(dummy.kind, Number(v)) ==>
      r == Err(Error(DoesNotFit(ValueKind(v), Number(v), DataType(dummy)), loc))
  {
    var d := DataType(dummy);
    if dummy.Ascii? then Err(Error(AsciiValue(DataType(dummy)), loc))
    else
      var mismatch := Err(Error(KindMismatch(d, ValueKind(v)), loc));
      var tooWide := Err(Error(DoesNotFit(ValueKind(v), Number(v), d), loc));
      match v
      case Unsigned(u) =>
        (match dummy.kind
         case U32 => Ok(dummy.(slot := Some(u)))
         case U16 => if u < TWO16 then Ok(dummy.(slot := Some(u))) else tooWide
         case U8 => if u < TWO8 then Ok(dummy.(slot := Some(u))) else tooWide
         case _ => mismatch)
      case Signed(i) =>
        (match dummy.kind
         case I32 => Ok(dummy.(slot := Some(i)))
         case I16 => if -0x8000 <= i < 0x8000 then Ok(dummy.(slot := Some(i))) else tooWide
         case I8 => if -0x80 <= i < 0x80 then Ok(dummy.(slot := Some(i))) else tooWide
         case _ => mismatch)
      case Float32(f) =>
        if dummy.kind == F32 then Ok(dummy.(slot := Some(f))) else mismatch
  }

  /// A value always fits the 32-bit kind of its own family.
  lemma CopyIntoWide(v: Value, e: Expression, loc: Option<Loc>)
    ensures CopyInto(v, Scalar(KindOfValue(v), e, None), loc) == Ok(Scalar(KindOfValue(v), e, Some(Number(v))))
  {
  }

  // ---------------------------------------------------------------------------
  // The bytes of a filled scalar

  /// `n` as `w` bytes, least significant first (`to_le_bytes` of a `w`-byte type).
  function LeN(n: nat, w: nat): (b: seq<u8>)
    ensures |b| == w
  {
    if w == 0 then [] else [n % 256] + LeN(n / 256, w - 1)
  }

  function FromLeN(b: seq<u8>): nat
  {
    if |b| == 0 then 0 else b[0] + 256 * FromLeN(b[1..])
  }

  lemma {:induction false} LeNRoundTrip(n: nat, w: nat)
    requires n < Pow256(w)
    ensures FromLeN(LeN(n, w)) == n
  {
    if w > 0 {
      LeNRoundTrip(n / 256, w - 1);
      assert LeN(n, w)[1..] == LeN(n / 256, w - 1);
    }
  }

  /// The bytes of `x` in kind `k`: two's complement for the signed kinds.
  function ScalarBytes(k: Kind, x: int): (b: seq<u8>)
    requires Fits(k, x)
    ensures |b| == Width(k)
  {
    LeN(if x < 0 then x + Pow256(Width(k)) else x, Width(k))
  }

  /// Reading the bytes back, with the sign of a signed kind, gives `x`.
  lemma ScalarBytesRoundTrip(k: Kind, x: int)
    requires Fits(k, x)
    ensures var n := FromLeN(ScalarBytes(k, x));
      (if n >= Pow256(Width(k)) / 2 && (k == I32 || k == I16 || k == I8) then n - Pow256(Width(k)) else n) == x
  {
    var span := Pow256(Width(k));
    assert span == 256 || span == 0x1_0000 || span == 0x1_0000_0000 by {
      assert Pow256(1) == 256;
      assert Pow256(2) == 0x1_0000;
      assert Pow256(4) == 256 * Pow256(3);
    }
    LeNRoundTrip(if x < 0 then x + span else x, Width(k));
  }
}
