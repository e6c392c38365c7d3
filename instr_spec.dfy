/// What one VM step does (src/machine/thread/instructions.rs and
/// src/machine/thread/instructions_impl.rs), as functions on the thread state value.
/// Every instruction reads its operands in order a, b (each may consume a literal
/// word and move I), then writes its results in the order the source does.
module InstrSpec {
  import opened Bits
  import opened Wrappers
  import opened IntOps
  import opened ThreadSpec
  import Opcodes

  /// Instructions whose results are a value plus a carry word (REG_C and the C flag).
  datatype CarryOp = Add | Sub | Mul | CAdd | CSub | CMul | IAdd | ISub | ICAdd | ICSub
  /// Instructions whose second result only ORs the C flag (REG_C untouched).
  datatype OverflowOp = IMul | IPow | Shl | Shr
  /// Instructions that either write c or OR an error flag into F.
  datatype CheckedOp = Div | Rem | Pow | IDiv | IRem | IRemE
  /// Instructions with a single result written to c.
  datatype PlainOp = Min | Max | IMin | IMax | WShl | WShr | And | Or | Xor
  /// Instructions that read only a and write b.
  datatype UnaryOp = IAbs | Neg | ConvI2U | ConvU2I | Mov
  /// A bit position in F.
  type FlagPlace = p: nat | p < 32
  /// Jumps test one F bit given as its place; Clear removes that bit.
  datatype JumpOp = Always | IfSet(place: FlagPlace) | IfClear(place: FlagPlace) | Clear(place: FlagPlace)

  datatype Instr =
    | Noop
    | Carry(cop: CarryOp)
    | Overflow(oop: OverflowOp)
    | Checked(kop: CheckedOp)
    | Plain(pop: PlainOp)
    | Unary(uop: UnaryOp)
    | Compare(signed: bool)
    | Jump(jop: JumpOp)
    | Ld | St | Ld8 | St8
    | FloatOp      // float arithmetic, conversions from/to f32, fcmp: not modelled
    | StdioOp      // write_stdout, flush_stdout, read_stdin: not modelled
    | Unknown

  /// The action the dispatch `match` selects for each opcode.
  function Decode(op: int): (i: Instr)
    ensures (op < 0 || op >= Opcodes.COUNT) <==> i == Unknown
  {
    match op
    case 0 => Noop
    case 1 => Carry(Add)
    case 2 => Carry(Sub)
    case 3 => Carry(Mul)
    case 4 => Checked(Div)
    case 5 => Checked(Rem)
    case 6 => Checked(Pow)
    case 7 => Plain(Min)
    case 8 => Plain(Max)
    case 9 => Carry(CAdd)
    case 10 => Carry(CSub)
    case 11 => Carry(CMul)
    case 12 => Carry(IAdd)
    case 13 => Carry(ISub)
    case 14 => Overflow(IMul)
    case 15 => Checked(IDiv)
    case 16 => Checked(IRem)
    case 17 => Checked(IRemE)
    case 18 => Unary(IAbs)
    case 19 => Overflow(IPow)
    case 20 => Plain(IMin)
    case 21 => Plain(IMax)
    case 22 => Carry(ICAdd)
    case 23 => Carry(ICSub)
    case 24 => Overflow(Shl)
    case 25 => Overflow(Shr)
    case 26 => Plain(WShl)
    case 27 => Plain(WShr)
    case 28 => Plain(And)
    case 29 => Plain(Or)
    case 30 => Plain(Xor)
    case 31 => Unary(Neg)
    case 32 => Unary(ConvI2U)
    case 33 => Unary(ConvU2I)
    case 81 => Compare(false)
    case 82 => Compare(true)
    case 84 => Jump(Always)
    case 85 => Jump(IfSet(FLAG_PLACE_Z))
    case 86 => Jump(IfClear(FLAG_PLACE_Z))
    case 87 => Jump(Clear(FLAG_PLACE_Z))
    case 88 => Jump(IfSet(FLAG_PLACE_S))
    case 89 => Jump(IfClear(FLAG_PLACE_S))
    case 90 => Jump(Clear(FLAG_PLACE_S))
    case 91 => Jump(IfSet(FLAG_PLACE_C))
    case 92 => Jump(IfClear(FLAG_PLACE_C))
    case 93 => Jump(Clear(FLAG_PLACE_C))
    case 94 => Jump(IfSet(FLAG_PLACE_E))
    case 95 => Jump(IfClear(FLAG_PLACE_E))
    case 96 => Jump(Clear(FLAG_PLACE_E))
    case 97 => Jump(IfSet(FLAG_PLACE_L))
    case 98 => Jump(IfClear(FLAG_PLACE_L))
    case 99 => Jump(Clear(FLAG_PLACE_L))
    case 100 => StdioOp
    case 101 => StdioOp
    case 102 => StdioOp
    case 103 => Ld
    case 104 => St
    case 105 => Unary(Mov)
    case 106 => Ld8
    case 107 => St8
    case _ => if 34 <= op <= 80 || op == 83 then FloatOp else Unknown
  }

  // ---- the value computations of each family ----

  /// (result for c, word for REG_C); carry-in is REG_C as read after the operands.
  function CarryResult(op: CarryOp, x: u32, y: u32, carryIn: u32): (u32, u32)
  {
    var bit := carryIn % 2 == 1;
    match op
    case Add => BoolCarry(OverflowingAdd(x, y))
    case Sub => BoolCarry(OverflowingSub(x, y))
    case Mul => WideningMul(x, y)
    case CAdd => BoolCarry(CarryingAdd(x, y, bit))
    case CSub => BoolCarry(BorrowingSub(x, y, bit))
    case CMul => CarryingMul(x, y, carryIn)
    case IAdd => BoolCarry(SignedOverflowingAdd(x, y))
    case ISub => BoolCarry(SignedOverflowingSub(x, y))
    case ICAdd => BoolCarry(SignedCarryingAdd(x, y, bit))
    case ICSub => BoolCarry(SignedBorrowingSub(x, y, bit))
  }

  /// `bool as u32`: a carry flag stored in REG_C as 1 or 0.
  function BoolCarry(p: (u32, bool)): (u32, u32)
  {
    (p.0, if p.1 then 1 else 0)
  }

  function OverflowResult(op: OverflowOp, x: u32, y: u32): (u32, bool)
  {
    match op
    case IMul => SignedOverflowingMul(x, y)
    case IPow => SignedOverflowingPow(x, y)
    case Shl => OverflowingShl(x, y)
    case Shr => OverflowingShr(x, y)
  }

  function CheckedResult(op: CheckedOp, x: u32, y: u32): Option<u32>
  {
    match op
    case Div => CheckedDiv(x, y)
    case Rem => CheckedRem(x, y)
    case Pow => CheckedPow(x, y)
    case IDiv => SignedCheckedDiv(x, y)
    case IRem => SignedCheckedRem(x, y)
    case IRemE => SignedCheckedRemEuclid(x, y)
  }

  /// `pow` reports overflow with C; the divisions report a zero divisor with L.
  function CheckedErrorPlace(op: CheckedOp): nat
  {
    if op == Pow then FLAG_PLACE_C else FLAG_PLACE_L
  }

  /// imin/imax compare the raw words as unsigned and xor shifts left: the source's
  /// table does exactly this, whatever its descriptions say.
  function PlainResult(op: PlainOp, x: u32, y: u32): u32
  {
    match op
    case Min => IntOps.Min(x, y)
    case Max => IntOps.Max(x, y)
    case IMin => IntOps.Min(x, y)
    case IMax => IntOps.Max(x, y)
    case WShl => WrappingShl(x, y)
    case WShr => WrappingShr(x, y)
    case And => And32(x, y)
    case Or => Or32(x, y)
    case Xor => WrappingShl(x, y)
  }

  /// The transmutes between i32 and u32 keep the bit pattern, so both conversions
  /// and mov copy the word.
  function UnaryResult(op: UnaryOp, x: u32): u32
  {
    match op
    case IAbs => SignedAbs(x)
    case Neg => Not32(x)
    case ConvI2U => x
    case ConvU2I => x
    case Mov => x
  }

  // ---- effects on the state ----

  /// `F |= bit` where bit is 1 << place or 0.
  function OrFlag(c: Core, place: nat, on: bool): (r: Core)
    requires c.Valid() && place < 32
    ensures r.Valid() && r.mem == c.mem && r.minAddr == c.minAddr && r.maxAddr == c.maxAddr
  {
    Pow2Monotone(place, 32);
    Pow2Of32();
    c.(regs := c.regs[REG_F := Or32(c.regs[REG_F], if on then Pow2(place) else 0)])
  }

  /// `F |= bit` when on, `F &= !bit` otherwise.
  function PutFlag(c: Core, place: nat, on: bool): (r: Core)
    requires c.Valid() && place < 32
    ensures r.Valid() && r.mem == c.mem && r.minAddr == c.minAddr && r.maxAddr == c.maxAddr
  {
    Pow2Monotone(place, 32);
    Pow2Of32();
    var f := c.regs[REG_F];
    c.(regs := c.regs[REG_F := if on then Or32(f, Pow2(place)) else And32(f, Not32(Pow2(place)))])
  }

  function SetReg(c: Core, reg: nat, value: u32): (r: Core)
    requires c.Valid() && reg < REG_FILE_SIZE
    ensures r.Valid() && r.mem == c.mem && r.minAddr == c.minAddr && r.maxAddr == c.maxAddr
  {
    c.(regs := c.regs[reg := value])
  }

  /// Operand a, then operand b.
  function ReadTwo(c: Core, a: Field, b: Field): (r: (Core, u32, u32))
    requires c.Valid()
    ensures r.0.Valid() && r.0.mem == c.mem && r.0.minAddr == c.minAddr && r.0.maxAddr == c.maxAddr
  {
    var (c1, x) := ReadArg(c, a);
    var (c2, y) := ReadArg(c1, b);
    (c2, x, y)
  }

  function ExecCarry(c: Core, op: CarryOp, a: Field, b: Field, cf: Field): (r: Core)
    requires c.Valid()
    ensures r.Valid() && r.mem == c.mem
  {
    var (c1, x, y) := ReadTwo(c, a, b);
    var (v, co) := CarryResult(op, x, y, c1.regs[REG_C]);
    var c2 := WriteReg(c1, cf, v);
    var c3 := SetReg(c2, REG_C, co);
    OrFlag(c3, FLAG_PLACE_C, co != 0)
  }

  function ExecOverflow(c: Core, op: OverflowOp, a: Field, b: Field, cf: Field): (r: Core)
    requires c.Valid()
    ensures r.Valid() && r.mem == c.mem
  {
    var (c1, x, y) := ReadTwo(c, a, b);
    var (v, o) := OverflowResult(op, x, y);
    OrFlag(WriteReg(c1, cf, v), FLAG_PLACE_C, o)
  }

  function ExecChecked(c: Core, op: CheckedOp, a: Field, b: Field, cf: Field): (r: Core)
    requires c.Valid()
    ensures r.Valid() && r.mem == c.mem
  {
    var (c1, x, y) := ReadTwo(c, a, b);
    match CheckedResult(op, x, y)
    case Some(v) => WriteReg(c1, cf, v)
    case None => OrFlag(c1, CheckedErrorPlace(op), true)
  }

  function ExecPlain(c: Core, op: PlainOp, a: Field, b: Field, cf: Field): (r: Core)
    requires c.Valid()
    ensures r.Valid() && r.mem == c.mem
  {
    var (c1, x, y) := ReadTwo(c, a, b);
    WriteReg(c1, cf, PlainResult(op, x, y))
  }

  function ExecUnary(c: Core, op: UnaryOp, a: Field, b: Field): (r: Core)
    requires c.Valid()
    ensures r.Valid() && r.mem == c.mem
  {
    var (c1, x) := ReadArg(c, a);
    WriteReg(c1, b, UnaryResult(op, x))
  }

  /// cmp/icmp: Z is put to a == b, then S to a < b (unsigned or signed).
  function ExecCompare(c: Core, signed: bool, a: Field, b: Field): (r: Core)
    requires c.Valid()
    ensures r.Valid() && r.mem == c.mem
  {
    var (c1, x, y) := ReadTwo(c, a, b);
    var less := if signed then Signed(x) < Signed(y) else x < y;
    PutFlag(PutFlag(c1, FLAG_PLACE_Z, x == y), FLAG_PLACE_S, less)
  }

  /// `F & (1 << place)`, the mask test of the conditional jumps.
  function FlagMask(c: Core, place: FlagPlace): u32
    requires c.Valid()
  {
    Pow2Monotone(place, 32);
    Pow2Of32();
    And32(c.regs[REG_F], Pow2(place))
  }

  /// Jumps read operand a first (F is examined after that read), then overwrite I;
  /// clears only do `F &= !mask`.
  function ExecJump(c: Core, op: JumpOp, a: Field): (r: Core)
    requires c.Valid()
    ensures r.Valid() && r.mem == c.mem
  {
    if op.Clear? then PutFlag(c, op.place, false)
    else
      var (c1, target) := ReadArg(c, a);
      var taken := match op
        case Always => true
        case IfSet(p) => FlagMask(c1, p) != 0
        case IfClear(p) => FlagMask(c1, p) == 0
        case Clear(_) => false;
      if taken then SetReg(c1, REG_I, target) else c1
  }

  /// ld: the word at address a goes to register b.
  function ExecLd(c: Core, a: Field, b: Field): (r: Core)
    requires c.Valid()
    ensures r.Valid() && r.mem == c.mem
  {
    var (c1, addr) := ReadArg(c, a);
    var (c2, v) := ReadU32(c1, addr);
    WriteReg(c2, b, v)
  }

  /// st: operand b is stored as a word at address a.
  function ExecSt(c: Core, a: Field, b: Field): (r: Core)
    requires c.Valid()
    ensures r.Valid()
  {
    var (c1, addr, v) := ReadTwo(c, a, b);
    WriteU32(c1, addr, v)
  }

  /// st as written: the word goes through `WriteU32AsWritten`, which leaves the
  /// byte memory as it was.
  function ExecStAsWritten(c: Core, a: Field, b: Field): (r: Core)
    requires c.Valid()
    ensures r.Valid() && r.mem == c.mem
  {
    var (c1, addr, v) := ReadTwo(c, a, b);
    WriteU32AsWritten(c1, addr, v)
  }

  /// ld8: the low byte of register b is replaced by the byte at address a; the write
  /// is unchecked, so a field of 64 or more indexes past the register file.
  function ExecLd8(c: Core, a: Field, b: Field): (r: Option<Core>)
    requires c.Valid()
    ensures r.Some? <==> b < REG_FILE_SIZE
    ensures r.Some? ==> r.value.Valid() && r.value.mem == c.mem
  {
    var (c1, addr, old_) := ReadTwo(c, a, b);
    var (c2, byte) := ReadU8(c1, addr);
    if b < REG_FILE_SIZE then Some(SetReg(c2, b, Or32(And32(old_, Not32(0xFF)), byte))) else None
  }

  /// st8: the low byte of operand b is stored at address a.
  function ExecSt8(c: Core, a: Field, b: Field): (r: Core)
    requires c.Valid()
    ensures r.Valid()
  {
    var (c1, addr, v) := ReadTwo(c, a, b);
    WriteU8(c1, addr, v % TWO8)
  }

  /// How a step ends: with a new state, in an unmodelled instruction (state after the
  /// fetch and the advance of I), or in a panic of the source.
  datatype Outcome = Done(core: Core) | Unmodelled(core: Core) | Panic

  /// The dispatched action of one decoded instruction.
  function Execute(c: Core, i: Instr, a: Field, b: Field, cf: Field): (r: Outcome)
    requires c.Valid()
    ensures r.Done? ==> r.core.Valid()
    ensures r.Unmodelled? ==> r.core == c
    ensures r.Panic? <==> i == Ld8 && b >= REG_FILE_SIZE
  {
    match i
    case Noop => Done(c)
    case Carry(op) => Done(ExecCarry(c, op, a, b, cf))
    case Overflow(op) => Done(ExecOverflow(c, op, a, b, cf))
    case Checked(op) => Done(ExecChecked(c, op, a, b, cf))
    case Plain(op) => Done(ExecPlain(c, op, a, b, cf))
    case Unary(op) => Done(ExecUnary(c, op, a, b))
    case Compare(signed) => Done(ExecCompare(c, signed, a, b))
    case Jump(op) => Done(ExecJump(c, op, a))
    case Ld => Done(ExecLd(c, a, b))
    case St => Done(ExecSt(c, a, b))
    case Ld8 => (match ExecLd8(c, a, b) case Some(c1) => Done(c1) case None => Panic)
    case St8 => Done(ExecSt8(c, a, b))
    case FloatOp => Unmodelled(c)
    case StdioOp => Unmodelled(c)
    case Unknown => Done(SetError(c))
  }

  /// The state after fetching the word at I and moving I past it, with its fields.
  function Fetch(c: Core): (r: (Core, int, Field, Field, Field))
    requires c.Valid()
    ensures r.0.Valid() && r.0.mem == c.mem
  {
    var (c1, w) := ReadU32(c, c.regs[REG_I]);
    var (op, a, b, cf) := SplitInstr(w);
    (AdvanceIp(c1), op, a, b, cf)
  }

  /// `exec_instr`: fetch, decode, advance I, dispatch exactly one action.
  function Step(c: Core): Outcome
    requires c.Valid()
  {
    var (c1, op, a, b, cf) := Fetch(c);
    Execute(c1, Decode(op), a, b, cf)
  }
}
