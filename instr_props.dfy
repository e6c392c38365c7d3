/// Properties of the VM step: what each instruction family promises about c, REG_C,
/// the flags, I and the rest of the state, stated for register operands (literal
/// operands only add the word fetch that `ReadArg` describes).
module InstrProps {
  import opened Bits
  import opened Wrappers
  import opened IntOps
  import opened ThreadSpec
  import opened InstrSpec
  import Opcodes

  /// F after `F |= on << place`: that bit may be gained, no bit is lost.
  ghost predicate FlagsOred(f0: u32, f1: u32, place: nat, on: bool)
  {
    forall j :: 0 <= j < 32 ==> (Bit(f1, j) <==> (j == place && on) || Bit(f0, j))
  }

  /// F after putting one bit to `on`: that bit is `on`, every other bit is kept.
  ghost predicate FlagPut(f0: u32, f1: u32, place: nat, on: bool)
  {
    forall j :: 0 <= j < 32 ==> (Bit(f1, j) <==> if j == place then on else Bit(f0, j))
  }

  /// Registers outside `changed` hold what they held before.
  ghost predicate RegsKept(c0: Core, c1: Core, changed: set<int>)
    requires c0.Valid() && c1.Valid()
  {
    forall r :: 0 <= r < REG_FILE_SIZE && r !in changed ==> c1.regs[r] == c0.regs[r]
  }

  predicate IsReg(f: Field)
  {
    f < NUM_REGS
  }

  lemma OrFlagEffect(c: Core, place: nat, on: bool)
    requires c.Valid() && place < 32
    ensures FlagsOred(c.regs[REG_F], OrFlag(c, place, on).regs[REG_F], place, on)
    ensures RegsKept(c, OrFlag(c, place, on), {REG_F})
  {
    var f := c.regs[REG_F];
    if on {
      forall j | 0 <= j < 32
        ensures Bit(OrFlag(c, place, on).regs[REG_F], j) <==> (j == place && on) || Bit(f, j)
      {
        SetFlagBits(f, place, j);
      }
    } else {
      OrZero(f);
    }
  }

  lemma PutFlagEffect(c: Core, place: nat, on: bool)
    requires c.Valid() && place < 32
    ensures FlagPut(c.regs[REG_F], PutFlag(c, place, on).regs[REG_F], place, on)
    ensures RegsKept(c, PutFlag(c, place, on), {REG_F})
  {
    var f := c.regs[REG_F];
    forall j | 0 <= j < 32
      ensures Bit(PutFlag(c, place, on).regs[REG_F], j) <==> if j == place then on else Bit(f, j)
    {
      if on {
        SetFlagBits(f, place, j);
      } else {
        ClearFlagBits(f, place, j);
      }
    }
  }

  /// add, sub, mul, cadd, csub, cmul, iadd, isub, icadd, icsub with register operands:
  /// c receives the result, then REG_C the carry word, then F gains C exactly when
  /// that word is non-zero; nothing else changes, and the C bit is never cleared.
  lemma CarryEffect(c: Core, op: CarryOp, a: Field, b: Field, cf: Field)
    requires c.Valid() && IsReg(a) && IsReg(b) && IsReg(cf) && cf != REG_C && cf != REG_F
    ensures var r := ExecCarry(c, op, a, b, cf);
      var (v, co) := CarryResult(op, c.regs[a], c.regs[b], c.regs[REG_C]);
      && r.regs[cf] == v && r.regs[REG_C] == co
      && FlagsOred(c.regs[REG_F], r.regs[REG_F], FLAG_PLACE_C, co != 0)
      && RegsKept(c, r, {cf, REG_C, REG_F})
      && r.mem == c.mem
  {
    var (v, co) := CarryResult(op, c.regs[a], c.regs[b], c.regs[REG_C]);
    var c3 := SetReg(WriteReg(c, cf, v), REG_C, co);
    OrFlagEffect(c3, FLAG_PLACE_C, co != 0);
  }

  /// add: c and REG_C together hold the 33-bit sum, REG_C is 0 or 1.
  lemma AddEffect(c: Core, a: Field, b: Field, cf: Field)
    requires c.Valid() && IsReg(a) && IsReg(b) && IsReg(cf) && cf != REG_C && cf != REG_F
    ensures var r := ExecCarry(c, Add, a, b, cf);
      && r.regs[cf] + TWO32 * r.regs[REG_C] == c.regs[a] as int + c.regs[b]
      && r.regs[REG_C] <= 1
      && (Bit(r.regs[REG_F], FLAG_PLACE_C) <==> c.regs[a] + c.regs[b] >= TWO32 || Bit(c.regs[REG_F], FLAG_PLACE_C))
  {
    CarryEffect(c, Add, a, b, cf);
  }

  /// sub: c is the wrapped difference and REG_C is 1 exactly when a < b.
  lemma SubEffect(c: Core, a: Field, b: Field, cf: Field)
    requires c.Valid() && IsReg(a) && IsReg(b) && IsReg(cf) && cf != REG_C && cf != REG_F
    ensures var r := ExecCarry(c, Sub, a, b, cf);
      && r.regs[cf] - TWO32 * r.regs[REG_C] == c.regs[a] as int - c.regs[b]
      && (r.regs[REG_C] == 1 <==> c.regs[a] < c.regs[b])
  {
    CarryEffect(c, Sub, a, b, cf);
  }

  /// mul: c holds the low word and REG_C the high word of the 64-bit product.
  lemma MulEffect(c: Core, a: Field, b: Field, cf: Field)
    requires c.Valid() && IsReg(a) && IsReg(b) && IsReg(cf) && cf != REG_C && cf != REG_F
    ensures var r := ExecCarry(c, Mul, a, b, cf);
      r.regs[cf] + TWO32 * r.regs[REG_C] == c.regs[a] as int * c.regs[b]
  {
    CarryEffect(c, Mul, a, b, cf);
  }

  /// cmul: the carry word read from REG_C is added into the 64-bit product.
  lemma CMulEffect(c: Core, a: Field, b: Field, cf: Field)
    requires c.Valid() && IsReg(a) && IsReg(b) && IsReg(cf) && cf != REG_C && cf != REG_F
    ensures var r := ExecCarry(c, CMul, a, b, cf);
      r.regs[cf] + TWO32 * r.regs[REG_C] == c.regs[a] as int * c.regs[b] + c.regs[REG_C]
  {
    CarryEffect(c, CMul, a, b, cf);
  }

  /// iadd: REG_C is 1 exactly on signed overflow; otherwise c is the signed sum.
  lemma IAddEffect(c: Core, a: Field, b: Field, cf: Field)
    requires c.Valid() && IsReg(a) && IsReg(b) && IsReg(cf) && cf != REG_C && cf != REG_F
    ensures var r := ExecCarry(c, IAdd, a, b, cf);
      var s := Signed(c.regs[a]) + Signed(c.regs[b]);
      && (r.regs[REG_C] == 1 <==> !InI32(s))
      && (InI32(s) ==> Signed(r.regs[cf]) == s)
  {
    CarryEffect(c, IAdd, a, b, cf);
  }

  /// imul, ipow, shl, shr: c receives the wrapped result and C is ORed in on overflow;
  /// REG_C is left alone.
  lemma OverflowEffect(c: Core, op: OverflowOp, a: Field, b: Field, cf: Field)
    requires c.Valid() && IsReg(a) && IsReg(b) && IsReg(cf) && cf != REG_F
    ensures var r := ExecOverflow(c, op, a, b, cf);
      var (v, o) := OverflowResult(op, c.regs[a], c.regs[b]);
      && r.regs[cf] == v
      && FlagsOred(c.regs[REG_F], r.regs[REG_F], FLAG_PLACE_C, o)
      && RegsKept(c, r, {cf, REG_F})
  {
    var (v, o) := OverflowResult(op, c.regs[a], c.regs[b]);
    OrFlagEffect(WriteReg(c, cf, v), FLAG_PLACE_C, o);
  }

  /// shl: a shift by 32 or more is flagged and shifts by b mod 32.
  lemma ShlEffect(c: Core, a: Field, b: Field, cf: Field)
    requires c.Valid() && IsReg(a) && IsReg(b) && IsReg(cf) && cf != REG_F
    ensures var r := ExecOverflow(c, Shl, a, b, cf);
      && r.regs[cf] == WrappingShl(c.regs[a], c.regs[b])
      && (Bit(r.regs[REG_F], FLAG_PLACE_C) <==> c.regs[b] >= 32 || Bit(c.regs[REG_F], FLAG_PLACE_C))
  {
    OverflowEffect(c, Shl, a, b, cf);
  }

  /// div, rem, pow, idiv, irem, ireme: on success c receives the value; on failure c
  /// is not written and only F gains the error bit (L for division, C for pow).
  lemma CheckedEffect(c: Core, op: CheckedOp, a: Field, b: Field, cf: Field)
    requires c.Valid() && IsReg(a) && IsReg(b) && IsReg(cf)
    ensures var r := ExecChecked(c, op, a, b, cf);
      match CheckedResult(op, c.regs[a], c.regs[b])
      case Some(v) => r.regs == c.regs[cf := v]
      case None =>
        && FlagsOred(c.regs[REG_F], r.regs[REG_F], CheckedErrorPlace(op), true)
        && RegsKept(c, r, {REG_F})
  {
    if CheckedResult(op, c.regs[a], c.regs[b]).None? {
      OrFlagEffect(c, CheckedErrorPlace(op), true);
    }
  }

  /// A zero divisor leaves c untouched and sets L, for every division instruction.
  lemma DivideByZeroSetsL(c: Core, op: CheckedOp, a: Field, b: Field, cf: Field)
    requires c.Valid() && IsReg(a) && IsReg(b) && IsReg(cf) && op != Pow && c.regs[b] == 0
    ensures var r := ExecChecked(c, op, a, b, cf);
      Bit(r.regs[REG_F], FLAG_PLACE_L) && RegsKept(c, r, {REG_F})
  {
    CheckedEffect(c, op, a, b, cf);
  }

  /// idiv of i32::MIN by -1 is refused like a zero divisor.
  lemma SignedDivOverflowSetsL(c: Core, a: Field, b: Field, cf: Field)
    requires c.Valid() && IsReg(a) && IsReg(b) && IsReg(cf)
    requires c.regs[a] == TWO31 && c.regs[b] == TWO32 - 1
    ensures var r := ExecChecked(c, IDiv, a, b, cf);
      Bit(r.regs[REG_F], FLAG_PLACE_L) && RegsKept(c, r, {REG_F})
  {
    CheckedEffect(c, IDiv, a, b, cf);
  }

  /// cmp/icmp: Z reports equality, S reports "less than", every other F bit and every
  /// other register is kept.
  lemma CompareEffect(c: Core, signed: bool, a: Field, b: Field)
    requires c.Valid() && IsReg(a) && IsReg(b)
    ensures var r := ExecCompare(c, signed, a, b);
      var x, y := c.regs[a], c.regs[b];
      && (Bit(r.regs[REG_F], FLAG_PLACE_Z) <==> x == y)
      && (Bit(r.regs[REG_F], FLAG_PLACE_S) <==> if signed then Signed(x) < Signed(y) else x < y)
      && (forall j :: 0 <= j < 32 && j != FLAG_PLACE_Z && j != FLAG_PLACE_S ==>
            (Bit(r.regs[REG_F], j) <==> Bit(c.regs[REG_F], j)))
      && RegsKept(c, r, {REG_F})
      && r.mem == c.mem
  {
    var x, y := c.regs[a], c.regs[b];
    var c1 := PutFlag(c, FLAG_PLACE_Z, x == y);
    PutFlagEffect(c, FLAG_PLACE_Z, x == y);
    PutFlagEffect(c1, FLAG_PLACE_S, if signed then Signed(x) < Signed(y) else x < y);
  }

  /// Jumps with a register operand: I becomes a when the condition holds (always for
  /// jmp, F bit set for jz/js/jc/je/jl, clear for jnz/jns/jnc/jne/jnl), else stays.
  lemma JumpEffect(c: Core, op: JumpOp, a: Field)
    requires c.Valid() && IsReg(a) && !op.Clear?
    ensures var r := ExecJump(c, op, a);
      var taken := match op
        case Always => true
        case IfSet(p) => Bit(c.regs[REG_F], p)
        case IfClear(p) => !Bit(c.regs[REG_F], p)
        case Clear(_) => false;
      && r.regs[REG_I] == (if taken then c.regs[a] else c.regs[REG_I])
      && RegsKept(c, r, {REG_I})
  {
    if op.IfSet? || op.IfClear? {
      MaskTest(c.regs[REG_F], op.place);
    }
  }

  /// clzf/clsf/clcf/clef/cllf clear exactly their flag.
  lemma ClearEffect(c: Core, place: FlagPlace, a: Field)
    requires c.Valid()
    ensures var r := ExecJump(c, Clear(place), a);
      FlagPut(c.regs[REG_F], r.regs[REG_F], place, false) && RegsKept(c, r, {REG_F})
  {
    PutFlagEffect(c, place, false);
  }

  /// A jump whose target is a literal takes the word after the instruction; when it is
  /// not taken, I has moved past that word.
  lemma LiteralJumpEffect(c: Core, op: JumpOp)
    requires c.Valid() && !op.Clear? && WordInWindow(c, c.regs[REG_I])
    ensures var r := ExecJump(c, op, LITERAL_FIELD);
      var i := c.regs[REG_I];
      var target := FromLe(c.mem[i], c.mem[i + 1], c.mem[i + 2], c.mem[i + 3]);
      var taken := match op
        case Always => true
        case IfSet(p) => Bit(c.regs[REG_F], p)
        case IfClear(p) => !Bit(c.regs[REG_F], p)
        case Clear(_) => false;
      && r.regs[REG_I] == (if taken then target else (i + 4) % TWO32)
      && RegsKept(c, r, {REG_I}) && r.mem == c.mem
  {
    if op.IfSet? || op.IfClear? {
      MaskTest(c.regs[REG_F], op.place);
    }
  }

  /// mov copies a to b; nothing else changes.
  lemma MovEffect(c: Core, a: Field, b: Field)
    requires c.Valid() && IsReg(a) && IsReg(b)
    ensures ExecUnary(c, Mov, a, b) == c.(regs := c.regs[b := c.regs[a]])
  {
  }

  /// ld reads the little-endian word at address a into b.
  lemma LdEffect(c: Core, a: Field, b: Field)
    requires c.Valid() && IsReg(a) && IsReg(b) && WordInWindow(c, c.regs[a])
    ensures var r := ExecLd(c, a, b);
      LeBytes(r.regs[b]) == c.mem[c.regs[a]..c.regs[a] + 4] && RegsKept(c, r, {b})
  {
  }

  /// st writes operand b as a little-endian word at address a (the address comes first).
  lemma StEffect(c: Core, a: Field, b: Field)
    requires c.Valid() && IsReg(a) && IsReg(b) && WordInWindow(c, c.regs[a])
    ensures var r := ExecSt(c, a, b);
      r.regs == c.regs && r.mem[c.regs[a]..c.regs[a] + 4] == LeBytes(c.regs[b])
      && (forall i :: 0 <= i < |c.mem| && !(c.regs[a] <= i < c.regs[a] + 4) ==> r.mem[i] == c.mem[i])
  {
  }

  /// st then ld at the same address gives back the stored word.
  lemma StLdRoundTrip(c: Core, a: Field, b: Field, d: Field)
    requires c.Valid() && IsReg(a) && IsReg(b) && IsReg(d) && WordInWindow(c, c.regs[a])
    ensures ExecLd(ExecSt(c, a, b), a, d).regs[d] == c.regs[b]
  {
    var c1 := ExecSt(c, a, b);
    var addr := c.regs[a];
    var w := ExecLd(c1, a, d).regs[d];
    assert LeBytes(w) == LeBytes(c.regs[b]);
    LeRoundTrip(w);
    LeRoundTrip(c.regs[b]);
  }

  /// As written, ld after st at the same address reads the word that was there
  /// before the store.
  lemma StLdAsWritten(c: Core, a: Field, b: Field, d: Field)
    requires c.Valid() && IsReg(a) && IsReg(b) && IsReg(d) && WordInWindow(c, c.regs[a])
    ensures ExecLd(ExecStAsWritten(c, a, b), a, d).regs[d] == ReadU32(c, c.regs[a]).1
  {
  }

  /// Four zero bytes, address 0 in register 0 and the word 1 in register 1:
  /// as written, st then ld into register 2 gives 0; as intended it gives 1.
  lemma StoreLostAsWritten()
    ensures var c := Core(seq(REG_FILE_SIZE, k => if k == 1 then 1 else 0), [0, 0, 0, 0], 0, 4);
      && ExecLd(ExecStAsWritten(c, 0, 1), 0, 2).regs[2] == 0
      && ExecLd(ExecSt(c, 0, 1), 0, 2).regs[2] == 1
  {
    var c := Core(seq(REG_FILE_SIZE, k => if k == 1 then 1 else 0), [0, 0, 0, 0], 0, 4);
    StLdAsWritten(c, 0, 1, 2);
    StLdRoundTrip(c, 0, 1, 2);
  }

  /// ld8 replaces only the low byte of b with the byte at address a.
  lemma Ld8Effect(c: Core, a: Field, b: Field)
    requires c.Valid() && IsReg(a) && IsReg(b) && ByteInWindow(c, c.regs[a])
    ensures ExecLd8(c, a, b).Some?
    ensures var r := ExecLd8(c, a, b).value;
      && r.regs[b] % TWO8 == c.mem[c.regs[a]]
      && r.regs[b] / TWO8 == c.regs[b] / TWO8
      && RegsKept(c, r, {b})
  {
    var x := c.regs[b];
    var byte := c.mem[c.regs[a]];
    var r := Or32(And32(x, Not32(0xFF)), byte);
    assert ExecLd8(c, a, b) == Some(c.(regs := c.regs[b := r]));
    LowByteReplaced(x, byte);
    DivModByte(x / TWO8, byte);
  }

  /// `(x & !0xFF) | byte` keeps the upper 24 bits of x and has byte as its low 8 bits.
  lemma LowByteReplaced(x: u32, byte: u8)
    ensures Or32(And32(x, Not32(0xFF)), byte) == (x / TWO8) * TWO8 + byte
  {
    var r := Or32(And32(x, Not32(0xFF)), byte);
    var e := (x / TWO8) * TWO8 + byte;
    Pow2Of32();
    forall j | 0 <= j < 32
      ensures Bit(r, j) <==> Bit(e, j)
    {
      LowByteReplacedBit(x, byte, j);
    }
    BitsDetermine(r, e, 32);
  }

  lemma LowByteReplacedBit(x: u32, byte: u8, j: nat)
    requires j < 32
    ensures Bit(Or32(And32(x, Not32(0xFF)), byte), j) <==> Bit((x / TWO8) * TWO8 + byte, j)
  {
    var m := Not32(0xFF);
    Bitwise32(And32(x, m), byte, j);
    Bitwise32(x, m, j);
    HighMaskBits(j);
    if j < 8 {
      LowBitsSplit(x / TWO8, byte, j);
    } else {
      UpperBitsKept(x, byte, j);
    }
  }

  /// The bits of `!0xFF` are exactly bits 8 to 31.
  lemma HighMaskBits(j: nat)
    requires j < 32
    ensures Bit(Not32(0xFF), j) <==> 8 <= j
  {
    Pow2Of32();
    NotBits(0xFF, 32, j);
    LowByteBits(j);
  }

  /// From bit 8 up, `(x / 256) * 256 + byte` has the bits of x and byte has none.
  lemma UpperBitsKept(x: u32, byte: u8, j: nat)
    requires 8 <= j < 32
    ensures Bit((x / TWO8) * TWO8 + byte, j) <==> Bit(x, j)
    ensures !Bit(byte, j)
  {
    LowBitsSplit(x / TWO8, byte, j);
    LowBitsSplit(x / TWO8, x % TWO8, j);
    assert x == (x / TWO8) * TWO8 + x % TWO8;
    LowBitsSplit(0, byte, j);
    assert byte == 0 * TWO8 + byte;
    ZeroHasNoBits(j - 8);
  }

  /// Bit j of `q * 256 + lo` is bit j of lo below 8 and bit j-8 of q from 8 up.
  lemma {:induction false} LowBitsSplit(q: nat, lo: nat, j: nat)
    requires lo < TWO8
    ensures Bit(q * TWO8 + lo, j) <==> if j < 8 then Bit(lo, j) else Bit(q, j - 8)
  {
    ShiftBits(q, lo, 8, j);
    Pow2Of32();
  }

  lemma {:induction false} ShiftBits(q: nat, lo: nat, k: nat, j: nat)
    requires lo < Pow2(k)
    ensures Bit(q * Pow2(k) + lo, j) <==> if j < k then Bit(lo, j) else Bit(q, j - k)
  {
    if k > 0 {
      var x := q * Pow2(k) + lo;
      assert x / 2 == q * Pow2(k - 1) + lo / 2;
      assert x % 2 == lo % 2;
      if j > 0 {
        ShiftBits(q, lo / 2, k - 1, j - 1);
      }
    }
  }

  /// The bits of 0xFF are exactly bits 0 to 7.
  lemma LowByteBits(j: nat)
    ensures Bit(0xFF, j) <==> j < 8
  {
    ShiftBits(0, 0xFF, 8, j);
    Pow2Of32();
    if j >= 8 {
      ZeroHasNoBits(j - 8);
    } else {
      assert 0xFF == 0 * Pow2(8) + 0xFF;
      AllOnes(8, j);
    }
  }

  lemma {:induction false} AllOnes(n: nat, j: nat)
    requires j < n
    ensures Bit(Pow2(n) - 1, j)
  {
    if j > 0 {
      assert (Pow2(n) - 1) / 2 == Pow2(n - 1) - 1;
      AllOnes(n - 1, j - 1);
    }
  }

  /// Any opcode outside the table raises E after the fetch, and nothing else.
  lemma UnknownOpcodeRaisesE(c: Core)
    requires c.Valid() && Fetch(c).1 >= Opcodes.COUNT
    ensures Step(c) == Done(SetError(Fetch(c).0))
  {
  }

  /// A fetch outside the window reads 0 with E set, so noop runs: the step only sets E
  /// and moves I on.
  lemma FetchOutsideWindowIsNoop(c: Core)
    requires c.Valid() && !WordInWindow(c, c.regs[REG_I])
    ensures Step(c) == Done(AdvanceIp(SetError(c)))
  {
    assert SplitInstr(0) == (0, 0, 0, 0);
  }

  /// The fetched word's fields are the instruction's opcode and operands, and I has
  /// moved past it before the action runs.
  lemma FetchDecodes(c: Core)
    requires c.Valid() && WordInWindow(c, c.regs[REG_I])
    ensures var i := c.regs[REG_I];
      var w := FromLe(c.mem[i], c.mem[i + 1], c.mem[i + 2], c.mem[i + 3]);
      var (c1, op, a, b, cf) := Fetch(c);
      && (op, a, b, cf) == SplitInstr(w)
      && c1 == AdvanceIp(c)
  {
  }

  /// Only the float and console instructions are left without a modelled effect, and
  /// only ld8 with a field of 64 or more panics.
  lemma DecodeCoverage(op: int)
    requires 0 <= op < Opcodes.COUNT
    ensures Decode(op) == FloatOp <==> (34 <= op <= 80 || op == 83)
    ensures Decode(op) == StdioOp <==> 100 <= op <= 102
    ensures Decode(op) == Ld8 <==> op == Opcodes.LD8
  {
  }
}
