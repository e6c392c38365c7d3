/// The state the VM's instructions act on (src/machine/thread/mod.rs), as a value:
/// the thread's 64-word register file, the machine's byte memory and the thread's
/// access window. Every effect of the thread's helpers is a function on this value.
module ThreadSpec {
  import opened Bits

  /// Instruction pointer, frame pointer, stack pointer, flags, interrupting device, carry.
  const REG_I: int := 0x30
  const REG_W: int := 0x31
  const REG_S: int := 0x32
  const REG_F: int := 0x33
  const REG_D: int := 0x34
  const REG_C: int := 0x35
  /// One past the last valid register; the register file itself has 64 words.
  const NUM_REGS: int := 0x36
  const REG_FILE_SIZE: int := 64

  const FLAG_PLACE_Z: nat := 0
  const FLAG_PLACE_S: nat := 1
  const FLAG_PLACE_C: nat := 2
  const FLAG_PLACE_E: nat := 3
  const FLAG_PLACE_M: nat := 4
  const FLAG_PLACE_L: nat := 5
  const FLAG_BIT_Z: u32 := 1
  const FLAG_BIT_S: u32 := 2
  const FLAG_BIT_C: u32 := 4
  const FLAG_BIT_E: u32 := 8
  const FLAG_BIT_L: u32 := 32

  /// The operand field that stands for "the literal word after the instruction".
  const LITERAL_FIELD: int := 0x7F

  type Field = x: int | 0 <= x < 0x80

  datatype Core = Core(regs: seq<u32>, mem: seq<u8>, minAddr: u32, maxAddr: u32)
  {
    ghost predicate Valid()
    {
      |regs| == REG_FILE_SIZE && maxAddr <= |mem|
    }
  }

  lemma FlagBitsArePowers()
    ensures FLAG_BIT_Z == Pow2(FLAG_PLACE_Z) && FLAG_BIT_S == Pow2(FLAG_PLACE_S)
    ensures FLAG_BIT_C == Pow2(FLAG_PLACE_C) && FLAG_BIT_E == Pow2(FLAG_PLACE_E)
    ensures FLAG_BIT_L == Pow2(FLAG_PLACE_L)
  {
    assert Pow2(1) == 2;
    assert Pow2(3) == 8;
    assert Pow2(5) == 32;
  }

  /// `F |= bit`: the only way the helpers report a failure.
  function SetFlag(c: Core, bit: u32): Core
    requires c.Valid()
  {
    c.(regs := c.regs[REG_F := Or32(c.regs[REG_F], bit)])
  }

  /// Everything but register F is unchanged, F keeps all its bits and gains bit `place`.
  ghost predicate FlagRaised(c0: Core, c1: Core, place: nat)
    requires c0.Valid() && c1.Valid()
  {
    && c1.mem == c0.mem && c1.minAddr == c0.minAddr && c1.maxAddr == c0.maxAddr
    && (forall r :: 0 <= r < REG_FILE_SIZE && r != REG_F ==> c1.regs[r] == c0.regs[r])
    && (forall j :: 0 <= j < 32 ==> (Bit(c1.regs[REG_F], j) <==> j == place || Bit(c0.regs[REG_F], j)))
  }

  lemma SetFlagRaises(c: Core, place: nat)
    requires c.Valid() && place < 32 && Pow2(place) < TWO32
    ensures SetFlag(c, Pow2(place)).Valid()
    ensures FlagRaised(c, SetFlag(c, Pow2(place)), place)
  {
    forall j | 0 <= j < 32
      ensures Bit(SetFlag(c, Pow2(place)).regs[REG_F], j) <==> j == place || Bit(c.regs[REG_F], j)
    {
      SetFlagBits(c.regs[REG_F], place, j);
    }
  }

  function SetError(c: Core): (r: Core)
    requires c.Valid()
    ensures r.Valid() && FlagRaised(c, r, FLAG_PLACE_E)
  {
    FlagBitsArePowers();
    SetFlagRaises(c, FLAG_PLACE_E);
    SetFlag(c, FLAG_BIT_E)
  }

  predicate ByteInWindow(c: Core, addr: u32)
  {
    c.minAddr <= addr < c.maxAddr
  }

  predicate WordInWindow(c: Core, addr: u32)
  {
    c.minAddr <= addr && addr + 3 < c.maxAddr
  }

  /// `read_u8`: the byte at addr inside the window; otherwise E is raised and 0 returned.
  function ReadU8(c: Core, addr: u32): (r: (Core, u8))
    requires c.Valid()
    ensures r.0.Valid() && r.0.mem == c.mem
    ensures ByteInWindow(c, addr) ==> r == (c, c.mem[addr])
    ensures !ByteInWindow(c, addr) ==> r.1 == 0 && FlagRaised(c, r.0, FLAG_PLACE_E)
  {
    if ByteInWindow(c, addr) then (c, c.mem[addr]) else (SetError(c), 0)
  }

  /// `write_u8`: stores inside the window; otherwise only raises E.
  function WriteU8(c: Core, addr: u32, value: u8): (r: Core)
    requires c.Valid()
    ensures r.Valid() && r.regs == (if ByteInWindow(c, addr) then c.regs else SetError(c).regs)
    ensures ByteInWindow(c, addr) ==> r.mem == c.mem[addr := value]
    ensures !ByteInWindow(c, addr) ==> FlagRaised(c, r, FLAG_PLACE_E)
  {
    if ByteInWindow(c, addr) then c.(mem := c.mem[addr := value]) else SetError(c)
  }

  /// `read_u32`: the little-endian word at addr..addr+3 inside the window; otherwise E and 0.
  function ReadU32(c: Core, addr: u32): (r: (Core, u32))
    requires c.Valid()
    ensures r.0.Valid() && r.0.mem == c.mem
    ensures WordInWindow(c, addr) ==> r.0 == c && LeBytes(r.1) == c.mem[addr..addr + 4]
    ensures !WordInWindow(c, addr) ==> r.1 == 0 && FlagRaised(c, r.0, FLAG_PLACE_E)
  {
    if WordInWindow(c, addr) then
      LeBytesOfWord(c.mem[addr], c.mem[addr + 1], c.mem[addr + 2], c.mem[addr + 3]);
      (c, FromLe(c.mem[addr], c.mem[addr + 1], c.mem[addr + 2], c.mem[addr + 3]))
    else (SetError(c), 0)
  }

  /// The memory with the four little-endian bytes of `value` placed at addr.
  function StoreWord(mem: seq<u8>, addr: nat, value: u32): (r: seq<u8>)
    requires addr + 4 <= |mem|
    ensures |r| == |mem| && r[addr..addr + 4] == LeBytes(value)
    ensures forall i :: 0 <= i < |mem| && !(addr <= i < addr + 4) ==> r[i] == mem[i]
  {
    mem[..addr] + LeBytes(value) + mem[addr + 4..]
  }

  /// The memory while a byte-by-byte store is under way: the first `i` bytes of
  /// `bytes` are in place at `addr`, everything else is as before.
  function PartlyStored(mem: seq<u8>, addr: nat, bytes: seq<u8>, i: nat): (r: seq<u8>)
    requires addr + |bytes| <= |mem| && i <= |bytes|
    ensures |r| == |mem|
  {
    mem[..addr] + bytes[..i] + mem[addr + i..]
  }

  /// Storing the next byte extends what is in place by one.
  lemma PartlyStoredStep(mem: seq<u8>, addr: nat, bytes: seq<u8>, i: nat)
    requires addr + |bytes| <= |mem| && i < |bytes|
    ensures PartlyStored(mem, addr, bytes, i)[addr + i := bytes[i]] == PartlyStored(mem, addr, bytes, i + 1)
  {
    var before := PartlyStored(mem, addr, bytes, i);
    var after := PartlyStored(mem, addr, bytes, i + 1);
    forall k | 0 <= k < |mem|
      ensures before[addr + i := bytes[i]][k] == after[k]
    {
      if k < addr {
        assert before[k] == mem[k] && after[k] == mem[k];
      } else if k < addr + i {
        assert before[k] == bytes[k - addr] && after[k] == bytes[k - addr];
      } else if k > addr + i {
        assert before[k] == mem[k] && after[k] == mem[k];
      }
    }
  }

  /// With every byte in place the store is complete.
  lemma PartlyStoredAll(mem: seq<u8>, addr: nat, value: u32)
    requires addr + 4 <= |mem|
    ensures PartlyStored(mem, addr, LeBytes(value), 4) == StoreWord(mem, addr, value)
  {
    assert LeBytes(value)[..4] == LeBytes(value);
  }

  /// `write_u32` as intended: stores the little-endian word inside the window;
  /// otherwise only raises E.
  function WriteU32(c: Core, addr: u32, value: u32): (r: Core)
    requires c.Valid()
    ensures r.Valid() && r.regs == (if WordInWindow(c, addr) then c.regs else SetError(c).regs)
    ensures WordInWindow(c, addr) ==> r.mem == StoreWord(c.mem, addr, value)
    ensures !WordInWindow(c, addr) ==> FlagRaised(c, r, FLAG_PLACE_E)
  {
    if WordInWindow(c, addr) then c.(mem := StoreWord(c.mem, addr, value)) else SetError(c)
  }

  /// `write_u32` as src/machine/thread/mod.rs:162 is written: the copy's
  /// destination is the address of the memory's `Vec` header plus addr, not of
  /// its buffer, so the byte memory is never written. What the copy overwrites
  /// instead (the header, or whatever lies past it) is outside this model.
  /// Outside the window only E is raised, as in `WriteU32`.
  function WriteU32AsWritten(c: Core, addr: u32, value: u32): (r: Core)
    requires c.Valid()
    ensures r.Valid() && r.mem == c.mem
    ensures r.regs == (if WordInWindow(c, addr) then c.regs else SetError(c).regs)
  {
    if WordInWindow(c, addr) then c else SetError(c)
  }

  /// `advance_ip`: I moves on by one word (wrapping at 2^32).
  function AdvanceIp(c: Core): (r: Core)
    requires c.Valid()
    ensures r.Valid() && r.mem == c.mem
    ensures r.regs == c.regs[REG_I := (c.regs[REG_I] + 4) % TWO32]
  {
    c.(regs := c.regs[REG_I := (c.regs[REG_I] + 4) % TWO32])
  }

  /// `read_arg`: field 0x7F reads the literal word at I and moves I past it; a valid
  /// register number reads that register; any other field raises E and reads 0.
  function ReadArg(c: Core, reg: Field): (r: (Core, u32))
    requires c.Valid()
    ensures r.0.Valid() && r.0.mem == c.mem
    ensures reg == LITERAL_FIELD ==>
      r.1 == ReadU32(c, c.regs[REG_I]).1 && r.0 == AdvanceIp(ReadU32(c, c.regs[REG_I]).0)
    ensures reg < NUM_REGS ==> r == (c, c.regs[reg])
    ensures NUM_REGS <= reg < LITERAL_FIELD ==> r.1 == 0 && FlagRaised(c, r.0, FLAG_PLACE_E)
  {
    if reg == LITERAL_FIELD then
      var (c1, v) := ReadU32(c, c.regs[REG_I]);
      (AdvanceIp(c1), v)
    else if reg < NUM_REGS then (c, c.regs[reg])
    else (SetError(c), 0)
  }

  /// `write_reg`: writes only valid registers; any other number only raises E.
  function WriteReg(c: Core, reg: Field, value: u32): (r: Core)
    requires c.Valid()
    ensures r.Valid() && r.mem == c.mem
    ensures reg < NUM_REGS ==> r.regs == c.regs[reg := value]
    ensures reg >= NUM_REGS ==> FlagRaised(c, r, FLAG_PLACE_E)
  {
    if reg < NUM_REGS then c.(regs := c.regs[reg := value]) else SetError(c)
  }

  /// `split_instr`: opcode in the top 11 bits, then three 7-bit operand fields.
  function SplitInstr(w: u32): (r: (int, Field, Field, Field))
    ensures 0 <= r.0 < 0x800
    ensures w == r.0 * 0x20_0000 + r.1 * 0x4000 + r.2 * 0x80 + r.3
  {
    SplitParts(w);
    ((w / 0x20_0000) % 0x800, (w / 0x4000) % 0x80, (w / 0x80) % 0x80, w % 0x80)
  }

  /// The word rebuilt from its top eleven bits and three 7-bit fields.
  lemma SplitParts(w: u32)
    ensures w == ((w / 0x20_0000) % 0x800) * 0x20_0000 + ((w / 0x4000) % 0x80) * 0x4000
      + ((w / 0x80) % 0x80) * 0x80 + w % 0x80
  {
    var q1 := w / 0x80;
    var q2 := q1 / 0x80;
    var q3 := q2 / 0x80;
    assert w == q1 * 0x80 + w % 0x80;
    assert q1 == q2 * 0x80 + q1 % 0x80;
    assert q2 == q3 * 0x80 + q2 % 0x80;
    assert w / 0x4000 == q2 && w / 0x20_0000 == q3;
    assert q3 < 0x800;
  }

  /// The word an assembler packs from an opcode and three fields.
  function JoinInstr(op: int, a: Field, b: Field, c: Field): u32
    requires 0 <= op < 0x800
  {
    op * 0x20_0000 + a * 0x4000 + b * 0x80 + c
  }

  lemma SplitJoin(op: int, a: Field, b: Field, c: Field)
    requires 0 <= op < 0x800
    ensures SplitInstr(JoinInstr(op, a, b, c)) == (op, a, b, c)
  {
    var w := JoinInstr(op, a, b, c);
    var q1 := op * 0x4000 + a * 0x80 + b;
    assert w == q1 * 0x80 + c;
    assert w % 0x80 == c && w / 0x80 == q1;
    var q2 := op * 0x80 + a;
    assert q1 == q2 * 0x80 + b;
    assert (w / 0x80) % 0x80 == b;
    assert w / 0x4000 == q2;
    assert (w / 0x4000) % 0x80 == a;
    assert w / 0x20_0000 == op;
  }
}
