/// The thread of src/machine/thread/mod.rs as an object: its 64-word register file and
/// the machine memory it works on are arrays written in place, and every method is
/// proved to have exactly the effect of the matching function of ThreadSpec/InstrSpec.
module VmThread {
  import opened Bits
  import opened Wrappers
  import opened IntOps
  import opened ThreadSpec
  import opened InstrSpec
  import Ancestry

  /// How `exec_instr` ended.
  datatype Status = Ran | NotModelled | Panicked

  /// The step outcome a status and the final state stand for.
  function AsOutcome(s: Status, c: Core): Outcome
  {
    match s
    case Ran => Done(c)
    case NotModelled => Unmodelled(c)
    case Panicked => Panic
  }

  /// The parent id of every thread in the machine's thread table.
  ghost function Parents(threads: map<u32, Thread>): map<u32, u32>
  {
    map id | id in threads :: threads[id].parentThreadId
  }

  /// Each thread is filed in the table under its own id.
  ghost predicate FiledById(threads: map<u32, Thread>)
  {
    forall id :: id in threads ==> threads[id].threadId == id
  }

  class Thread {
    var registers: array<u32>
    /// The machine's memory; other threads may hold the same array.
    var memory: array<u8>
    var accessMinAddr: u32
    var accessMaxAddr: u32
    const threadId: u32
    const parentThreadId: u32

    ghost predicate Valid()
      reads this
    {
      registers.Length == REG_FILE_SIZE && accessMaxAddr as int <= memory.Length
    }

    /// The state the instructions act on.
    function Core(): (c: Core)
      reads this, registers, memory
      requires Valid()
      ensures c.Valid()
    {
      ThreadSpec.Core(registers[..], memory[..], accessMinAddr, accessMaxAddr)
    }

    /// A thread with zeroed registers over `memory`, allowed to touch [min, max).
    constructor (memory: array<u8>, min: u32, max: u32, id: u32, parent: u32)
      requires max as int <= memory.Length
      ensures Valid() && fresh(registers)
      ensures this.memory == memory && accessMinAddr == min && accessMaxAddr == max
      ensures threadId == id && parentThreadId == parent
      ensures forall r :: 0 <= r < REG_FILE_SIZE ==> registers[r] == 0
    {
      registers := new u32[REG_FILE_SIZE](_ => 0);
      this.memory := memory;
      accessMinAddr := min;
      accessMaxAddr := max;
      threadId := id;
      parentThreadId := parent;
    }

    method RaiseFlag(bit: u32)
      requires Valid()
      modifies registers
      ensures Valid() && Core() == SetFlag(old(Core()), bit)
    {
      registers[REG_F] := Or32(registers[REG_F], bit);
    }

    method RaiseError()
      requires Valid()
      modifies registers
      ensures Valid() && Core() == SetError(old(Core()))
    {
      RaiseFlag(FLAG_BIT_E);
    }

    /// `read_u8`
    method ReadU8(addr: u32) returns (v: u8)
      requires Valid()
      modifies registers
      ensures Valid() && (Core(), v) == ThreadSpec.ReadU8(old(Core()), addr)
    {
      if accessMinAddr <= addr < accessMaxAddr {
        v := memory[addr];
      } else {
        RaiseError();
        v := 0;
      }
    }

    /// `write_u8`
    method WriteU8(addr: u32, value: u8)
      requires Valid()
      modifies registers, memory
      ensures Valid() && Core() == ThreadSpec.WriteU8(old(Core()), addr, value)
    {
      if accessMinAddr <= addr < accessMaxAddr {
        memory[addr] := value;
      } else {
        RaiseError();
      }
    }

    /// `read_u32`: little-endian.
    method ReadU32(addr: u32) returns (v: u32)
      requires Valid()
      modifies registers
      ensures Valid() && (Core(), v) == ThreadSpec.ReadU32(old(Core()), addr)
    {
      if accessMinAddr <= addr && addr as int + 3 < accessMaxAddr as int {
        v := FromLe(memory[addr], memory[addr + 1], memory[addr + 2], memory[addr + 3]);
      } else {
        RaiseError();
        v := 0;
      }
    }

    /// `write_u32`: the four little-endian bytes, copied in place.
    method WriteU32(addr: u32, value: u32)
      requires Valid()
      modifies registers, memory
      ensures Valid() && Core() == ThreadSpec.WriteU32(old(Core()), addr, value)
    {
      if accessMinAddr <= addr && addr as int + 3 < accessMaxAddr as int {
        var bytes := LeBytes(value);
        var i := 0;
        while i < 4
          modifies memory
          invariant 0 <= i <= 4
          invariant memory[..] == PartlyStored(old(memory[..]), addr, bytes, i)
        {
          PartlyStoredStep(old(memory[..]), addr, bytes, i);
          memory[addr as int + i] := bytes[i];
          i := i + 1;
        }
        PartlyStoredAll(old(memory[..]), addr, value);
      } else {
        RaiseError();
      }
    }

    /// `advance_ip`
    method AdvanceIp()
      requires Valid()
      modifies registers
      ensures Valid() && Core() == ThreadSpec.AdvanceIp(old(Core()))
    {
      registers[REG_I] := (registers[REG_I] + 4) % TWO32;
    }

    /// `read_arg`
    method ReadArg(reg: Field) returns (v: u32)
      requires Valid()
      modifies registers
      ensures Valid() && (Core(), v) == ThreadSpec.ReadArg(old(Core()), reg)
    {
      if reg == LITERAL_FIELD {
        v := ReadU32(registers[REG_I]);
        AdvanceIp();
      } else if reg < NUM_REGS {
        v := registers[reg];
      } else {
        RaiseError();
        v := 0;
      }
    }

    /// `write_reg`
    method WriteReg(reg: Field, value: u32)
      requires Valid()
      modifies registers
      ensures Valid() && Core() == ThreadSpec.WriteReg(old(Core()), reg, value)
    {
      if reg < NUM_REGS {
        registers[reg] := value;
      } else {
        RaiseError();
      }
    }

    method ReadTwo(a: Field, b: Field) returns (x: u32, y: u32)
      requires Valid()
      modifies registers
      ensures Valid() && (Core(), x, y) == InstrSpec.ReadTwo(old(Core()), a, b)
    {
      x := ReadArg(a);
      y := ReadArg(b);
    }

    /// `F |= on << place`
    method OrFlag(place: nat, on: bool)
      requires Valid() && place < 32
      modifies registers
      ensures Valid() && Core() == InstrSpec.OrFlag(old(Core()), place, on)
    {
      Pow2Monotone(place, 32);
      Pow2Of32();
      registers[REG_F] := Or32(registers[REG_F], if on then Pow2(place) else 0);
    }

    /// `F |= bit` or `F &= !bit`
    method PutFlag(place: nat, on: bool)
      requires Valid() && place < 32
      modifies registers
      ensures Valid() && Core() == InstrSpec.PutFlag(old(Core()), place, on)
    {
      Pow2Monotone(place, 32);
      Pow2Of32();
      var f := registers[REG_F];
      registers[REG_F] := if on then Or32(f, Pow2(place)) else And32(f, Not32(Pow2(place)));
    }

    method ExecCarry(op: CarryOp, a: Field, b: Field, cf: Field)
      requires Valid()
      modifies registers
      ensures Valid() && Core() == InstrSpec.ExecCarry(old(Core()), op, a, b, cf)
    {
      var x, y := ReadTwo(a, b);
      var (v, co) := CarryResult(op, x, y, registers[REG_C]);
      WriteReg(cf, v);
      registers[REG_C] := co;
      OrFlag(FLAG_PLACE_C, co != 0);
    }

    method ExecOverflow(op: OverflowOp, a: Field, b: Field, cf: Field)
      requires Valid()
      modifies registers
      ensures Valid() && Core() == InstrSpec.ExecOverflow(old(Core()), op, a, b, cf)
    {
      var x, y := ReadTwo(a, b);
      var (v, o) := OverflowResult(op, x, y);
      WriteReg(cf, v);
      OrFlag(FLAG_PLACE_C, o);
    }

    method ExecChecked(op: CheckedOp, a: Field, b: Field, cf: Field)
      requires Valid()
      modifies registers
      ensures Valid() && Core() == InstrSpec.ExecChecked(old(Core()), op, a, b, cf)
    {
      var x, y := ReadTwo(a, b);
      match CheckedResult(op, x, y)
      case Some(v) => WriteReg(cf, v);
      case None => OrFlag(CheckedErrorPlace(op), true);
    }

    method ExecPlain(op: PlainOp, a: Field, b: Field, cf: Field)
      requires Valid()
      modifies registers
      ensures Valid() && Core() == InstrSpec.ExecPlain(old(Core()), op, a, b, cf)
    {
      var x, y := ReadTwo(a, b);
      WriteReg(cf, PlainResult(op, x, y));
    }

    method ExecUnary(op: UnaryOp, a: Field, b: Field)
      requires Valid()
      modifies registers
      ensures Valid() && Core() == InstrSpec.ExecUnary(old(Core()), op, a, b)
    {
      var x := ReadArg(a);
      WriteReg(b, UnaryResult(op, x));
    }

    method ExecCompare(signed: bool, a: Field, b: Field)
      requires Valid()
      modifies registers
      ensures Valid() && Core() == InstrSpec.ExecCompare(old(Core()), signed, a, b)
    {
      var x, y := ReadTwo(a, b);
      PutFlag(FLAG_PLACE_Z, x == y);
      PutFlag(FLAG_PLACE_S, if signed then Signed(x) < Signed(y) else x < y);
    }

    method ExecJump(op: JumpOp, a: Field)
      requires Valid()
      modifies registers
      ensures Valid() && Core() == InstrSpec.ExecJump(old(Core()), op, a)
    {
      if op.Clear? {
        PutFlag(op.place, false);
      } else {
        var target := ReadArg(a);
        var taken := match op
          case Always => true
          case IfSet(p) => FlagMask(Core(), p) != 0
          case IfClear(p) => FlagMask(Core(), p) == 0
          case Clear(_) => false;
        if taken {
          registers[REG_I] := target;
        }
      }
    }

    method ExecLd(a: Field, b: Field)
      requires Valid()
      modifies registers
      ensures Valid() && Core() == InstrSpec.ExecLd(old(Core()), a, b)
    {
      var addr := ReadArg(a);
      var v := ReadU32(addr);
      WriteReg(b, v);
    }

    method ExecSt(a: Field, b: Field)
      requires Valid()
      modifies registers, memory
      ensures Valid() && Core() == InstrSpec.ExecSt(old(Core()), a, b)
    {
      var addr, v := ReadTwo(a, b);
      WriteU32(addr, v);
    }

    /// ld8; a destination field of 64 or more is where the source indexes out of bounds.
    method ExecLd8(a: Field, b: Field) returns (ok: bool)
      requires Valid()
      modifies registers
      ensures Valid() && ok == (b < REG_FILE_SIZE)
      ensures ok ==> InstrSpec.ExecLd8(old(Core()), a, b) == Some(Core())
    {
      var addr, x := ReadTwo(a, b);
      var byte := ReadU8(addr);
      ok := b < REG_FILE_SIZE;
      if ok {
        registers[b] := Or32(And32(x, Not32(0xFF)), byte);
      }
    }

    method ExecSt8(a: Field, b: Field)
      requires Valid()
      modifies registers, memory
      ensures Valid() && Core() == InstrSpec.ExecSt8(old(Core()), a, b)
    {
      var addr, v := ReadTwo(a, b);
      WriteU8(addr, v % TWO8);
    }

    /// `is_child_of`: a thread is its own child; otherwise walk the parent ids in the
    /// thread table until one equals tid (true), an id is unknown (false) or 0 is left.
    method IsChildOf(threads: map<u32, Thread>, tid: u32) returns (r: bool)
      requires Ancestry.ParentsPrecede(Parents(threads))
      ensures r == Ancestry.IsChildOf(Parents(threads), threadId, tid)
    {
      if tid == threadId {
        return true;
      }
      var id := threadId;
      while id != 0
        invariant Ancestry.Walk(Parents(threads), threadId, tid) == Ancestry.Walk(Parents(threads), id, tid)
        decreases id
      {
        if id !in threads {
          return false;
        }
        id := threads[id].parentThreadId;
        if id == tid {
          return true;
        }
      }
      return false;
    }

    /// `is_parent_of`: t must be in the table, and this thread must be t's ancestor.
    method IsParentOf(threads: map<u32, Thread>, t: u32) returns (r: bool)
      requires Ancestry.ParentsPrecede(Parents(threads)) && FiledById(threads)
      ensures r == Ancestry.IsParentOf(Parents(threads), threadId, t)
    {
      if t !in threads {
        return false;
      }
      r := threads[t].IsChildOf(threads, threadId);
    }

    /// `exec_instr`: fetch the word at I, split it, advance I, run one action.
    method ExecInstr() returns (status: Status)
      requires Valid()
      modifies registers, memory
      ensures Valid()
      ensures InstrSpec.Step(old(Core())) == AsOutcome(status, Core())
    {
      var w := ReadU32(registers[REG_I]);
      var (op, a, b, cf) := SplitInstr(w);
      AdvanceIp();
      assert Fetch(old(Core())) == (Core(), op, a, b, cf);
      var ins := Decode(op);
      if ins.Carry? || ins.Overflow? || ins.Checked? || ins.Plain? || ins.Unary? || ins.Compare? {
        DispatchArith(ins, a, b, cf);
        status := Ran;
      } else if ins.Jump? || ins.Ld? || ins.St? || ins.Ld8? || ins.St8? {
        status := DispatchMemory(ins, a, b);
      } else if ins.Unknown? {
        RaiseError();
        status := Ran;
      } else if ins.Noop? {
        status := Ran;
      } else {
        status := NotModelled;
      }
    }

    /// The arithmetic and comparison actions: each writes registers only.
    method DispatchArith(ins: Instr, a: Field, b: Field, cf: Field)
      requires Valid()
      requires ins.Carry? || ins.Overflow? || ins.Checked? || ins.Plain? || ins.Unary? || ins.Compare?
      modifies registers
      ensures Valid() && Execute(old(Core()), ins, a, b, cf) == Done(Core())
    {
      match ins
      case Carry(o) => ExecCarry(o, a, b, cf);
      case Overflow(o) => ExecOverflow(o, a, b, cf);
      case Checked(o) => ExecChecked(o, a, b, cf);
      case Plain(o) => ExecPlain(o, a, b, cf);
      case Unary(o) => ExecUnary(o, a, b);
      case Compare(s) => ExecCompare(s, a, b);
    }

    /// The jump and memory actions; `ld8` into a register past the file panics.
    method DispatchMemory(ins: Instr, a: Field, b: Field) returns (status: Status)
      requires Valid()
      requires ins.Jump? || ins.Ld? || ins.St? || ins.Ld8? || ins.St8?
      modifies registers, memory
      ensures Valid() && Execute(old(Core()), ins, a, b, 0) == AsOutcome(status, Core())
    {
      status := Ran;
      match ins
      case Jump(o) => ExecJump(o, a);
      case Ld => ExecLd(a, b);
      case St => ExecSt(a, b);
      case Ld8 =>
        var ok := ExecLd8(a, b);
        if !ok {
          status := Panicked;
        }
      case St8 => ExecSt8(a, b);
    }
  }
}
