/// The earlier thread core of crystalvm/src/thread/mod.rs: memory checks report
/// failure through a Result instead of a flag, the upper bound is inclusive, and the
/// ancestry walk has no self check.
module LegacyThread {
  import opened Bits
  import opened ThreadSpec
  import Ancestry

  /// The outcome of a checked access: `Ok`, the `Err(())` of a failed check, an
  /// index past the end of memory (the index or slice panic of the reads and of
  /// `write_u8`; for the intended word store, a store the raw copy of `write_u32`
  /// would make out of bounds), or an `addr + 3` that leaves the u32 range, which
  /// panics in a debug build.
  datatype Access<+T> = Ok(value: T) | Err | OutOfMemory | Overflow

  predicate ByteAllowed(min: u32, max: u32, addr: u32)
  {
    min <= addr <= max
  }

  predicate WordAllowed(min: u32, max: u32, addr: u32)
  {
    min <= addr && addr as int + 3 <= max as int
  }

  /// The check `addr >= min && addr + 3 <= max` reaches the addition (the first
  /// test passed) and the sum does not fit in a u32.
  predicate WordOverflows(min: u32, addr: u32)
  {
    min <= addr && addr as int + 3 >= TWO32
  }

  /// `read_u8`
  function ReadU8(mem: seq<u8>, min: u32, max: u32, addr: u32): (r: Access<u8>)
    ensures r.Err? <==> !ByteAllowed(min, max, addr)
    ensures r.Ok? <==> ByteAllowed(min, max, addr) && addr < |mem|
    ensures r.Ok? ==> r.value == mem[addr]
  {
    if !ByteAllowed(min, max, addr) then Err
    else if addr as int < |mem| then Ok(mem[addr])
    else OutOfMemory
  }

  /// `read_u32`: little-endian, following a debug build, where `addr + 3` panics
  /// once it leaves the u32 range.
  function ReadU32(mem: seq<u8>, min: u32, max: u32, addr: u32): (r: Access<u32>)
    ensures r.Overflow? <==> WordOverflows(min, addr)
    ensures r.Err? <==> !WordAllowed(min, max, addr) && !WordOverflows(min, addr)
    ensures r.Ok? <==> WordAllowed(min, max, addr) && addr as int + 4 <= |mem|
    ensures r.Ok? ==> LeBytes(r.value) == mem[addr..addr as int + 4]
  {
    if WordOverflows(min, addr) then Overflow
    else if !WordAllowed(min, max, addr) then Err
    else if addr as int + 4 <= |mem| then
      LeBytesOfWord(mem[addr], mem[addr + 1], mem[addr + 2], mem[addr + 3]);
      Ok(FromLe(mem[addr], mem[addr + 1], mem[addr + 2], mem[addr + 3]))
    else OutOfMemory
  }

  /// The parent id of every thread in the machine's thread table.
  ghost function Parents(threads: map<u32, LegacyThread>): map<u32, u32>
  {
    map id | id in threads :: threads[id].parentThreadId
  }

  ghost predicate FiledById(threads: map<u32, LegacyThread>)
  {
    forall id :: id in threads ==> threads[id].threadId == id
  }

  class LegacyThread {
    var memory: array<u8>
    var accessMinAddr: u32
    var accessMaxAddr: u32
    const threadId: u32
    const parentThreadId: u32

    constructor (memory: array<u8>, min: u32, max: u32, id: u32, parent: u32)
      ensures this.memory == memory && accessMinAddr == min && accessMaxAddr == max
      ensures threadId == id && parentThreadId == parent
    {
      this.memory := memory;
      accessMinAddr := min;
      accessMaxAddr := max;
      threadId := id;
      parentThreadId := parent;
    }

    /// `write_u8`: stores only when min <= addr <= max; Err leaves memory unchanged.
    method WriteU8(addr: u32, value: u8) returns (r: Access<()>)
      modifies memory
      ensures r.Err? <==> !ByteAllowed(accessMinAddr, accessMaxAddr, addr)
      ensures r.Ok? <==> ByteAllowed(accessMinAddr, accessMaxAddr, addr) && addr < memory.Length
      ensures r.Ok? ==> memory[..] == old(memory[..])[addr := value]
      ensures !r.Ok? ==> memory[..] == old(memory[..])
    {
      if !ByteAllowed(accessMinAddr, accessMaxAddr, addr) {
        return Err;
      }
      if addr as int >= memory.Length {
        return OutOfMemory;
      }
      memory[addr] := value;
      return Ok(());
    }

    /// `write_u32` as intended: stores the four bytes (little-endian) only when
    /// addr+3 <= max; in a debug build `addr + 3` panics once it leaves the u32
    /// range. `WriteU32AsWritten` is the copy as the source makes it.
    method WriteU32(addr: u32, value: u32) returns (r: Access<()>)
      modifies memory
      ensures r.Overflow? <==> WordOverflows(accessMinAddr, addr)
      ensures r.Err? <==> !WordAllowed(accessMinAddr, accessMaxAddr, addr) && !WordOverflows(accessMinAddr, addr)
      ensures r.Ok? <==> WordAllowed(accessMinAddr, accessMaxAddr, addr) && addr as int + 4 <= memory.Length
      ensures r.Ok? ==> memory[..] == StoreWord(old(memory[..]), addr, value)
      ensures !r.Ok? ==> memory[..] == old(memory[..])
    {
      if WordOverflows(accessMinAddr, addr) {
        return Overflow;
      }
      if !WordAllowed(accessMinAddr, accessMaxAddr, addr) {
        return Err;
      }
      if addr as int + 4 > memory.Length {
        return OutOfMemory;
      }
      var bytes := LeBytes(value);
      var i := 0;
      while i < 4
        invariant 0 <= i <= 4
        invariant memory[..] == PartlyStored(old(memory[..]), addr, bytes, i)
      {
        PartlyStoredStep(old(memory[..]), addr, bytes, i);
        memory[addr as int + i] := bytes[i];
        i := i + 1;
      }
      PartlyStoredAll(old(memory[..]), addr, value);
      return Ok(());
    }

    /// `is_child_of`: the parent walk alone; tid is never compared with the thread itself.
    method IsChildOf(threads: map<u32, LegacyThread>, tid: u32) returns (r: bool)
      requires Ancestry.ParentsPrecede(Parents(threads))
      ensures r == Ancestry.LegacyIsChildOf(Parents(threads), threadId, tid)
    {
      var id := threadId;
      while id != 0
        invariant Ancestry.Walk(Parents(threads), threadId, tid) == Ancestry.Walk(Parents(threads), id, tid)
        decreases id
      {
        if id !in threads {
          return false;
        }
        id := threads[id].parentThreadId;
        if id == tid {
          return true;
        }
      }
      return false;
    }

    /// `is_parent_of`: false for an unknown t, else t's `is_child_of(self)`.
    method IsParentOf(threads: map<u32, LegacyThread>, t: u32) returns (r: bool)
      requires Ancestry.ParentsPrecede(Parents(threads)) && FiledById(threads)
      ensures r == Ancestry.LegacyIsParentOf(Parents(threads), threadId, t)
    {
      if t !in threads {
        return false;
      }
      r := threads[t].IsChildOf(threads, threadId);
    }
  }

  /// The two revisions disagree exactly at the upper bound: the byte at `max` is
  /// readable here and out of the window in src/machine/thread/mod.rs.
  lemma InclusiveUpperBound(c: Core)
    requires c.Valid() && c.minAddr <= c.maxAddr && (c.maxAddr as int) < |c.mem|
    ensures ReadU8(c.mem, c.minAddr, c.maxAddr, c.maxAddr) == Ok(c.mem[c.maxAddr])
    ensures !ThreadSpec.ByteInWindow(c, c.maxAddr)
  {
  }

  /// Inside the window of the later revision, both revisions read the same byte and word.
  lemma ReadsAgreeInsideWindow(c: Core, addr: u32)
    requires c.Valid()
    ensures ThreadSpec.ByteInWindow(c, addr) ==>
      ReadU8(c.mem, c.minAddr, c.maxAddr, addr) == Ok(ThreadSpec.ReadU8(c, addr).1)
    ensures ThreadSpec.WordInWindow(c, addr) ==>
      ReadU32(c.mem, c.minAddr, c.maxAddr, addr) == Ok(ThreadSpec.ReadU32(c, addr).1)
  {
  }

  /// A word written is the word read back.
  lemma WriteReadRoundTrip(mem: seq<u8>, min: u32, max: u32, addr: u32, value: u32)
    requires WordAllowed(min, max, addr) && addr as int + 4 <= |mem|
    ensures ReadU32(StoreWord(mem, addr, value), min, max, addr) == Ok(value)
  {
    var m := StoreWord(mem, addr, value);
    var w := ReadU32(m, min, max, addr).value;
    assert LeBytes(w) == LeBytes(value);
    LeRoundTrip(w);
    LeRoundTrip(value);
  }

  /// `write_u32` as crystalvm/src/thread/mod.rs:122 is written: the copy's
  /// destination is the address of the memory's `Vec` header plus addr, so the
  /// byte memory is never written and no bound on it is checked; what the copy
  /// overwrites instead is outside this model.
  function WriteU32AsWritten(mem: seq<u8>, min: u32, max: u32, addr: u32, value: u32): (r: (Access<()>, seq<u8>))
    ensures r.1 == mem
    ensures r.0.Overflow? <==> WordOverflows(min, addr)
    ensures r.0.Ok? <==> WordAllowed(min, max, addr)
    ensures r.0.Err? <==> !WordAllowed(min, max, addr) && !WordOverflows(min, addr)
  {
    if WordOverflows(min, addr) then (Overflow, mem)
    else if !WordAllowed(min, max, addr) then (Err, mem)
    else (Ok(()), mem)
  }

  /// Four zero bytes and the window 0..=3: as written, the word 1 written at 0
  /// reads back as 0; as intended it reads back as 1.
  lemma StoreLostAsWritten()
    ensures ReadU32(WriteU32AsWritten([0, 0, 0, 0], 0, 3, 0, 1).1, 0, 3, 0) == Ok(0)
    ensures ReadU32(StoreWord([0, 0, 0, 0], 0, 1), 0, 3, 0) == Ok(1)
  {
    WriteReadRoundTrip([0, 0, 0, 0], 0, 3, 0, 1);
  }
}
