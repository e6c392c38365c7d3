/// Building a machine's memory from an image in both revisions
/// (src/machine/mod.rs:40-63 and crystalvm/src/machine.rs:29-57): the image bytes
/// first, zero bytes up to the requested size. The size check compares against the
/// image length cut to 32 bits (`img_size as u32`).
module MachineImage {
  import opened Bits
  import VmThread

  function Zeros(n: nat): (r: seq<u8>)
    ensures |r| == n && forall i :: 0 <= i < n ==> r[i] == 0
  {
    if n == 0 then [] else Zeros(n - 1) + [0]
  }

  /// The memory both loaders mean to produce.
  function ImageMemory(image: seq<u8>, size: nat): seq<u8>
  {
    if |image| >= size then image else image + Zeros(size - |image|)
  }

  /// The size check of both revisions: it panics when the size is below the image
  /// length taken modulo 2^32.
  predicate TooSmall(image: seq<u8>, size: u32)
  {
    size < |image| % TWO32
  }

  /// For any image below 4 GiB that passes the check, the memory is the image followed
  /// by zeros, exactly `size` bytes long.
  lemma ImageMemoryLayout(image: seq<u8>, size: u32)
    requires |image| < TWO32 && !TooSmall(image, size)
    ensures |ImageMemory(image, size)| == size
    ensures ImageMemory(image, size)[..|image|] == image
    ensures forall i :: |image| <= i < size ==> ImageMemory(image, size)[i] == 0
  {
  }

  class Machine {
    var memory: array<u8>
    var threads: map<u32, VmThread.Thread>
    var running: bool
    var threadCount: nat
    var nextThreadId: nat

    /// The context record `from_image` assembles around a finished memory.
    constructor (memory: array<u8>)
      ensures this.memory == memory && threads == map[] && running
      ensures threadCount == 0 && nextThreadId == 0
    {
      this.memory := memory;
      threads := map[];
      running := true;
      threadCount := 0;
      nextThreadId := 0;
    }
  }

  /// `Machine::from_image` of src/machine/mod.rs: null stands for the panic. The image
  /// is read into the vector, then 0 is pushed until it is `size` long.
  method FromImage(image: seq<u8>, size: u32) returns (m: Machine?)
    ensures m == null <==> TooSmall(image, size)
    ensures m != null ==> fresh(m) && fresh(m.memory)
    ensures m != null ==> m.memory[..] == ImageMemory(image, size)
    ensures m != null ==> m.threads == map[] && m.running && m.threadCount == 0 && m.nextThreadId == 0
  {
    if TooSmall(image, size) {
      return null;
    }
    var mem := image;
    while |mem| < size as int
      invariant |image| <= |mem|
      invariant mem == image + Zeros(|mem| - |image|)
      invariant |mem| <= size as int || mem == image
      decreases size as int - |mem|
    {
      mem := mem + [0];
    }
    assert Zeros(0) == [] && image + [] == image;
    assert mem == ImageMemory(image, size);
    var arr := new u8[|mem|](i requires 0 <= i < |mem| => mem[i]);
    assert arr[..] == mem;
    m := new Machine(arr);
  }

  /// How the earlier loader ends: a machine, the size-check panic, or an image longer
  /// than the memory it is copied into (possible only past 4 GiB, where the unchecked
  /// copy overruns).
  datatype LegacyLoad = Loaded(m: Machine) | SizePanic | Overrun

  /// `Machine::from_image` of crystalvm/src/machine.rs: push `size` zeros, then copy
  /// the image over the front of the memory.
  method LegacyFromImage(image: seq<u8>, size: u32) returns (r: LegacyLoad)
    ensures r.SizePanic? <==> TooSmall(image, size)
    ensures r.Overrun? <==> !TooSmall(image, size) && |image| > size as int
    ensures r.Loaded? ==> fresh(r.m) && fresh(r.m.memory)
    ensures r.Loaded? ==> r.m.memory[..] == ImageMemory(image, size)
    ensures r.Loaded? ==> r.m.threads == map[] && r.m.running && r.m.threadCount == 0
  {
    if TooSmall(image, size) {
      return SizePanic;
    }
    var zeros: seq<u8> := [];
    var k := 0;
    while k < size
      invariant 0 <= k <= size && zeros == Zeros(k)
    {
      zeros := zeros + [0];
      k := k + 1;
    }
    if |image| > |zeros| {
      return Overrun;
    }
    var arr := new u8[|zeros|](i requires 0 <= i < |zeros| => zeros[i]);
    var i := 0;
    while i < |image|
      invariant 0 <= i <= |image|
      invariant arr[..] == image[..i] + Zeros(|zeros| - i)
      modifies arr
    {
      arr[i] := image[i];
      i := i + 1;
      assert arr[..] == image[..i] + Zeros(|zeros| - i);
    }
    assert image[..|image|] == image;
    assert arr[..] == ImageMemory(image, size);
    var m := new Machine(arr);
    return Loaded(m);
  }
}
