/// Machine integers and bit-level helpers shared by every model in this project.
/// Values are plain integers constrained by subset types; bitwise operators are
/// defined bit by bit, so that their properties are proved by induction rather
/// than by bit-vector solving.
module Bits {

  const TWO7: int := 0x80
  const TWO8: int := 0x100
  const TWO16: int := 0x1_0000
  const TWO24: int := 0x100_0000
  const TWO31: int := 0x8000_0000
  const TWO32: int := 0x1_0000_0000

  type u8 = x: int | 0 <= x < 0x100
  type u32 = x: int | 0 <= x < 0x1_0000_0000
  type i32 = x: int | -0x8000_0000 <= x < 0x8000_0000

  function Pow2(n: nat): (r: nat)
    ensures r >= 1
  {
    if n == 0 then 1 else 2 * Pow2(n - 1)
  }

  lemma Pow2Of32()
    ensures Pow2(8) == TWO8 && Pow2(32) == TWO32
  {
    assert Pow2(1) == 2;
    assert Pow2(2) == 4;
    assert Pow2(3) == 8;
    assert Pow2(4) == 16;
    assert Pow2(5) == 32;
    assert Pow2(6) == 64;
    assert Pow2(7) == 128;
    assert Pow2(8) == 256;
    assert Pow2(9) == 512;
    assert Pow2(10) == 1024;
    assert Pow2(11) == 2048;
    assert Pow2(12) == 4096;
    assert Pow2(13) == 8192;
    assert Pow2(14) == 16384;
    assert Pow2(15) == 32768;
    assert Pow2(16) == 65536;
    assert Pow2(17) == 131072;
    assert Pow2(18) == 262144;
    assert Pow2(19) == 524288;
    assert Pow2(20) == 1048576;
    assert Pow2(21) == 2097152;
    assert Pow2(22) == 4194304;
    assert Pow2(23) == 8388608;
    assert Pow2(24) == 16777216;
    assert Pow2(25) == 33554432;
    assert Pow2(26) == 67108864;
    assert Pow2(27) == 134217728;
    assert Pow2(28) == 268435456;
    assert Pow2(29) == 536870912;
    assert Pow2(30) == 1073741824;
    assert Pow2(31) == 2147483648;
  }

  /// Bit `j` (counting from the least significant bit) of `x`.
  predicate Bit(x: nat, j: nat)
  {
    if j == 0 then x % 2 == 1 else Bit(x / 2, j - 1)
  }

  /// `a & b` restricted to the low `n` bits.
  function AndN(a: nat, b: nat, n: nat): nat
  {
    if n == 0 then 0 else 2 * AndN(a / 2, b / 2, n - 1) + (if a % 2 == 1 && b % 2 == 1 then 1 else 0)
  }

  /// `a | b` restricted to the low `n` bits.
  function OrN(a: nat, b: nat, n: nat): nat
  {
    if n == 0 then 0 else 2 * OrN(a / 2, b / 2, n - 1) + (if a % 2 == 1 || b % 2 == 1 then 1 else 0)
  }

  /// `a ^ b` restricted to the low `n` bits.
  function XorN(a: nat, b: nat, n: nat): nat
  {
    if n == 0 then 0 else 2 * XorN(a / 2, b / 2, n - 1) + (if (a % 2 == 1) != (b % 2 == 1) then 1 else 0)
  }

  lemma {:induction false} AndNBits(a: nat, b: nat, n: nat, j: nat)
    ensures AndN(a, b, n) < Pow2(n)
    ensures j < n ==> (Bit(AndN(a, b, n), j) <==> Bit(a, j) && Bit(b, j))
  {
    if n > 0 {
      AndNBits(a / 2, b / 2, n - 1, if j == 0 then 0 else j - 1);
    }
  }

  lemma {:induction false} OrNBits(a: nat, b: nat, n: nat, j: nat)
    ensures OrN(a, b, n) < Pow2(n)
    ensures j < n ==> (Bit(OrN(a, b, n), j) <==> Bit(a, j) || Bit(b, j))
  {
    if n > 0 {
      OrNBits(a / 2, b / 2, n - 1, if j == 0 then 0 else j - 1);
    }
  }

  lemma {:induction false} XorNBits(a: nat, b: nat, n: nat, j: nat)
    ensures XorN(a, b, n) < Pow2(n)
    ensures j < n ==> (Bit(XorN(a, b, n), j) <==> Bit(a, j) != Bit(b, j))
  {
    if n > 0 {
      XorNBits(a / 2, b / 2, n - 1, if j == 0 then 0 else j - 1);
    }
  }

  /// Two numbers below 2^n are equal when they agree on each of their n low bits.
  lemma {:induction false} BitsDetermine(x: nat, y: nat, n: nat)
    requires x < Pow2(n) && y < Pow2(n)
    requires forall j :: 0 <= j < n ==> (Bit(x, j) <==> Bit(y, j))
    ensures x == y
  {
    if n > 0 {
      forall j | 0 <= j < n - 1
        ensures Bit(x / 2, j) <==> Bit(y / 2, j)
      {
        assert Bit(x, j + 1) <==> Bit(y, j + 1);
      }
      BitsDetermine(x / 2, y / 2, n - 1);
      assert Bit(x, 0) <==> Bit(y, 0);
    }
  }

  lemma {:induction false} BitOfPow2(k: nat, j: nat)
    ensures Bit(Pow2(k), j) <==> j == k
  {
    if k > 0 && j > 0 {
      BitOfPow2(k - 1, j - 1);
    } else if k > 0 {
      assert Pow2(k) % 2 == 0;
    } else if j > 0 {
      ZeroHasNoBits(j - 1);
    }
  }

  lemma {:induction false} ZeroHasNoBits(j: nat)
    ensures !Bit(0, j)
  {
    if j > 0 {
      ZeroHasNoBits(j - 1);
    }
  }

  // ---- 32-bit operators as the VM's `u32` arithmetic performs them ----

  function And32(a: u32, b: u32): (r: u32)
  {
    AndNBits(a, b, 32, 0);
    Pow2Of32();
    AndN(a, b, 32)
  }

  function Or32(a: u32, b: u32): (r: u32)
  {
    OrNBits(a, b, 32, 0);
    Pow2Of32();
    OrN(a, b, 32)
  }

  function Xor32(a: u32, b: u32): (r: u32)
  {
    XorNBits(a, b, 32, 0);
    Pow2Of32();
    XorN(a, b, 32)
  }

  /// `!a` on a u32: every one of the 32 bits flipped.
  function Not32(a: u32): u32
  {
    TWO32 - 1 - a
  }

  /// Setting the single bit `k` with `x | (1 << k)` keeps every other bit and sets bit k.
  lemma SetFlagBits(x: u32, k: nat, j: nat)
    requires k < 32 && j < 32
    ensures Pow2(k) < TWO32
    ensures Bit(Or32(x, Pow2(k)), j) <==> (j == k || Bit(x, j))
  {
    Pow2Monotone(k, 32);
    Pow2Of32();
    OrNBits(x, Pow2(k), 32, j);
    BitOfPow2(k, j);
  }

  lemma {:induction false} Pow2Monotone(m: nat, n: nat)
    requires m < n
    ensures Pow2(m) < Pow2(n)
  {
    if n - 1 > m {
      Pow2Monotone(m, n - 1);
    }
  }

  /// Bit j of `!a` is the negation of bit j of a.
  lemma {:induction false} NotBits(a: nat, n: nat, j: nat)
    requires a < Pow2(n) && j < n
    ensures Bit(Pow2(n) - 1 - a, j) <==> !Bit(a, j)
  {
    if j > 0 {
      assert (Pow2(n) - 1 - a) / 2 == Pow2(n - 1) - 1 - a / 2;
      NotBits(a / 2, n - 1, j - 1);
    }
  }

  /// Clearing the single bit `k` with `x & !(1 << k)` keeps every other bit and clears bit k.
  lemma ClearFlagBits(x: u32, k: nat, j: nat)
    requires k < 32 && j < 32
    ensures Pow2(k) < TWO32
    ensures Bit(And32(x, Not32(Pow2(k))), j) <==> (j != k && Bit(x, j))
  {
    Pow2Monotone(k, 32);
    Pow2Of32();
    AndNBits(x, Not32(Pow2(k)), 32, j);
    NotBits(Pow2(k), 32, j);
    BitOfPow2(k, j);
  }

  /// `&`, `|` and `^` on words act bit by bit.
  lemma Bitwise32(a: u32, b: u32, j: nat)
    requires j < 32
    ensures Bit(And32(a, b), j) <==> Bit(a, j) && Bit(b, j)
    ensures Bit(Or32(a, b), j) <==> Bit(a, j) || Bit(b, j)
    ensures Bit(Xor32(a, b), j) <==> Bit(a, j) != Bit(b, j)
  {
    AndNBits(a, b, 32, j);
    OrNBits(a, b, 32, j);
    XorNBits(a, b, 32, j);
  }

  /// `x | 0` is x.
  lemma OrZero(x: u32)
    ensures Or32(x, 0) == x
  {
    Pow2Of32();
    forall j | 0 <= j < 32
      ensures Bit(Or32(x, 0), j) <==> Bit(x, j)
    {
      Bitwise32(x, 0, j);
      ZeroHasNoBits(j);
    }
    BitsDetermine(Or32(x, 0), x, 32);
  }

  /// Testing one bit with a mask: `x & (1 << k) != 0` exactly when bit k of x is set.
  lemma MaskTest(x: u32, k: nat)
    requires k < 32
    ensures Pow2(k) < TWO32
    ensures And32(x, Pow2(k)) != 0 <==> Bit(x, k)
  {
    Pow2Monotone(k, 32);
    Pow2Of32();
    var m := And32(x, Pow2(k));
    Bitwise32(x, Pow2(k), k);
    BitOfPow2(k, k);
    if Bit(x, k) {
      ZeroHasNoBits(k);
    } else {
      forall j | 0 <= j < 32
        ensures Bit(m, j) <==> Bit(0, j)
      {
        Bitwise32(x, Pow2(k), j);
        BitOfPow2(k, j);
        ZeroHasNoBits(j);
      }
      BitsDetermine(m, 0, 32);
    }
  }

  // ---- byte order ----

  lemma DivModByte(q: int, r: int)
    requires 0 <= r < TWO8
    ensures (TWO8 * q + r) / TWO8 == q && (TWO8 * q + r) % TWO8 == r
  {
  }

  /// The four bytes of a word, least significant first (`u32::to_le_bytes`).
  function LeBytes(w: u32): (r: seq<u8>)
  {
    [w % TWO8, (w / TWO8) % TWO8, (w / TWO16) % TWO8, w / TWO24]
  }

  /// The word of four bytes, least significant first (`u32::from_le_bytes`).
  function FromLe(b0: u8, b1: u8, b2: u8, b3: u8): u32
  {
    b0 + TWO8 * b1 + TWO16 * b2 + TWO24 * b3
  }

  /// The four bytes of a word, most significant first (`u32::to_be_bytes`).
  function BeBytes(w: u32): (r: seq<u8>)
  {
    [w / TWO24, (w / TWO16) % TWO8, (w / TWO8) % TWO8, w % TWO8]
  }

  /// The word of four bytes, most significant first (`u32::from_be_bytes`).
  function FromBe(b0: u8, b1: u8, b2: u8, b3: u8): u32
  {
    TWO24 * b0 + TWO16 * b1 + TWO8 * b2 + b3
  }

  /// A word rebuilt from its four bytes.
  lemma WordOfBytes(w: u32)
    ensures w == TWO24 * (w / TWO24) + TWO16 * ((w / TWO16) % TWO8) + TWO8 * ((w / TWO8) % TWO8) + w % TWO8
  {
    var q1 := w / TWO8;
    var q2 := q1 / TWO8;
    var q3 := q2 / TWO8;
    assert w == q1 * TWO8 + w % TWO8;
    assert q1 == q2 * TWO8 + q1 % TWO8;
    assert q2 == q3 * TWO8 + q2 % TWO8;
    assert w / TWO16 == q2 && w / TWO24 == q3;
  }

  lemma LeRoundTrip(w: u32)
    ensures |LeBytes(w)| == 4
    ensures FromLe(LeBytes(w)[0], LeBytes(w)[1], LeBytes(w)[2], LeBytes(w)[3]) == w
  {
    WordOfBytes(w);
  }

  lemma BeRoundTrip(w: u32)
    ensures |BeBytes(w)| == 4
    ensures FromBe(BeBytes(w)[0], BeBytes(w)[1], BeBytes(w)[2], BeBytes(w)[3]) == w
  {
    WordOfBytes(w);
  }

  lemma LeBytesOfWord(b0: u8, b1: u8, b2: u8, b3: u8)
    ensures LeBytes(FromLe(b0, b1, b2, b3)) == [b0, b1, b2, b3]
  {
    var w := FromLe(b0, b1, b2, b3);
    var q1 := b1 + TWO8 * b2 + TWO16 * b3;
    DivModByte(q1, b0);
    var q2 := b2 + TWO8 * b3;
    DivModByte(q2, b1);
    DivModByte(b3, b2);
    assert w / TWO16 == (w / TWO8) / TWO8;
    assert w / TWO24 == (w / TWO16) / TWO8;
  }
}
