/// The integer operations the VM's instruction table calls
/// (src/machine/thread/instructions.rs:147-184), each stated by what the Rust
/// library operation means: wrapped results come with their carry, borrow, high
/// word or overflow flag, checked operations fail exactly where Rust's do.
/// Registers hold raw 32-bit patterns; signed operations read them as two's complement.
module IntOps {
  import opened Bits
  import opened Wrappers

  const I32_MIN: int := -0x8000_0000

  /// The signed reading of a 32-bit pattern (`transmute::<u32, i32>`).
  function Signed(x: u32): (r: i32)
    ensures r % TWO32 == x
    ensures 0 <= r <==> x < TWO31
  {
    if x < TWO31 then x else x - TWO32
  }

  /// The 32-bit pattern of any integer taken modulo 2^32 (wrap-around).
  function Wrap(x: int): (r: u32)
    ensures (x - r) % TWO32 == 0
  {
    x % TWO32
  }

  predicate InI32(x: int)
  {
    I32_MIN <= x < TWO31
  }

  lemma SignedWrap(x: int)
    requires InI32(x)
    ensures Signed(Wrap(x)) == x
  {
  }

  lemma WrapSigned(x: u32)
    ensures Wrap(Signed(x)) == x
  {
  }

  /// a ** n on unbounded integers.
  function Power(a: int, n: nat): int
  {
    if n == 0 then 1 else a * Power(a, n - 1)
  }

  /// `u32::overflowing_add`: the wrapped sum and whether it carried out.
  function OverflowingAdd(a: u32, b: u32): (r: (u32, bool))
    ensures r.0 + (if r.1 then TWO32 else 0) == a + b
  {
    if a + b < TWO32 then (a + b, false) else (a + b - TWO32, true)
  }

  /// `u32::overflowing_sub`: the wrapped difference and whether it borrowed.
  function OverflowingSub(a: u32, b: u32): (r: (u32, bool))
    ensures r.0 - (if r.1 then TWO32 else 0) == a - b
  {
    if a >= b then (a - b, false) else (a - b + TWO32, true)
  }

  /// `u32::carrying_add`: a + b + carry, wrapped, with the carry out.
  function CarryingAdd(a: u32, b: u32, carry: bool): (r: (u32, bool))
    ensures r.0 + (if r.1 then TWO32 else 0) == a + b + (if carry then 1 else 0)
  {
    var s := a + b + (if carry then 1 else 0);
    if s < TWO32 then (s, false) else (s - TWO32, true)
  }

  /// `u32::borrowing_sub`: a - b - borrow, wrapped, with the borrow out.
  function BorrowingSub(a: u32, b: u32, borrow: bool): (r: (u32, bool))
    ensures r.0 - (if r.1 then TWO32 else 0) == a - b - (if borrow then 1 else 0)
  {
    var s := a - b - (if borrow then 1 else 0);
    if s >= 0 then (s, false) else (s + TWO32, true)
  }

  lemma ProductBound(a: u32, b: u32, c: u32)
    ensures 0 <= a * b + c < TWO32 * TWO32
  {
    var m: nat := TWO32 - 1;
    MulMonotone(a, m, b);
    MulMonotone(b, m, m);
    assert b * m == m * b;
    assert m * m + m < TWO32 * TWO32;
  }

  lemma MulMonotone(x: nat, y: nat, z: nat)
    requires x <= y
    ensures x * z <= y * z
  {
  }

  /// `u32::carrying_mul`: the 64-bit value a * b + c as (low word, high word).
  function CarryingMul(a: u32, b: u32, c: u32): (r: (u32, u32))
    ensures r.0 + TWO32 * r.1 == a * b + c
  {
    ProductBound(a, b, c);
    ((a * b + c) % TWO32, (a * b + c) / TWO32)
  }

  /// `u32::widening_mul`: the 64-bit product as (low word, high word).
  function WideningMul(a: u32, b: u32): (r: (u32, u32))
    ensures r.0 + TWO32 * r.1 == a * b
  {
    CarryingMul(a, b, 0)
  }

  /// `i32::overflowing_add` on the signed readings.
  function SignedOverflowingAdd(a: u32, b: u32): (r: (u32, bool))
    ensures r.1 <==> !InI32(Signed(a) + Signed(b))
    ensures !r.1 ==> Signed(r.0) == Signed(a) + Signed(b)
    ensures r.0 == Wrap(Signed(a) + Signed(b))
  {
    var s := Signed(a) + Signed(b);
    (Wrap(s), !InI32(s))
  }

  /// `i32::overflowing_sub` on the signed readings.
  function SignedOverflowingSub(a: u32, b: u32): (r: (u32, bool))
    ensures r.1 <==> !InI32(Signed(a) - Signed(b))
    ensures !r.1 ==> Signed(r.0) == Signed(a) - Signed(b)
    ensures r.0 == Wrap(Signed(a) - Signed(b))
  {
    var s := Signed(a) - Signed(b);
    (Wrap(s), !InI32(s))
  }

  /// `i32::carrying_add`: a + b + carry on the signed readings, with signed overflow.
  function SignedCarryingAdd(a: u32, b: u32, carry: bool): (r: (u32, bool))
    ensures r.1 <==> !InI32(Signed(a) + Signed(b) + (if carry then 1 else 0))
    ensures !r.1 ==> Signed(r.0) == Signed(a) + Signed(b) + (if carry then 1 else 0)
  {
    var s := Signed(a) + Signed(b) + (if carry then 1 else 0);
    (Wrap(s), !InI32(s))
  }

  /// `i32::borrowing_sub`: a - b - borrow on the signed readings, with signed overflow.
  function SignedBorrowingSub(a: u32, b: u32, borrow: bool): (r: (u32, bool))
    ensures r.1 <==> !InI32(Signed(a) - Signed(b) - (if borrow then 1 else 0))
    ensures !r.1 ==> Signed(r.0) == Signed(a) - Signed(b) - (if borrow then 1 else 0)
  {
    var s := Signed(a) - Signed(b) - (if borrow then 1 else 0);
    (Wrap(s), !InI32(s))
  }

  /// `i32::overflowing_mul` on the signed readings.
  function SignedOverflowingMul(a: u32, b: u32): (r: (u32, bool))
    ensures r.1 <==> !InI32(Signed(a) * Signed(b))
    ensures !r.1 ==> Signed(r.0) == Signed(a) * Signed(b)
    ensures r.0 == Wrap(Signed(a) * Signed(b))
  {
    var s := Signed(a) * Signed(b);
    (Wrap(s), !InI32(s))
  }

  /// `i32::overflowing_pow`: the signed reading of a raised to the unsigned b.
  function SignedOverflowingPow(a: u32, b: u32): (r: (u32, bool))
    ensures r.1 <==> !InI32(Power(Signed(a), b))
    ensures !r.1 ==> Signed(r.0) == Power(Signed(a), b)
  {
    var s := Power(Signed(a), b);
    (Wrap(s), !InI32(s))
  }

  /// `u32::checked_div`: None exactly for a zero divisor.
  function CheckedDiv(a: u32, b: u32): (r: Option<u32>)
    ensures r.None? <==> b == 0
    ensures r.Some? ==> r.value * b <= a < (r.value + 1) * b
  {
    if b == 0 then None else Some(a / b)
  }

  /// `u32::checked_rem`: None exactly for a zero divisor.
  function CheckedRem(a: u32, b: u32): (r: Option<u32>)
    ensures r.None? <==> b == 0
    ensures r.Some? ==> r.value < b && r.value <= a
  {
    if b == 0 then None else Some(a % b)
  }

  /// `u32::checked_pow`: None exactly when a ** b does not fit in 32 bits.
  function CheckedPow(a: u32, b: u32): (r: Option<u32>)
    ensures r.None? <==> Power(a, b) >= TWO32
    ensures r.Some? ==> r.value == Power(a, b)
  {
    PowerNonNegative(a, b);
    if Power(a, b) < TWO32 then Some(Power(a, b)) else None
  }

  lemma {:induction false} PowerNonNegative(a: nat, n: nat)
    ensures Power(a, n) >= 0
  {
    if n > 0 {
      PowerNonNegative(a, n - 1);
    }
  }

  function Abs(x: int): nat
  {
    if x < 0 then -x else x
  }

  /// Rust's `/` on integers: the quotient rounded toward zero.
  function TruncDiv(a: int, b: int): int
    requires b != 0
  {
    if (a >= 0) == (b > 0) then Abs(a) / Abs(b) else -(Abs(a) / Abs(b))
  }

  /// Rust's `%` on integers: the remainder of |a| by |b|, carrying the sign of a.
  function TruncRem(a: int, b: int): int
    requires b != 0
  {
    if a >= 0 then Abs(a) % Abs(b) else -(Abs(a) % Abs(b))
  }

  lemma NatDivMod(x: nat, y: nat)
    requires y > 0
    ensures x == (x / y) * y + x % y && 0 <= x % y < y && x / y >= 0
  {
  }

  /// The defining property of truncating division: a = q*b + r with |r| < |b| and
  /// r zero or of the sign of a.
  lemma TruncDivRem(a: int, b: int)
    requires b != 0
    ensures a == TruncDiv(a, b) * b + TruncRem(a, b)
    ensures Abs(TruncRem(a, b)) < Abs(b)
    ensures TruncRem(a, b) == 0 || (TruncRem(a, b) > 0 <==> a > 0)
  {
    var q: int := Abs(a) / Abs(b);
    var m: int := Abs(a) % Abs(b);
    var nb: int := Abs(b);
    NatDivMod(Abs(a), Abs(b));
    assert TruncRem(a, b) == (if a >= 0 then m else -m);
    if (a >= 0) == (b > 0) {
      assert TruncDiv(a, b) == q;
      SignedProduct(q, nb, b);
    } else {
      assert TruncDiv(a, b) == -q;
      SignedProduct(-q, nb, b);
    }
  }

  /// `q * b` for `b` of magnitude `nb`: `q * nb` or its negation.
  lemma SignedProduct(q: int, nb: int, b: int)
    requires nb == Abs(b)
    ensures q * b == (if b > 0 then q * nb else -(q * nb))
  {
    if b < 0 {
      assert b == -nb;
    }
  }

  /// The signed division overflow: i32::MIN / -1 does not fit.
  predicate SignedDivOverflows(a: u32, b: u32)
  {
    Signed(a) == I32_MIN && Signed(b) == -1
  }

  /// `i32::checked_div`: None exactly for a zero divisor or MIN / -1.
  function SignedCheckedDiv(a: u32, b: u32): (r: Option<u32>)
    ensures r.None? <==> b == 0 || SignedDivOverflows(a, b)
    ensures r.Some? ==> Signed(r.value) == TruncDiv(Signed(a), Signed(b))
  {
    if b == 0 || SignedDivOverflows(a, b) then None
    else
      TruncDivBound(Signed(a), Signed(b));
      Some(Wrap(TruncDiv(Signed(a), Signed(b))))
  }

  lemma TruncDivBound(a: i32, b: i32)
    requires b != 0 && !(a == I32_MIN && b == -1)
    ensures InI32(TruncDiv(a, b))
  {
    var q := Abs(a) / Abs(b);
    NatDivMod(Abs(a), Abs(b));
    if b == 1 || b == -1 {
      assert q == Abs(a);
    } else {
      MulAtLeastTwice(q, Abs(b));
      assert q * 2 <= Abs(a);
    }
  }

  lemma MulAtLeastTwice(q: nat, y: nat)
    ensures q * Min(y, 2) <= q * y
  {
  }

  /// `i32::checked_rem`: None exactly for a zero divisor or MIN % -1.
  function SignedCheckedRem(a: u32, b: u32): (r: Option<u32>)
    ensures r.None? <==> b == 0 || SignedDivOverflows(a, b)
    ensures r.Some? ==> Signed(r.value) == TruncRem(Signed(a), Signed(b))
  {
    if b == 0 || SignedDivOverflows(a, b) then None
    else
      TruncRemFits(Signed(a), Signed(b));
      Some(Wrap(TruncRem(Signed(a), Signed(b))))
  }

  /// A truncating remainder of 32-bit operands is smaller than the divisor, so its
  /// 32-bit pattern reads back as itself.
  lemma TruncRemFits(a: i32, b: i32)
    requires b != 0
    ensures Signed(Wrap(TruncRem(a, b))) == TruncRem(a, b)
  {
    var m := Abs(a) % Abs(b);
    assert m < Abs(b) <= TWO31;
    SignedWrap(TruncRem(a, b));
  }

  /// `i32::checked_rem_euclid`: None exactly for a zero divisor or MIN % -1;
  /// otherwise the remainder that is never negative.
  function SignedCheckedRemEuclid(a: u32, b: u32): (r: Option<u32>)
    ensures r.None? <==> b == 0 || SignedDivOverflows(a, b)
    ensures r.Some? ==> 0 <= Signed(r.value) < Abs(Signed(b))
  {
    if b == 0 || SignedDivOverflows(a, b) then None
    else
      RemEuclidRange(Signed(a), Signed(b));
      Some(Signed(a) % Signed(b))
  }

  lemma RemEuclidRange(a: int, b: int)
    requires b != 0
    ensures 0 <= a % b < Abs(b)
  {
  }

  /// The Euclidean remainder is the truncating one, moved up by |b| when negative.
  lemma RemEuclidFromTruncRem(a: u32, b: u32)
    requires b != 0 && !SignedDivOverflows(a, b)
    ensures var t := TruncRem(Signed(a), Signed(b));
      Signed(SignedCheckedRemEuclid(a, b).value) == if t < 0 then t + Abs(Signed(b)) else t
  {
    var x, y := Signed(a), Signed(b);
    TruncDivRem(x, y);
    RemEuclidRange(x, y);
    var t := TruncRem(x, y);
    var e := if t < 0 then t + Abs(y) else t;
    assert 0 <= e < Abs(y);
    var k := if t < 0 then TruncDiv(x, y) - (if y > 0 then 1 else -1) else TruncDiv(x, y);
    assert x == k * y + e;
    EuclidUnique(x, y, k, e);
  }

  lemma EuclidUnique(x: int, y: int, k: int, e: int)
    requires y != 0 && 0 <= e < Abs(y) && x == k * y + e
    ensures x % y == e
  {
    var d := k - x / y;
    assert d * y == x % y - e;
    if d != 0 {
      MulAtLeastDivisor(d, y);
    }
  }

  lemma MulAtLeastDivisor(d: int, y: int)
    requires d != 0 && y != 0
    ensures Abs(d * y) >= Abs(y)
  {
    AbsMul(d, y);
    NatMulAtLeast(Abs(d), Abs(y));
  }

  lemma AbsMul(d: int, y: int)
    ensures Abs(d * y) == Abs(d) * Abs(y)
  {
    if d < 0 && y < 0 {
      assert d * y == (-d) * (-y);
    } else if d < 0 {
      assert d * y == -((-d) * y);
    } else if y < 0 {
      assert d * y == -(d * (-y));
    }
  }

  lemma {:induction false} NatMulAtLeast(d: nat, y: nat)
    requires d >= 1
    ensures d * y >= y
  {
    if d > 1 {
      NatMulAtLeast(d - 1, y);
      assert d * y == (d - 1) * y + y;
    }
  }

  /// `i32::abs` as the release build computes it: MIN stays MIN.
  function SignedAbs(a: u32): (r: u32)
    ensures Signed(a) != I32_MIN ==> Signed(r) == Abs(Signed(a))
    ensures Signed(a) == I32_MIN ==> r == a
  {
    Wrap(Abs(Signed(a)))
  }

  /// The shift amount Rust uses: only the low five bits of b.
  function ShiftAmount(b: u32): (r: nat)
    ensures r < 32 && (b - r) % 32 == 0
  {
    b % 32
  }

  /// `u32::wrapping_shl`: a shifted left by b mod 32, bits above 31 dropped.
  function WrappingShl(a: u32, b: u32): (r: u32)
  {
    Pow2Of32();
    (a * Pow2(ShiftAmount(b))) % TWO32
  }

  /// `u32::wrapping_shr`: a shifted right by b mod 32.
  function WrappingShr(a: u32, b: u32): (r: u32)
  {
    DivPositive(a, Pow2(ShiftAmount(b)));
    a / Pow2(ShiftAmount(b))
  }

  lemma DivPositive(x: nat, y: nat)
    requires y > 0
    ensures 0 <= x / y <= x
  {
    NatDivMod(x, y);
    MulAtLeastTwice(x / y, y);
    assert (x / y) * Min(y, 2) >= x / y;
  }

  /// `u32::overflowing_shl`: the wrapping shift, flagged when b is 32 or more.
  function OverflowingShl(a: u32, b: u32): (r: (u32, bool))
    ensures r.1 <==> b >= 32
    ensures r.0 == WrappingShl(a, b)
  {
    (WrappingShl(a, b), b >= 32)
  }

  /// `u32::overflowing_shr`: the wrapping shift, flagged when b is 32 or more.
  function OverflowingShr(a: u32, b: u32): (r: (u32, bool))
    ensures r.1 <==> b >= 32
    ensures r.0 == WrappingShr(a, b)
  {
    (WrappingShr(a, b), b >= 32)
  }

  function Min(a: int, b: int): int
  {
    if a <= b then a else b
  }

  function Max(a: int, b: int): int
  {
    if a <= b then b else a
  }

  // ---- properties that relate the operations to one another ----

  /// Wrapped addition and subtraction undo each other.
  lemma AddSubInverse(a: u32, b: u32)
    ensures OverflowingSub(OverflowingAdd(a, b).0, b).0 == a
    ensures OverflowingSub(OverflowingAdd(a, b).0, b).1 == OverflowingAdd(a, b).1
  {
  }

  /// With no carry in, the carrying forms agree with the plain overflowing ones.
  lemma CarryingWithoutCarry(a: u32, b: u32)
    ensures CarryingAdd(a, b, false) == OverflowingAdd(a, b)
    ensures BorrowingSub(a, b, false) == OverflowingSub(a, b)
    ensures SignedCarryingAdd(a, b, false) == SignedOverflowingAdd(a, b)
    ensures SignedBorrowingSub(a, b, false) == SignedOverflowingSub(a, b)
  {
  }

  /// The low word of a signed and of an unsigned product are the same pattern.
  lemma SignedProductLowWord(a: u32, b: u32)
    ensures SignedOverflowingMul(a, b).0 == WideningMul(a, b).0
  {
    var p := a * b;
    var w := WideningMul(a, b);
    ModMultiple(w.0, w.1);
    assert p % TWO32 == w.0;
    var ka := if a < TWO31 then 0 else 1;
    var kb := if b < TWO31 then 0 else 1;
    var k := ka * kb * TWO32 - ka * b - kb * a;
    assert Signed(a) * Signed(b) == p + k * TWO32 by {
      assert Signed(a) == a - ka * TWO32 && Signed(b) == b - kb * TWO32;
      SignedExpand(a, b, ka, kb);
    }
    ModMultiple(p, k);
  }

  lemma SignedExpand(a: int, b: int, ka: int, kb: int)
    ensures (a - ka * TWO32) * (b - kb * TWO32) == a * b + (ka * kb * TWO32 - ka * b - kb * a) * TWO32
  {
  }

  lemma ModMultiple(x: int, k: int)
    ensures (x + k * TWO32) % TWO32 == x % TWO32
  {
  }

  /// Quotient and remainder of the checked unsigned operations rebuild the dividend.
  lemma DivRemRebuild(a: u32, b: u32)
    requires b != 0
    ensures CheckedDiv(a, b).value * b + CheckedRem(a, b).value == a
  {
  }

  /// The signed quotient and remainder rebuild the dividend wherever both exist.
  lemma SignedDivRemRebuild(a: u32, b: u32)
    requires b != 0 && !SignedDivOverflows(a, b)
    ensures Signed(SignedCheckedDiv(a, b).value) * Signed(b) + Signed(SignedCheckedRem(a, b).value) == Signed(a)
  {
    TruncDivRem(Signed(a), Signed(b));
  }

  /// Shifting left then right by the same amount keeps the bits that were not dropped.
  lemma ShlShrRoundTrip(a: u32, b: u32)
    requires a < Pow2(32 - ShiftAmount(b))
    ensures WrappingShr(WrappingShl(a, b), b) == a
  {
    var k := ShiftAmount(b);
    var p := Pow2(k);
    var x := a * p;
    assert x < TWO32 by {
      Pow2Of32();
      Pow2Split(k, 32 - k);
      MulStrict(a, Pow2(32 - k), p);
    }
    assert WrappingShl(a, b) == x by {
      Pow2Of32();
      ModSmall(x, TWO32);
    }
    MulDivCancel(a, p);
  }

  lemma ModSmall(x: nat, n: nat)
    requires x < n
    ensures x % n == x
  {
  }

  lemma MulStrict(a: nat, n: nat, p: nat)
    requires a < n && p > 0
    ensures a * p < n * p
  {
  }

  lemma MulDivCancel(a: nat, p: nat)
    requires p > 0
    ensures (a * p) / p == a
  {
    EuclidUnique(a * p, p, a, 0);
  }

  lemma {:induction false} Pow2Split(m: nat, n: nat)
    ensures Pow2(m + n) == Pow2(n) * Pow2(m)
  {
    if m > 0 {
      Pow2Split(m - 1, n);
    }
  }
}
