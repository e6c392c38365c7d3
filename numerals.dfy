/// Digit strings in radixes up to 36: reading them (`char::to_digit`, and the
/// digit loops of Rust's and Python's integer parsers) and writing them.
module Numerals {
  import opened Wrappers
  import IntOps

  /// `s` with every `c` removed (`str::replace(c, "")`).
  function RemoveAll(s: string, c: char): (r: string)
    ensures c !in r
  {
    if |s| == 0 then []
    else
      if s[0] == c then RemoveAll(s[1..], c)
      else [s[0]] + RemoveAll(s[1..], c)
  }

  /// The value of an ASCII digit or letter in any radix up to 36, either case
  /// (`char::to_digit`).
  function DigitValue(c: char): (r: Option<nat>)
    ensures r.Some? ==> r.value < 36
  {
    if '0' <= c <= '9' then Some((c - '0') as nat)
    else if 'a' <= c <= 'z' then Some((c - 'a') as nat + 10)
    else if 'A' <= c <= 'Z' then Some((c - 'A') as nat + 10)
    else None
  }

  /// The value of a nonempty string of digits below `radix`, most significant first.
  function DigitsValue(s: string, radix: nat): (r: Option<nat>)
    requires 2 <= radix <= 36
  {
    if |s| == 0 then Some(0)
    else match DigitsValue(s[..|s| - 1], radix)
      case None => None
      case Some(high) =>
        match DigitValue(s[|s| - 1])
        case Some(d) =>
          if d < radix then
            assert high * radix >= 0 by { NatProduct(high, radix); }
            Some(high * radix + d)
          else None
        case None => None
  }

  lemma NatProduct(x: nat, y: nat)
    ensures x * y >= 0
  {
  }

  /// The digit character for `d` (lower-case letters above 9).
  function DigitChar(d: nat): (c: char)
    requires d < 36
    ensures '0' <= c <= '9' || 'a' <= c <= 'z'
  {
    if d < 10 then '0' + d as char else 'a' + (d - 10) as char
  }

  /// Digits and lower-case letters only.
  predicate DigitString(s: string)
  {
    forall i :: 0 <= i < |s| ==> '0' <= s[i] <= '9' || 'a' <= s[i] <= 'z'
  }

  /// `v` written in `radix`, most significant digit first, with no leading zero.
  function Digits(v: nat, radix: nat): (s: string)
    requires 2 <= radix <= 36
    ensures |s| >= 1
    ensures DigitString(s)
    decreases v
  {
    if v < radix then [DigitChar(v)]
    else
      DivShrinks(v, radix);
      Digits(v / radix, radix) + [DigitChar(v % radix)]
  }

  lemma DivShrinks(v: nat, radix: nat)
    requires 2 <= radix <= v
    ensures 1 <= v / radix < v && v % radix < radix
  {
    IntOps.NatDivMod(v, radix);
    var q := v / radix;
    IntOps.MulAtLeastTwice(q, radix);
    assert IntOps.Min(radix, 2) == 2;
  }

  lemma DigitCharValue(d: nat)
    requires d < 36
    ensures DigitValue(DigitChar(d)) == Some(d)
  {
  }

  lemma {:induction false} DigitsRoundTrip(v: nat, radix: nat)
    requires 2 <= radix <= 36
    ensures DigitsValue(Digits(v, radix), radix) == Some(v)
    decreases v
  {
    DigitCharValue(v % radix);
    if v < radix {
      assert Digits(v, radix)[..0] == [];
    } else {
      DivShrinks(v, radix);
      var s := Digits(v, radix);
      assert s[..|s| - 1] == Digits(v / radix, radix);
      DigitsRoundTrip(v / radix, radix);
      IntOps.NatDivMod(v, radix);
    }
  }

  /// Characters that are all digits below `radix` have a value.
  lemma {:induction false} DigitsValueDefined(s: string, radix: nat)
    requires 2 <= radix <= 36
    requires forall i :: 0 <= i < |s| ==> DigitValue(s[i]).Some? && DigitValue(s[i]).value < radix
    ensures DigitsValue(s, radix).Some?
  {
    if |s| > 0 {
      DigitsValueDefined(s[..|s| - 1], radix);
    }
  }

  /// In a radix of ten or less every digit is a decimal digit.
  lemma {:induction false} SmallRadixDigits(v: nat, radix: nat)
    requires 2 <= radix <= 10
    ensures forall i :: 0 <= i < |Digits(v, radix)| ==> '0' <= Digits(v, radix)[i] <= '9'
    decreases v
  {
    if v >= radix {
      DivShrinks(v, radix);
      SmallRadixDigits(v / radix, radix);
    }
  }

  lemma {:induction false} RemoveAllAbsent(s: string, c: char)
    requires c !in s
    ensures RemoveAll(s, c) == s
  {
    if |s| > 0 {
      RemoveAllAbsent(s[1..], c);
    }
  }

  /// Removing distributes over concatenation, so the characters other than `c`
  /// keep their order.
  lemma {:induction false} RemoveAllAppend(a: string, b: string, c: char)
    ensures RemoveAll(a + b, c) == RemoveAll(a, c) + RemoveAll(b, c)
  {
    if |a| > 0 {
      assert (a + b)[0] == a[0] && (a + b)[1..] == a[1..] + b;
      RemoveAllAppend(a[1..], b, c);
    } else {
      assert a + b == b;
    }
  }

  /// Removing `c` drops exactly its occurrences and keeps every other
  /// character as often as it occurs.
  lemma {:induction false} RemoveAllCounts(s: string, c: char)
    ensures |RemoveAll(s, c)| == |s| - multiset(s)[c]
    ensures forall x :: x != c ==> multiset(RemoveAll(s, c))[x] == multiset(s)[x]
  {
    if |s| > 0 {
      assert s == [s[0]] + s[1..];
      assert multiset(s) == multiset([s[0]]) + multiset(s[1..]);
      RemoveAllCounts(s[1..], c);
    }
  }
}
