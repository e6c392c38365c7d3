/// Python's `int(text, base=0)` and the textual rewriting of numeric literals that
/// the section-based assembler (assembler.py) applies to a `#` definition before
/// evaluating it.
module PyNumber {
  import opened Wrappers
  import opened SeqFacts
  import opened PyText
  import opened Numerals

  // ---------------------------------------------------------------------------
  // int(text, base=0)

  /// The base a prefix letter after a leading `0` selects.
  function PrefixBase(c: char): (r: Option<nat>)
    ensures r.Some? ==> r.value in {2, 8, 16}
  {
    if c == 'x' || c == 'X' then Some(16)
    else if c == 'o' || c == 'O' then Some(8)
    else if c == 'b' || c == 'B' then Some(2)
    else None
  }

  /// Digits with single underscores between them: no underscore first, last or
  /// doubled.
  predicate Grouping(ds: string)
  {
    && |ds| > 0 && ds[0] != '_' && ds[|ds| - 1] != '_'
    && forall i :: 0 <= i < |ds| - 1 ==> !(ds[i] == '_' && ds[i + 1] == '_')
  }

  function Grouped(ds: string, base: nat): Option<nat>
    requires 2 <= base <= 36
  {
    if Grouping(ds) then DigitsValue(RemoveAll(ds, '_'), base) else None
  }

  /// The unsigned part: `0x`/`0o`/`0b` (either case) with an optional underscore
  /// after the prefix, or decimal, where a leading zero is only allowed for zero.
  function Magnitude(body: string): (r: Option<nat>)
  {
    if |body| >= 2 && body[0] == '0' && PrefixBase(body[1]).Some? then
      var ds := body[2..];
      Grouped(if |ds| > 0 && ds[0] == '_' then ds[1..] else ds, PrefixBase(body[1]).value)
    else
      match Grouped(body, 10)
      case None => None
      case Some(v) => if body[0] == '0' && v != 0 then None else Some(v)
  }

  /// `int(text, base=0)`: surrounding whitespace, an optional sign, then a literal;
  /// `None` is the `ValueError`.
  function PyInt(text: string): (r: Option<int>)
  {
    var t := Strip(text);
    var signed := |t| > 0 && (t[0] == '+' || t[0] == '-');
    var body := if signed then t[1..] else t;
    match Magnitude(body)
    case None => None
    case Some(m) => Some(if signed && t[0] == '-' then -(m as int) else m as int)
  }

  /// The letter that introduces each base other than ten.
  function PrefixOf(base: nat): char
    requires base in {2, 8, 16}
  {
    if base == 2 then 'b' else if base == 8 then 'o' else 'x'
  }

  lemma GroupedPlain(ds: string, base: nat)
    requires 2 <= base <= 36 && |ds| > 0 && DigitString(ds)
    ensures Grouped(ds, base) == DigitsValue(ds, base)
  {
    assert ds[0] != '_' && ds[|ds| - 1] != '_';
    assert '_' !in ds;
    RemoveAllAbsent(ds, '_');
  }

  /// An optional `-` before a literal without surrounding whitespace: the
  /// magnitude, negated after a `-`.
  lemma PyIntOfPlain(sign: string, body: string)
    requires sign == "" || sign == "-"
    requires |body| > 0 && !IsSpace(body[0]) && !IsSpace(body[|body| - 1])
    requires body[0] != '+' && body[0] != '-'
    ensures PyInt(sign + body) == match Magnitude(body)
      case None => None
      case Some(m) => Some(if sign == "-" then -(m as int) else m as int)
  {
    var s := sign + body;
    if sign == "" {
      assert s == body;
      StripPlain(body);
    } else {
      assert s[0] == '-' && s[1..] == body && s[|s| - 1] == body[|body| - 1];
      StripPlain(s);
    }
  }

  /// The unsigned part of a prefixed literal is its digits in that base.
  lemma PrefixedMagnitude(n: nat, base: nat)
    requires base in {2, 8, 16}
    ensures Magnitude(['0', PrefixOf(base)] + Digits(n, base)) == Some(n)
  {
    var ds := Digits(n, base);
    var s := ['0', PrefixOf(base)] + ds;
    assert s[2..] == ds;
    assert PrefixBase(s[1]) == Some(base);
    assert ds[0] != '_';
    assert Grouped(ds, base) == Some(n) by {
      GroupedPlain(ds, base);
      DigitsRoundTrip(n, base);
    }
  }

  /// Any natural number written with a base prefix reads back.
  lemma PrefixedLiteral(n: nat, base: nat)
    requires base in {2, 8, 16}
    ensures PyInt(['0', PrefixOf(base)] + Digits(n, base)) == Some(n)
  {
    var s := ['0', PrefixOf(base)] + Digits(n, base);
    PrefixedMagnitude(n, base);
    PyIntOfPlain("", s);
    assert "" + s == s;
  }

  /// The first digit of a positive number is never `0`.
  lemma {:induction false} LeadingDigitNonZero(n: nat, base: nat)
    requires 2 <= base <= 36 && n > 0
    ensures Digits(n, base)[0] != '0'
    decreases n
  {
    if n >= base {
      DivShrinks(n, base);
      LeadingDigitNonZero(n / base, base);
    }
  }

  /// A natural number in decimal is a valid unsigned part.
  lemma DecimalMagnitude(n: nat)
    ensures Magnitude(Digits(n, 10)) == Some(n)
  {
    var ds := Digits(n, 10);
    assert !(|ds| >= 2 && PrefixBase(ds[1]).Some?) by {
      SmallRadixDigits(n, 10);
    }
    assert Grouped(ds, 10) == Some(n) by {
      GroupedPlain(ds, 10);
      DigitsRoundTrip(n, 10);
    }
    assert ds[0] == '0' ==> n == 0 by {
      if n > 0 {
        LeadingDigitNonZero(n, 10);
      }
    }
  }

  /// Any integer written in decimal, with a `-` when negative, reads back.
  lemma DecimalLiteral(i: int)
    ensures PyInt((if i < 0 then "-" else "") + Digits(if i < 0 then -i else i, 10)) == Some(i)
  {
    var n := if i < 0 then -i else i;
    var ds := Digits(n, 10);
    SmallRadixDigits(n, 10);
    DecimalMagnitude(n);
    PyIntOfPlain(if i < 0 then "-" else "", ds);
  }

  lemma TwelveGrouped()
    ensures Grouped("012", 10) == Some(12)
  {
    var s := "012";
    assert DigitsValue(s, 10) == Some(12) by {
      var s1, s2 := s[..1], s[..2];
      assert s1[..0] == [] && s2[..1] == s1 && s[..2] == s2;
      assert DigitValue('0') == Some(0) && DigitValue('1') == Some(1) && DigitValue('2') == Some(2);
      assert DigitsValue(s1, 10) == Some(0);
      assert DigitsValue(s2, 10) == Some(1);
    }
    assert '_' !in s;
    RemoveAllAbsent(s, '_');
    assert Grouping(s);
  }

  /// A decimal literal with a superfluous leading zero is refused.
  lemma LeadingZeroRefused()
    ensures PyInt("012") == None
  {
    var s := "012";
    assert Magnitude(s) == None by {
      assert s[0] == '0' && s[1] == '1';
      TwelveGrouped();
    }
    assert s[|s| - 1] == '2';
    PyIntOfPlain("", s);
    assert "" + s == s;
  }

  // ---------------------------------------------------------------------------
  // The literal rewriting of a `#` definition

  predicate IsHexDigit(c: char)
  {
    '0' <= c <= '9' || 'a' <= c <= 'f' || 'A' <= c <= 'F'
  }

  /// Whether `c` is a digit the literal pattern allows after the prefix `p`
  /// (`[0-9A-Fa-f]`, `[0-7]` or `[01]`).
  predicate PatternDigit(p: char, c: char)
  {
    if p == 'x' || p == 'X' then IsHexDigit(c)
    else if p == 'o' || p == 'O' then '0' <= c <= '7'
    else c == '0' || c == '1'
  }

  /// How many pattern digits follow position `i`.
  function DigitRun(s: string, i: nat, p: char): (k: nat)
    requires i <= |s|
    ensures i + k <= |s|
    ensures forall j :: i <= j < i + k ==> PatternDigit(p, s[j])
    ensures i + k < |s| ==> !PatternDigit(p, s[i + k])
    decreases |s| - i
  {
    if i < |s| && PatternDigit(p, s[i]) then 1 + DigitRun(s, i + 1, p) else 0
  }

  /// The length of the match of `0[xX][0-9A-Fa-f]+|0[oO][0-7]+|0[bB][01]+` that starts
  /// at `i`, or 0 when none does.
  function LiteralAt(s: string, i: nat): (k: nat)
    requires i <= |s|
    ensures k == 0 || (3 <= k && i + k <= |s|)
  {
    if i + 2 < |s| && s[i] == '0' && PrefixBase(s[i + 1]).Some? then
      var run := DigitRun(s, i + 2, s[i + 1]);
      if run > 0 then 2 + run else 0
    else 0
  }

  lemma LiteralAtIsLiteral(s: string, i: nat)
    requires i <= |s| && LiteralAt(s, i) > 0
    ensures IsLiteral(s[i..i + LiteralAt(s, i)])
  {
    var m := s[i..i + LiteralAt(s, i)];
    assert forall j :: 2 <= j < |m| ==> m[j] == s[i + j];
  }

  /// `re.findall` of the literal pattern from position `i`: the matches, left to
  /// right, without overlap.
  function FindLiterals(s: string, i: nat): (r: seq<string>)
    requires i <= |s|
    decreases |s| - i
  {
    if i == |s| then []
    else
      var k := LiteralAt(s, i);
      if k > 0 then [s[i..i + k]] + FindLiterals(s, i + k) else FindLiterals(s, i + 1)
  }

  /// A whole match of the literal pattern.
  predicate IsLiteral(m: string)
  {
    && |m| >= 3 && m[0] == '0' && PrefixBase(m[1]).Some?
    && forall j :: 2 <= j < |m| ==> PatternDigit(m[1], m[j])
  }

  /// The value of a literal the pattern matched.
  function LiteralValue(m: string): nat
    requires IsLiteral(m)
  {
    var v := DigitsValue(m[2..], PrefixBase(m[1]).value);
    if v.Some? then v.value else 0
  }

  function Upper(c: char): char
  {
    if 'a' <= c <= 'z' then c - 'a' + 'A' else c
  }

  /// `f'{n:X}'`.
  function HexUpper(n: nat): (s: string)
  {
    var ds := Digits(n, 16);
    seq(|ds|, i requires 0 <= i < |ds| => Upper(ds[i]))
  }

  /// `str(uint(n))`, the text a literal is replaced by: `uint(0x..)`.
  function UintText(n: nat): string
  {
    "uint(0x" + HexUpper(n) + ")"
  }

  /// `str.replace(pat, rep)`: every occurrence, left to right, without overlap.
  function ReplaceText(s: string, pat: string, rep: string): (r: string)
    requires |pat| > 0
    decreases |s|
  {
    if |s| < |pat| then s
    else if s[..|pat|] == pat then rep + ReplaceText(s[|pat|..], pat, rep)
    else [s[0]] + ReplaceText(s[1..], pat, rep)
  }

  /// assembler.py as written: for each match in turn, replace every occurrence of
  /// its text in the whole expression, including the text earlier replacements
  /// produced.
  function RewriteAsWritten(expr: string, matches: seq<string>): string
    requires forall i :: 0 <= i < |matches| ==> IsLiteral(matches[i])
    decreases |matches|
  {
    if |matches| == 0 then expr
    else
      var m := matches[0];
      RewriteAsWritten(ReplaceText(expr, m, UintText(LiteralValue(m))), matches[1..])
  }

  lemma FoundAreLiterals(s: string, i: nat)
    requires i <= |s|
    ensures forall j :: 0 <= j < |FindLiterals(s, i)| ==> IsLiteral(FindLiterals(s, i)[j])
    decreases |s| - i
  {
    if i < |s| {
      var k := LiteralAt(s, i);
      if k > 0 {
        LiteralAtIsLiteral(s, i);
        FoundAreLiterals(s, i + k);
      } else {
        FoundAreLiterals(s, i + 1);
      }
    }
  }

  /// The rewriting of a `#` expression as assembler.py performs it.
  function RewriteLiterals(expr: string): string
  {
    FoundAreLiterals(expr, 0);
    RewriteAsWritten(expr, FindLiterals(expr, 0))
  }

  /// The evidently intended rewriting: each literal replaced once, where it stands.
  function RewriteEach(s: string, i: nat): (r: string)
    requires i <= |s|
    decreases |s| - i
  {
    if i == |s| then []
    else
      var k := LiteralAt(s, i);
      if k > 0 then
        LiteralAtIsLiteral(s, i);
        UintText(LiteralValue(s[i..i + k])) + RewriteEach(s, i + k)
      else [s[i]] + RewriteEach(s, i + 1)
  }

  function RewriteLiteralsIntended(expr: string): string
  {
    RewriteEach(expr, 0)
  }

  /// Text without a literal is left alone by both rewritings.
  lemma {:induction false} NoLiteralUnchanged(s: string, i: nat)
    requires i <= |s|
    requires forall j :: i <= j < |s| ==> LiteralAt(s, j) == 0
    ensures FindLiterals(s, i) == []
    ensures RewriteEach(s, i) == s[i..]
    decreases |s| - i
  {
    if i < |s| {
      NoLiteralUnchanged(s, i + 1);
      assert s[i..] == [s[i]] + s[i + 1..];
    }
  }

  /// A pattern digit is a digit below the base its prefix selects.
  lemma PatternDigitValue(p: char, c: char)
    requires PrefixBase(p).Some? && PatternDigit(p, c)
    ensures DigitValue(c).Some? && DigitValue(c).value < PrefixBase(p).value
  {
  }

  /// What the pattern matched reads back through `int(.., base=0)` as its value,
  /// which is what each match is replaced by.
  lemma LiteralReads(m: string)
    requires IsLiteral(m)
    ensures PyInt(m) == Some(LiteralValue(m))
  {
    LiteralMagnitude(m);
    assert !IsSpace(m[|m| - 1]) by {
      assert PatternDigit(m[1], m[|m| - 1]);
    }
    PyIntOfPlain("", m);
    assert "" + m == m;
  }

  /// The magnitude of a literal the pattern matched is its value.
  lemma LiteralMagnitude(m: string)
    requires IsLiteral(m)
    ensures Magnitude(m) == Some(LiteralValue(m))
  {
    var base := PrefixBase(m[1]).value;
    var ds := m[2..];
    assert forall j :: 0 <= j < |ds| ==> DigitValue(ds[j]).Some? && DigitValue(ds[j]).value < base by {
      forall j | 0 <= j < |ds|
        ensures DigitValue(ds[j]).Some? && DigitValue(ds[j]).value < base
      {
        assert ds[j] == m[j + 2];
        PatternDigitValue(m[1], m[j + 2]);
      }
    }
    DigitsValueDefined(ds, base);
    assert '_' !in ds && ds[0] != '_';
    RemoveAllAbsent(ds, '_');
    assert Grouping(ds);
  }

  /// The intended rewriting replaces a lone literal by its `uint` form.
  lemma RewriteOneLiteral(m: string)
    requires IsLiteral(m)
    ensures RewriteLiteralsIntended(m) == UintText(LiteralValue(m))
  {
    var run := DigitRun(m, 2, m[1]);
    DigitRunToEnd(m, 2, m[1]);
    assert LiteralAt(m, 0) == |m|;
    assert m[0..|m|] == m;
    assert RewriteEach(m, |m|) == [];
    assert RewriteEach(m, 0) == UintText(LiteralValue(m)) + [];
  }

  lemma {:induction false} DigitRunToEnd(s: string, i: nat, p: char)
    requires i <= |s|
    requires forall j :: i <= j < |s| ==> PatternDigit(p, s[j])
    ensures DigitRun(s, i, p) == |s| - i
    decreases |s| - i
  {
    if i < |s| {
      DigitRunToEnd(s, i + 1, p);
    }
  }

  /// Text without the pattern's first character passes through a replacement.
  lemma {:induction false} ReplaceSkip(x: string, s: string, pat: string, rep: string)
    requires |pat| > 0 && pat[0] !in x
    ensures ReplaceText(x + s, pat, rep) == x + ReplaceText(s, pat, rep)
  {
    if |x| > 0 {
      var xs := x + s;
      assert xs[0] == x[0] != pat[0];
      assert xs[1..] == x[1..] + s;
      ReplaceSkip(x[1..], s, pat, rep);
      if |xs| >= |pat| {
        assert xs[..|pat|] != pat by {
          assert xs[..|pat|][0] == x[0];
        }
        assert ReplaceText(xs, pat, rep) == [x[0]] + (x[1..] + ReplaceText(s, pat, rep));
      }
      assert x == [x[0]] + x[1..];
    } else {
      assert x + s == s;
    }
  }

  /// An occurrence at the front is replaced.
  lemma ReplaceFront(s: string, pat: string, rep: string)
    requires |pat| > 0
    ensures ReplaceText(pat + s, pat, rep) == rep + ReplaceText(s, pat, rep)
  {
    assert (pat + s)[..|pat|] == pat && (pat + s)[|pat|..] == s;
  }

  /// `0x1` is written the way `str(uint(..))` writes its value.
  lemma OneLiteral()
    ensures IsLiteral("0x1") && UintText(LiteralValue("0x1")) == "uint(" + "0x1" + ")"
  {
    assert "0x1"[2..] == "1" && "1"[..0] == [];
    assert Digits(1, 16) == "1";
  }

  /// A digit run that ends at `e` has length `e - i`.
  lemma {:induction false} DigitRunUpTo(s: string, i: nat, e: nat, p: char)
    requires i <= e <= |s|
    requires forall j :: i <= j < e ==> PatternDigit(p, s[j])
    requires e < |s| ==> !PatternDigit(p, s[e])
    ensures DigitRun(s, i, p) == e - i
    decreases e - i
  {
    if i < e {
      DigitRunUpTo(s, i + 1, e, p);
    }
  }

  /// A literal standing at `i` and not followed by another pattern digit is
  /// matched there whole.
  lemma MatchAt(s: string, i: nat, m: string)
    requires IsLiteral(m) && i + |m| <= |s| && s[i..i + |m|] == m
    requires i + |m| < |s| ==> !PatternDigit(m[1], s[i + |m|])
    ensures LiteralAt(s, i) == |m| && s[i..i + LiteralAt(s, i)] == m
  {
    assert s[i] == m[0] && s[i + 1] == m[1];
    assert forall j :: i + 2 <= j < i + |m| ==> s[j] == m[j - i];
    DigitRunUpTo(s, i + 2, i + |m|, m[1]);
  }

  /// Where the two literals of `m+m` are matched.
  lemma TwiceMatched(m: string)
    requires IsLiteral(m)
    ensures LiteralAt(m + ("+" + m), 0) == |m| && (m + ("+" + m))[0..|m|] == m
    ensures LiteralAt(m + ("+" + m), |m|) == 0
    ensures LiteralAt(m + ("+" + m), |m| + 1) == |m| && (m + ("+" + m))[|m| + 1..|m| + 1 + |m|] == m
  {
    var s := m + ("+" + m);
    var n := |m|;
    assert s[n] == '+';
    assert s[0..n] == m;
    assert s[n + 1..n + 1 + n] == m;
    assert !PatternDigit(m[1], '+');
    MatchAt(s, 0, m);
    MatchAt(s, n + 1, m);
  }

  /// In `m+m` the pattern finds the two literals, and the intended rewriting wraps
  /// each once.
  lemma TwiceFound(m: string)
    requires IsLiteral(m)
    ensures FindLiterals(m + ("+" + m), 0) == [m, m]
    ensures RewriteEach(m + ("+" + m), 0) == UintText(LiteralValue(m)) + ("+" + UintText(LiteralValue(m)))
  {
    var s := m + ("+" + m);
    var n := |m|;
    var u := UintText(LiteralValue(m));
    TwiceMatched(m);
    assert s[n] == '+' && |s| == n + 1 + n;
    assert FindLiterals(s, n + 1) == [m];
    assert FindLiterals(s, 0) == [m] + FindLiterals(s, n + 1);
    assert RewriteEach(s, n + 1) == u;
    assert RewriteEach(s, n) == "+" + u;
  }

  /// The first replacement of `m` in `m+m` when `m`'s text is `uint(m)`.
  lemma FirstPass(m: string, u: string)
    requires IsLiteral(m) && u == "uint(" + m + ")"
    ensures ReplaceText(m + ("+" + m), m, u) == u + ("+" + u)
  {
    ReplaceFront("+" + m, m, u);
    ReplaceSkip("+", m, m, u);
    ReplaceFront([], m, u);
    assert m + [] == m && u + [] == u;
  }

  /// The second replacement of `m` wraps both texts again.
  lemma SecondPass(m: string, u: string)
    requires IsLiteral(m) && u == "uint(" + m + ")"
    ensures ReplaceText(u + ("+" + u), m, u) == "uint(" + u + ")" + ("+" + ("uint(" + u + ")"))
  {
    var w := "uint(" + u + ")";
    assert ReplaceText(u, m, u) == w by {
      WrapAgain(m, u, []);
      assert u + [] == u && w + [] == w;
    }
    assert ReplaceText("+" + u, m, u) == "+" + w by {
      ReplaceSkip("+", u, m, u);
    }
    WrapAgain(m, u, "+" + u);
  }

  /// assembler.py as written: when a literal's `uint` text contains the literal
  /// itself (as `uint(0x1)` contains `0x1`), its second match is replaced again
  /// inside the text the first replacement produced, so each use is wrapped twice.
  lemma TwiceAsWritten(m: string)
    requires IsLiteral(m) && UintText(LiteralValue(m)) == "uint(" + m + ")"
    ensures RewriteLiterals(m + ("+" + m)) ==
      "uint(uint(" + m + "))" + ("+" + ("uint(uint(" + m + "))"))
  {
    TwiceFound(m);
    var u := "uint(" + m + ")";
    FirstPass(m, u);
    SecondPass(m, u);
    var once := u + ("+" + u);
    assert RewriteLiterals(m + ("+" + m)) == RewriteAsWritten(once, [m]);
    assert [m][1..] == [];
    assert "uint(" + u + ")" == "uint(uint(" + m + "))";
  }

  /// `uint(m)` followed by text with `m` replaced gives `uint(rep)` and that text.
  lemma WrapAgain(m: string, rep: string, rest: string)
    requires IsLiteral(m)
    ensures ReplaceText("uint(" + m + ")" + rest, m, rep) == "uint(" + rep + ")" + ReplaceText(rest, m, rep)
  {
    var open, close := "uint(", ")";
    ReplaceSkip(open, m + (close + rest), m, rep);
    ReplaceFront(close + rest, m, rep);
    ReplaceSkip(close, rest, m, rep);
    Regroup(open, m, close, rest);
    Regroup(open, rep, close, ReplaceText(rest, m, rep));
  }

  /// The intended rewriting of `m+m` reads back through `int` for each use.
  lemma TwiceIntended(m: string)
    requires IsLiteral(m)
    ensures RewriteLiteralsIntended(m + ("+" + m)) == UintText(LiteralValue(m)) + ("+" + UintText(LiteralValue(m)))
    ensures PyInt(m) == Some(LiteralValue(m))
  {
    TwiceFound(m);
    LiteralReads(m);
  }
}
