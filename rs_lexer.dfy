/// The front end of the Rust assembler (src/assembler/mod.rs): reading lines with
/// their comments cut off, the tokenizer with its identifier and number words,
/// string escapes, and number literals with radix prefixes and the `i` suffix.
module RsLexer {
  import opened Wrappers
  import opened Bits
  import Text
  import opened Numerals
  import Utf8

  /// A source position: the index of the line. The file name and the shared
  /// source text that a `Loc` also holds serve only the error display.
  type Loc = nat

  datatype Token =
    | Ident(name: string)
    | UnsignedInteger(u: u32, radix: nat)
    | SignedInteger(i: i32, radix: nat)
    /// The bits of the `f32` value.
    | Float(bits: u32)
    | Ascii(text: string)
    | Control(c: char)

  /// What went wrong, one variant per error message of the assembler (the text
  /// of each message is display only). Panics of the source are errors here.
  datatype Message =
    // tokenize, unescape_str, str_to_num_lit
    | NonAscii(c: char)
    | UnterminatedString
    | InvalidEscape(escape: char)
    | InvalidNumber(literal: string)
    | InvalidRadix(letter: char, literal: string)
    | FloatRadix(literal: string, radix: nat)
    | InvalidFloat(literal: string)
    | InvalidUnsigned(literal: string, radix: nat)
    | InvalidSigned(literal: string, radix: nat)
    // collect_expr, Op::from_char, UnaryOp::from_char
    | ExprMissingToken
    | ExpectedCommaOrParen(got: Token)
    | ExpectedOp(got: Token)
    | InvalidBinaryOp(op: char)
    | InvalidUnaryOp(op: char)
    | MissingRightOperand
    | EmptyGroup
    | BangInExpression
    | InvalidExprToken(token: Token)
    // Value::copy_into
    | AsciiValue(target: string)
    | DoesNotFit(kind: string, value: int, target: string)
    | KindMismatch(target: string, kind: string)
    // instructionize, parse_file
    | MissingToken
    | WrongToken(expected: string, got: Token)
    | SurplusArgument(surplus: Token)
    | IndexPastEnd
    | InvalidDataType(name: string)
    | ExpectedDataType
    | InvalidRegister(register: Token)
    | InvalidSyntax
    | InvalidMacro
    | InvalidInclude
    | InvalidAlias
    | UnknownMacro(directive: Token)
    // assemble
    | LocationNotUnsigned(kind: string)
    | LocationBehind(location: u32, addr: u32)
    | CodePastLocation(location: u32)
    | AddressOverflow
    | UnknownCommand(command: string)
    | TooManyArguments(count: nat)

  /// `Error`: a message and the position it refers to, if known.
  datatype Error = Error(message: Message, loc: Option<Loc>)

  /// `Error::at`: a given position replaces the one the error holds; no
  /// position leaves the error as it is.
  function At(e: Error, loc: Option<Loc>): (r: Error)
    ensures r.message == e.message
    ensures loc.Some? ==> r.loc == loc
    ensures loc.None? ==> r == e
  {
    if loc.Some? then e.(loc := loc) else e
  }

  /// `p` put in front of a successful result; an error passes through.
  function Prepend<T>(p: seq<T>, r: Result<seq<T>, Error>): Result<seq<T>, Error>
  {
    match r
    case Ok(v) => Ok(p + v)
    case Err(e) => Err(e)
  }

  lemma PrependEmpty<T>(r: Result<seq<T>, Error>)
    ensures Prepend([], r) == r
  {
    if r.Ok? {
      assert [] + r.value == r.value;
    }
  }

  lemma PrependPrepend<T>(p: seq<T>, q: seq<T>, r: Result<seq<T>, Error>)
    ensures Prepend(p, Prepend(q, r)) == Prepend(p + q, r)
  {
    if r.Ok? {
      assert p + (q + r.value) == (p + q) + r.value;
    }
  }

  // ---------------------------------------------------------------------------
  // Character classes

  /// What the Rust standard library decides beyond ASCII: `alphanumeric` and
  /// `numeric` are `char::is_alphanumeric` and `char::is_numeric` on characters
  /// above U+007F (the Unicode tables), and `parseF32` is `f32::from_str`, giving
  /// the bits of the float or `None` for its `Err`.
  datatype Std = Std(alphanumeric: char -> bool, numeric: char -> bool, parseF32: string -> Option<u32>)

  predicate IsAscii(c: char)
  {
    c < '\U{0080}'
  }

  predicate IsDigit(c: char)
  {
    '0' <= c <= '9'
  }

  predicate IsLetter(c: char)
  {
    'a' <= c <= 'z' || 'A' <= c <= 'Z'
  }

  /// `char::is_numeric`.
  predicate IsNumeric(std: Std, c: char)
  {
    IsDigit(c) || (!IsAscii(c) && std.numeric(c))
  }

  /// `char::is_alphanumeric`.
  predicate IsAlphanumeric(std: Std, c: char)
  {
    IsDigit(c) || IsLetter(c) || (!IsAscii(c) && std.alphanumeric(c))
  }

  /// The `check` that ends a number word: anything but alphanumerics, `_` and `.`.
  function NumberEnd(std: Std): char -> bool
  {
    c => !(IsAlphanumeric(std, c) || c == '_' || c == '.')
  }

  /// The `check` that ends an identifier: anything but alphanumerics and `_`.
  function IdentEnd(std: Std): char -> bool
  {
    c => !(IsAlphanumeric(std, c) || c == '_')
  }

  // ---------------------------------------------------------------------------
  // collect_word

  /// The length of the longest prefix of `s` that `check` does not stop.
  function WordLength(s: string, check: char -> bool): (n: nat)
    ensures n <= |s|
    ensures forall k :: 0 <= k < n ==> !check(s[k])
    ensures n < |s| ==> check(s[n])
  {
    if |s| == 0 || check(s[0]) then 0 else 1 + WordLength(s[1..], check)
  }

  /// `collect_word`: the characters from `start` up to the first one `check`
  /// stops at, and the position of that character.
  method CollectWord(s: string, start: nat, check: char -> bool) returns (word: string, next: nat)
    requires start <= |s|
    ensures next == start + WordLength(s[start..], check)
    ensures word == s[start..next]
  {
    word := "";
    next := start;
    while next < |s| && !check(s[next])
      invariant start <= next <= |s|
      invariant word == s[start..next]
      invariant WordLength(s[start..], check) == next - start + WordLength(s[next..], check)
    {
      assert s[next..][1..] == s[next + 1..];
      word := word + [s[next]];
      next := next + 1;
    }
  }

  // ---------------------------------------------------------------------------
  // unescape_str

  /// The character each escape letter stands for.
  function EscapeValue(c: char): (r: Option<char>)
  {
    match c
    case 'n' => Some('\n')
    case 'r' => Some('\r')
    case 't' => Some('\t')
    case '"' => Some('"')
    case '\'' => Some('\'')
    case '0' => Some('\0')
    case '\\' => Some('\\')
    case _ => None
  }

  /// The body of a string literal with its escapes decoded; a backslash that
  /// ends the body is dropped.
  function Unescaped(s: string, loc: Option<Loc>): (r: Result<string, Error>)
    ensures r.Err? ==> r.error.loc == loc && r.error.message.InvalidEscape?
  {
    if |s| == 0 then Ok("")
    else if s[0] == '\\' then
      if |s| == 1 then Ok("")
      else match EscapeValue(s[1])
        case None => Err(Error(InvalidEscape(s[1]), loc))
        case Some(e) => Prepend([e], Unescaped(s[2..], loc))
    else Prepend([s[0]], Unescaped(s[1..], loc))
  }

  /// `unescape_str`.
  method UnescapeStr(s: string, loc: Option<Loc>) returns (r: Result<Token, Error>)
    ensures Unescaped(s, loc).Ok? ==> r == Ok(Ascii(Unescaped(s, loc).value))
    ensures Unescaped(s, loc).Err? ==> r == Err(Unescaped(s, loc).error)
  {
    var out := "";
    var i := 0;
    PrependEmpty(Unescaped(s, loc));
    while i < |s|
      invariant i <= |s|
      invariant Unescaped(s, loc) == Prepend(out, Unescaped(s[i..], loc))
    {
      var c := s[i];
      assert s[i..][1..] == s[i + 1..];
      i := i + 1;
      if c == '\\' {
        if i < |s| {
          var e := s[i];
          assert s[i - 1..][2..] == s[i + 1..];
          i := i + 1;
          match e {
            case 'n' => PrependPrepend(out, "\n", Unescaped(s[i..], loc)); out := out + "\n";
            case 'r' => PrependPrepend(out, "\r", Unescaped(s[i..], loc)); out := out + "\r";
            case 't' => PrependPrepend(out, "\t", Unescaped(s[i..], loc)); out := out + "\t";
            case '"' => PrependPrepend(out, "\"", Unescaped(s[i..], loc)); out := out + "\"";
            case '\'' => PrependPrepend(out, "'", Unescaped(s[i..], loc)); out := out + "'";
            case '0' => PrependPrepend(out, "\0", Unescaped(s[i..], loc)); out := out + "\0";
            case '\\' => PrependPrepend(out, "\\", Unescaped(s[i..], loc)); out := out + "\\";
            case _ => return Err(Error(InvalidEscape(e), loc));
          }
        }
      } else {
        PrependPrepend(out, [c], Unescaped(s[i..], loc));
        out := out + [c];
      }
    }
    assert s[i..] == [] && out + "" == out;
    r := Ok(Ascii(out));
  }

  /// A string written as a literal body: backslash, double quote, newline,
  /// return, tab and NUL take a backslash escape.
  function Escaped(t: string): (s: string)
  {
    if |t| == 0 then "" else EscapeOne(t[0]) + Escaped(t[1..])
  }

  function EscapeOne(c: char): string
  {
    match c
    case '\n' => "\\n"
    case '\r' => "\\r"
    case '\t' => "\\t"
    case '"' => "\\\""
    case '\\' => "\\\\"
    case '\0' => "\\0"
    case _ => [c]
  }

  /// Decoding undoes escaping.
  lemma {:induction false} UnescapeEscaped(t: string, loc: Option<Loc>)
    ensures Unescaped(Escaped(t), loc) == Ok(t)
  {
    if |t| > 0 {
      UnescapeEscaped(t[1..], loc);
      UnescapeOne(t[0], Escaped(t[1..]), loc);
      assert t == [t[0]] + t[1..];
    }
  }

  /// One escaped character decodes to itself, in front of what follows.
  lemma UnescapeOne(c: char, rest: string, loc: Option<Loc>)
    ensures Unescaped(EscapeOne(c) + rest, loc) == Prepend([c], Unescaped(rest, loc))
  {
    var s := EscapeOne(c) + rest;
    if |EscapeOne(c)| == 2 {
      assert s[2..] == rest;
    } else {
      assert s[1..] == rest;
    }
  }

  // ---------------------------------------------------------------------------
  // String literals inside tokenize

  /// Where the string that `s` begins ends: the position of the first `"` not
  /// escaped by an odd run of backslashes, or `None` if the line ends first.
  function StringLength(s: string, escaped: bool): (r: Option<nat>)
    ensures r.Some? ==> r.value < |s| && s[r.value] == '"'
  {
    if |s| == 0 then None
    else if s[0] == '"' && !escaped then Some(0)
    else Offset(StringLength(s[1..], if s[0] == '\\' then !escaped else false), 1)
  }

  /// A position found in a suffix, moved by the length `d` of what precedes it.
  function Offset(r: Option<nat>, d: nat): (q: Option<nat>)
    ensures q.Some? <==> r.Some?
    ensures q.Some? ==> q.value == r.value + d
  {
    if r.Some? then Some(r.value + d) else None
  }

  /// An escaped body is read up to its end, whatever follows it.
  lemma {:induction false} StringLengthEscaped(t: string, rest: string)
    ensures StringLength(Escaped(t) + rest, false) == Offset(StringLength(rest, false), |Escaped(t)|)
  {
    if |t| > 0 {
      var tail := Escaped(t[1..]) + rest;
      StringLengthEscaped(t[1..], rest);
      assert Escaped(t) + rest == EscapeOne(t[0]) + tail;
      StringLengthUnit(t[0], tail);
    } else {
      assert Escaped(t) + rest == rest;
    }
  }

  /// One escaped character leaves the scan outside any escape.
  lemma StringLengthUnit(c: char, tail: string)
    ensures StringLength(EscapeOne(c) + tail, false) == Offset(StringLength(tail, false), |EscapeOne(c)|)
  {
    var e := EscapeOne(c);
    var s := e + tail;
    if |e| == 2 {
      assert s[0] == '\\' && s[1..] == [e[1]] + tail && s[1..][1..] == tail;
      assert StringLength(s[1..], true) == Offset(StringLength(tail, false), 1);
    } else {
      assert e == [c] && c != '"' && c != '\\';
      assert s[0] == c && s[1..] == tail;
    }
  }

  // ---------------------------------------------------------------------------
  // str_to_num_lit

  /// `u32::from_str_radix` (when `signed` is false) and `i32::from_str_radix`: an
  /// optional sign (`-` only for signed), at least one digit below `radix`, and a
  /// value in the type's range.
  function FromStrRadix(s: string, radix: nat, signed: bool): (r: Option<int>)
    requires 2 <= radix <= 36
    ensures r.Some? && signed ==> -TWO31 <= r.value < TWO31
    ensures r.Some? && !signed ==> 0 <= r.value < TWO32
  {
    if |s| == 0 then None
    else if (s[0] == '+' || s[0] == '-') && |s| == 1 then None
    else
      var negative := signed && s[0] == '-';
      var digits := if s[0] == '+' || negative then s[1..] else s;
      match DigitsValue(digits, radix)
      case None => None
      case Some(v) =>
        var x: int := if negative then 0 - v else v;
        if signed && -TWO31 <= x < TWO31 then Some(x)
        else if !signed && x < TWO32 then Some(x)
        else None
  }

  /// The radix a literal's prefix selects and the digits that follow: only a
  /// literal of more than two bytes that starts with `0` has a prefix; after the
  /// `0`, `b q o z x d` select 2, 4, 8, 12, 16, 10, a numeral or `.` means no
  /// prefix, and any other character `c` is the error `Err(c)`.
  function RadixPrefix(num: string, std: Std): (r: Result<(nat, string), char>)
    ensures r.Ok? ==> r.value.0 in {2, 4, 8, 10, 12, 16}
    ensures r.Ok? ==> r.value.1 == num || (|num| >= 2 && r.value.1 == num[2..])
  {
    if Utf8.Len(num) > 2 && num[0] == '0' then
      assert |num| >= 2 by {
        if |num| == 1 {
          Utf8.LenOfOne(num);
        }
      }
      match num[1]
      case 'b' => Ok((2, num[2..]))
      case 'q' => Ok((4, num[2..]))
      case 'o' => Ok((8, num[2..]))
      case 'z' => Ok((12, num[2..]))
      case 'x' => Ok((16, num[2..]))
      case 'd' => Ok((10, num[2..]))
      case c => if IsNumeric(std, c) || c == '.' then Ok((10, num)) else Err(c)
    else Ok((10, num))
  }

  /// `str_to_num_lit`: underscores are dropped, a trailing `i` asks for a signed
  /// value, the radix prefix is read, and a literal holding `.` is a float that
  /// must be decimal and unsigned.
  function NumLit(n: string, std: Std, loc: Option<Loc>): (r: Result<Token, Error>)
    ensures r.Ok? ==> r.value.UnsignedInteger? || r.value.SignedInteger? || r.value.Float?
    ensures r.Err? ==> r.error.loc == loc
  {
    var num0 := RemoveAll(n, '_');
    if |num0| == 0 then Err(Error(InvalidNumber(n), loc))
    else
      var signed := num0[|num0| - 1] == 'i';
      var num1 := if signed then num0[..|num0| - 1] else num0;
      if |num1| == 0 then Err(Error(InvalidNumber(n), loc))
      else match RadixPrefix(num1, std)
        case Err(c) => Err(Error(InvalidRadix(c, n), loc))
        case Ok((radix, num)) =>
          var floatLike := '.' in num;
          if floatLike && (radix != 10 || signed) then Err(Error(FloatRadix(n, radix), loc))
          else if floatLike then
            match std.parseF32(num)
            case None => Err(Error(InvalidFloat(n), loc))
            case Some(bits) => Ok(Float(bits))
          else if signed then
            match FromStrRadix(num, radix, true)
            case None => Err(Error(InvalidSigned(n, radix), loc))
            case Some(v) => Ok(SignedInteger(v, radix))
          else
            match FromStrRadix(num, radix, false)
            case None => Err(Error(InvalidUnsigned(n, radix), loc))
            case Some(v) => Ok(UnsignedInteger(v, radix))
  }

  /// The prefix that selects each radix; decimal literals need none.
  function Prefix(radix: nat): string
  {
    match radix
    case 2 => "0b"
    case 4 => "0q"
    case 8 => "0o"
    case 12 => "0z"
    case 16 => "0x"
    case _ => ""
  }

  /// The literal text of `v` in `radix`, with the `i` suffix when signed.
  function LiteralText(v: nat, radix: nat, signed: bool): string
    requires radix in {2, 4, 8, 10, 12, 16}
  {
    Prefix(radix) + Digits(v, radix) + (if signed then "i" else "")
  }

  /// Only zero is written with a leading zero digit.
  lemma {:induction false} DigitsLead(v: nat, radix: nat)
    requires 2 <= radix <= 36
    ensures Digits(v, radix)[0] == '0' ==> v == 0 && Digits(v, radix) == "0"
    decreases v
  {
    if v >= radix {
      DivShrinks(v, radix);
      DigitsLead(v / radix, radix);
    }
  }

  /// Every digit of `v` in `radix` is a digit of that radix (so none is `_`, `.`
  /// or, in radixes up to 16, the suffix `i`).
  lemma {:induction false} DigitsInRadix(v: nat, radix: nat)
    requires 2 <= radix <= 36
    ensures forall k :: 0 <= k < |Digits(v, radix)| ==>
      DigitValue(Digits(v, radix)[k]).Some? && DigitValue(Digits(v, radix)[k]).value < radix
    decreases v
  {
    DigitCharValue(v % radix);
    if v >= radix {
      DivShrinks(v, radix);
      DigitsInRadix(v / radix, radix);
    }
  }

  /// Reading the text of a value gives the value back, in its radix and with its
  /// signedness.
  lemma NumLitRoundTrip(v: nat, radix: nat, signed: bool, std: Std, loc: Option<Loc>)
    requires radix in {2, 4, 8, 10, 12, 16}
    requires if signed then v < TWO31 else v < TWO32
    ensures NumLit(LiteralText(v, radix, signed), std, loc)
      == Ok(if signed then SignedInteger(v, radix) else UnsignedInteger(v, radix))
  {
    var d := Digits(v, radix);
    var text := LiteralText(v, radix, signed);
    LiteralUnderscores(v, radix, signed);
    LiteralSuffix(v, radix, signed);
    PrefixOfLiteral(v, radix, std);
    DigitsRead(v, radix, signed);
    NumLitInteger(text, Prefix(radix) + d, radix, d, signed, std, loc);
  }

  /// A literal without underscores whose prefix and digits read as an integer
  /// of the signedness its suffix asks for is that integer.
  lemma NumLitInteger(n: string, num1: string, radix: nat, digits: string, signed: bool, std: Std, loc: Option<Loc>)
    requires 2 <= radix <= 36
    requires RemoveAll(n, '_') == n && |n| > 0 && (n[|n| - 1] == 'i' <==> signed)
    requires num1 == (if signed then n[..|n| - 1] else n) && |num1| > 0
    requires RadixPrefix(num1, std) == Ok((radix, digits)) && '.' !in digits
    requires FromStrRadix(digits, radix, signed).Some?
    ensures var v := FromStrRadix(digits, radix, signed).value;
      NumLit(n, std, loc) == Ok(if signed then SignedInteger(v, radix) else UnsignedInteger(v, radix))
  {
  }

  /// A literal's text has no underscore to drop.
  lemma LiteralUnderscores(v: nat, radix: nat, signed: bool)
    requires radix in {2, 4, 8, 10, 12, 16}
    ensures RemoveAll(LiteralText(v, radix, signed), '_') == LiteralText(v, radix, signed)
  {
    var d := Digits(v, radix);
    var text := LiteralText(v, radix, signed);
    DigitsInRadix(v, radix);
    assert forall k :: 0 <= k < |text| ==> text[k] != '_' by {
      forall k | 0 <= k < |text|
        ensures text[k] != '_'
      {
        if |Prefix(radix)| <= k < |Prefix(radix)| + |d| {
          assert text[k] == d[k - |Prefix(radix)|];
        }
      }
    }
    RemoveAllAbsent(text, '_');
  }

  /// A literal's text ends in `i` exactly when it is signed, and without that
  /// suffix it is the prefix and the digits.
  lemma LiteralSuffix(v: nat, radix: nat, signed: bool)
    requires radix in {2, 4, 8, 10, 12, 16}
    ensures var text := LiteralText(v, radix, signed);
      |text| > 0 && (text[|text| - 1] == 'i' <==> signed)
      && (signed ==> text[..|text| - 1] == Prefix(radix) + Digits(v, radix))
      && (!signed ==> text == Prefix(radix) + Digits(v, radix))
  {
    var d := Digits(v, radix);
    DigitsInRadix(v, radix);
    assert DigitValue(d[|d| - 1]).value < radix;
    assert DigitValue('i') == Some(18);
  }

  /// The prefix of a literal's text selects its radix and leaves its digits.
  lemma PrefixOfLiteral(v: nat, radix: nat, std: Std)
    requires radix in {2, 4, 8, 10, 12, 16}
    ensures RadixPrefix(Prefix(radix) + Digits(v, radix), std) == Ok((radix, Digits(v, radix)))
  {
    var d := Digits(v, radix);
    var num1 := Prefix(radix) + d;
    if radix == 10 {
      assert num1 == d;
      DigitsLead(v, radix);
      if d[0] == '0' {
        assert Utf8.Len(d) == Utf8.Width('0') + Utf8.Len(d[1..]) && d[1..] == [];
      }
    } else {
      assert num1[0] == '0' && num1[2..] == d;
      assert Utf8.Len(num1) >= |num1| > 2;
    }
  }

  /// The digits of a value in range read back as that value, signed or not.
  lemma DigitsRead(v: nat, radix: nat, signed: bool)
    requires radix in {2, 4, 8, 10, 12, 16}
    requires if signed then v < TWO31 else v < TWO32
    ensures '.' !in Digits(v, radix)
    ensures FromStrRadix(Digits(v, radix), radix, signed) == Some(v)
  {
    var d := Digits(v, radix);
    DigitsInRadix(v, radix);
    DigitsRoundTrip(v, radix);
    assert DigitValue('.').None? && DigitValue('+').None? && DigitValue('-').None?;
    assert d[0] != '+' && d[0] != '-';
  }

  // ---------------------------------------------------------------------------
  // tokenize

  /// What one pass of `tokenize`'s loop does at the front of what is left: skip
  /// `width` characters, or emit a token that spans `width` characters, or fail.
  datatype Scan = Skip(width: nat) | Emit(token: Token, width: nat) | Fail(error: Error)

  /// The step at the front of `s`: a non-ASCII character where a token would
  /// start is an error, whitespace is skipped, a digit starts a number word, a
  /// letter or `_` an identifier, `"` a string literal that must close on the
  /// line, and any other character is a `Control` token of its own.
  function Scanned(s: string, std: Std, loc: Option<Loc>): (r: Scan)
    requires |s| > 0
    ensures (r.Skip? || r.Emit?) ==> 1 <= r.width <= |s|
    ensures r.Skip? <==> IsAscii(s[0]) && Text.IsWhitespace(s[0])
    ensures r.Fail? ==> r.error.loc == loc
  {
    var c := s[0];
    if !IsAscii(c) then Fail(Error(NonAscii(c), loc))
    else if Text.IsWhitespace(c) then Skip(1)
    else if IsDigit(c) then
      var n := WordLength(s, NumberEnd(std));
      assert n >= 1 by { assert !NumberEnd(std)(s[0]); }
      match NumLit(s[..n], std, loc)
      case Err(e) => Fail(e)
      case Ok(t) => Emit(t, n)
    else if IsLetter(c) || c == '_' then
      var n := WordLength(s, IdentEnd(std));
      assert n >= 1 by { assert !IdentEnd(std)(s[0]); }
      Emit(Ident(s[..n]), n)
    else if c == '"' then
      match StringLength(s[1..], false)
      case None => Fail(Error(UnterminatedString, loc))
      case Some(n) =>
        match Unescaped(s[1..n + 1], loc)
        case Err(e) => Fail(e)
        case Ok(t) => Emit(Ascii(t), n + 2)
    else Emit(Control(c), 1)
  }

  /// The tokens of a line from position `i`: the steps repeated until the line
  /// is used up or a step fails.
  function Lex(s: string, i: nat, std: Std, loc: Option<Loc>): (r: Result<seq<Token>, Error>)
    requires i <= |s|
    decreases |s| - i, 2
  {
    if i == |s| then Ok([]) else LexAt(s, i, std, loc)
  }

  /// The tokens from a position where a step starts.
  function LexAt(s: string, i: nat, std: Std, loc: Option<Loc>): (r: Result<seq<Token>, Error>)
    requires i < |s|
    decreases |s| - i, 1
  {
    Follow(s, i, Scanned(s[i..], std, loc), std, loc)
  }

  /// What is left after `step` at position `i`: its error, or the tokens of
  /// the rest of the line with the token it emits in front.
  function Follow(s: string, i: nat, step: Scan, std: Std, loc: Option<Loc>): (r: Result<seq<Token>, Error>)
    requires i < |s| && (step.Skip? || step.Emit? ==> 1 <= step.width <= |s| - i)
    decreases |s| - i, 0
  {
    match step
    case Fail(e) => Err(e)
    case Skip(n) => Lex(s, i + n, std, loc)
    case Emit(t, n) => Prepend([t], Lex(s, i + n, std, loc))
  }

  /// `tokenize`.
  method Tokenize(s: string, std: Std, loc: Option<Loc>) returns (r: Result<seq<Token>, Error>)
    ensures r == Lex(s, 0, std, loc)
  {
    var tokens: seq<Token> := [];
    var i := 0;
    ghost var all := Lex(s, 0, std, loc);
    PrependEmpty(all);
    while i < |s|
      invariant i <= |s|
      invariant all == Prepend(tokens, Lex(s, i, std, loc))
    {
      var step := NextToken(s, i, std, loc);
      if step.Fail? {
        return Err(step.error);
      }
      if step.Emit? {
        PrependPrepend(tokens, [step.token], Lex(s, i + step.width, std, loc));
        tokens := tokens + [step.token];
      }
      i := i + step.width;
    }
    assert tokens + [] == tokens;
    r := Ok(tokens);
  }

  /// The body of `tokenize`'s loop at position `i`: the step that the
  /// specification takes there.
  method NextToken(s: string, i: nat, std: Std, loc: Option<Loc>) returns (step: Scan)
    requires i < |s|
    ensures step.Skip? || step.Emit? ==> 1 <= step.width <= |s| - i
    ensures Lex(s, i, std, loc) == Follow(s, i, step, std, loc)
  {
    var c := s[i];
    assert s[i..][0] == c;
    if !IsAscii(c) {
      step := Fail(Error(NonAscii(c), loc));
    } else if Text.IsWhitespace(c) {
      step := Skip(1);
    } else if IsDigit(c) {
      step := NumberToken(s, i, std, loc);
    } else if IsLetter(c) || c == '_' {
      var word, next := CollectWord(s, i, IdentEnd(std));
      assert word == s[i..][..next - i];
      step := Emit(Ident(word), next - i);
    } else if c == '"' {
      step := StringToken(s, i, std, loc);
    } else {
      step := Emit(Control(c), 1);
    }
  }

  /// The arm of `tokenize` for a number word: the word is collected and read
  /// as a literal.
  method NumberToken(s: string, i: nat, std: Std, loc: Option<Loc>) returns (step: Scan)
    requires i < |s| && IsDigit(s[i])
    ensures step == Scanned(s[i..], std, loc)
  {
    assert s[i..][0] == s[i];
    var word, next := CollectWord(s, i, NumberEnd(std));
    assert word == s[i..][..next - i];
    var t := NumLit(word, std, loc);
    step := if t.Err? then Fail(t.error) else Emit(t.value, next - i);
  }

  /// The arm of `tokenize` for a string literal: the body up to the closing
  /// quote, unescaped.
  method StringToken(s: string, i: nat, std: Std, loc: Option<Loc>) returns (step: Scan)
    requires i < |s| && s[i] == '"'
    ensures step == Scanned(s[i..], std, loc)
  {
    assert s[i..][0] == s[i];
    var j, text := StringBody(s, i + 1);
    assert s[i..][1..] == s[i + 1..];
    if j == |s| {
      step := Fail(Error(UnterminatedString, loc));
    } else {
      assert text == s[i..][1..j - i];
      var u := UnescapeStr(text, loc);
      step := if u.Err? then Fail(u.error) else Emit(u.value, j + 1 - i);
    }
  }

  /// The inner loop of `tokenize` over a string literal's body, from `start`:
  /// the position of the closing quote (`|s|` when there is none) and the body.
  method StringBody(s: string, start: nat) returns (j: nat, text: string)
    requires start <= |s|
    ensures start <= j <= |s|
    ensures text == s[start..j]
    ensures j == |s| <==> StringLength(s[start..], false).None?
    ensures j < |s| ==> StringLength(s[start..], false) == Some(j - start)
  {
    j := start;
    text := "";
    var escaped := false;
    while j < |s| && !(s[j] == '"' && !escaped)
      invariant start <= j <= |s|
      invariant text == s[start..j]
      invariant StringLength(s[start..], false) == Offset(StringLength(s[j..], escaped), j - start)
    {
      assert s[j..][1..] == s[j + 1..];
      escaped := if s[j] == '\\' then !escaped else false;
      text := text + [s[j]];
      j := j + 1;
    }
  }

  /// What each token can be: an identifier starts with a letter or `_`, and a
  /// `Control` token is an ASCII character that starts no other token.
  predicate Shaped(t: Token)
  {
    match t
    case Ident(name) => |name| > 0 && (IsLetter(name[0]) || name[0] == '_')
    case Control(c) =>
      IsAscii(c) && !Text.IsWhitespace(c) && !IsDigit(c) && !IsLetter(c) && c != '_' && c != '"'
    case _ => true
  }

  /// Every token a step emits has its shape.
  lemma ScannedShaped(s: string, std: Std, loc: Option<Loc>)
    requires |s| > 0 && Scanned(s, std, loc).Emit?
    ensures Shaped(Scanned(s, std, loc).token)
  {
    var c := s[0];
    if IsAscii(c) && !Text.IsWhitespace(c) && !IsDigit(c) && (IsLetter(c) || c == '_') {
      var n := WordLength(s, IdentEnd(std));
      assert !IdentEnd(std)(s[0]);
      assert s[..n][0] == c;
    }
  }

  /// Every token the tokenizer produces has its shape.
  lemma {:induction false} LexShaped(s: string, i: nat, std: Std, loc: Option<Loc>)
    requires i <= |s| && Lex(s, i, std, loc).Ok?
    ensures forall k :: 0 <= k < |Lex(s, i, std, loc).value| ==> Shaped(Lex(s, i, std, loc).value[k])
    decreases |s| - i
  {
    if i < |s| {
      var step := Scanned(s[i..], std, loc);
      assert LexAt(s, i, std, loc) == Follow(s, i, step, std, loc);
      if step.Skip? {
        LexShaped(s, i + step.width, std, loc);
      } else if step.Emit? {
        ScannedShaped(s[i..], std, loc);
        LexShaped(s, i + step.width, std, loc);
      }
    }
  }

  /// A quoted escaped string is one `Ascii` token holding the string.
  lemma StringLiteralToken(t: string, std: Std, loc: Option<Loc>)
    ensures Lex("\"" + Escaped(t) + "\"", 0, std, loc) == Ok([Ascii(t)])
  {
    ScannedString(t, std, loc);
    OneToken("\"" + Escaped(t) + "\"", Ascii(t), std, loc);
  }

  /// The first step over a quoted escaped string consumes all of it.
  lemma ScannedString(t: string, std: Std, loc: Option<Loc>)
    ensures var s := "\"" + Escaped(t) + "\"";
      Scanned(s, std, loc) == Emit(Ascii(t), |s|)
  {
    QuotedBody(t);
    UnescapeEscaped(t, loc);
  }

  /// The body of a quoted escaped string runs up to the closing quote.
  lemma QuotedBody(t: string)
    ensures var s := "\"" + Escaped(t) + "\"";
      s[0] == '"' && StringLength(s[1..], false) == Some(|Escaped(t)|)
      && s[1..|Escaped(t)| + 1] == Escaped(t)
  {
    var s := "\"" + Escaped(t) + "\"";
    var e := Escaped(t);
    assert s[1..] == e + "\"";
    StringLengthEscaped(t, "\"");
    assert StringLength("\"", false) == Some(0);
  }

  /// A line whose first step consumes all of it is that step's one token.
  lemma OneToken(s: string, t: Token, std: Std, loc: Option<Loc>)
    requires |s| > 0 && Scanned(s, std, loc) == Emit(t, |s|)
    ensures Lex(s, 0, std, loc) == Ok([t])
  {
    assert s[0..] == s;
    assert LexAt(s, 0, std, loc) == Follow(s, 0, Emit(t, |s|), std, loc);
    assert [t] + [] == [t];
  }

  /// The text of a literal, alone on a line, is the one token of its value.
  lemma LiteralToken(v: nat, radix: nat, signed: bool, std: Std, loc: Option<Loc>)
    requires radix in {2, 4, 8, 10, 12, 16}
    requires if signed then v < TWO31 else v < TWO32
    ensures Lex(LiteralText(v, radix, signed), 0, std, loc)
      == Ok([if signed then SignedInteger(v, radix) else UnsignedInteger(v, radix)])
  {
    ScannedLiteral(v, radix, signed, std, loc);
    OneToken(LiteralText(v, radix, signed), if signed then SignedInteger(v, radix) else UnsignedInteger(v, radix), std, loc);
  }

  /// The first step over a literal's text consumes all of it and emits its token.
  lemma ScannedLiteral(v: nat, radix: nat, signed: bool, std: Std, loc: Option<Loc>)
    requires radix in {2, 4, 8, 10, 12, 16}
    requires if signed then v < TWO31 else v < TWO32
    ensures var s := LiteralText(v, radix, signed);
      |s| > 0 && Scanned(s, std, loc)
        == Emit(if signed then SignedInteger(v, radix) else UnsignedInteger(v, radix), |s|)
  {
    var s := LiteralText(v, radix, signed);
    LiteralWord(v, radix, signed, std);
    assert s[..|s|] == s;
    NumLitRoundTrip(v, radix, signed, std, loc);
  }

  /// A literal's text is one number word, starting with a digit.
  lemma LiteralWord(v: nat, radix: nat, signed: bool, std: Std)
    requires radix in {2, 4, 8, 10, 12, 16}
    ensures var s := LiteralText(v, radix, signed);
      IsDigit(s[0]) && WordLength(s, NumberEnd(std)) == |s|
  {
    var s := LiteralText(v, radix, signed);
    var d := Digits(v, radix);
    var p := Prefix(radix);
    DigitsInRadix(v, radix);
    assert forall k :: 0 <= k < |s| ==> !NumberEnd(std)(s[k]) by {
      forall k | 0 <= k < |s|
        ensures IsDigit(s[k]) || IsLetter(s[k])
      {
        if |p| <= k < |p| + |d| {
          assert s[k] == d[k - |p|];
        }
      }
    }
    WholeWord(s, NumberEnd(std));
    if radix == 10 {
      assert s[0] == d[0];
    }
  }

  lemma {:induction false} WholeWord(s: string, check: char -> bool)
    requires forall k :: 0 <= k < |s| ==> !check(s[k])
    ensures WordLength(s, check) == |s|
  {
    if |s| > 0 {
      WholeWord(s[1..], check);
    }
  }

  // ---------------------------------------------------------------------------
  // read_lines and tokenize_lines

  predicate HasComment(s: string)
  {
    exists k :: 0 <= k < |s| - 1 && s[k] == '/' && s[k + 1] == '/'
  }

  /// The part of a line before its first `//`.
  function CutComment(s: string): (r: string)
    ensures r <= s
    ensures !HasComment(r)
    ensures |r| < |s| ==> |r| + 2 <= |s| && s[|r|] == '/' && s[|r| + 1] == '/'
  {
    if |s| < 2 then s
    else if s[0] == '/' && s[1] == '/' then ""
    else
      var rest := CutComment(s[1..]);
      assert |rest| > 0 ==> rest[0] == s[1];
      assert !HasComment([s[0]] + rest) by {
        var r := [s[0]] + rest;
        forall k | 0 <= k < |r| - 1
          ensures !(r[k] == '/' && r[k + 1] == '/')
        {
          if k > 0 {
            assert r[k] == rest[k - 1] && r[k + 1] == rest[k];
          }
        }
      }
      [s[0]] + rest
  }

  /// Cutting away whitespace from either end makes no comment.
  lemma {:induction false} TrimKeepsNoComment(s: string)
    requires !HasComment(s)
    ensures !HasComment(Text.Trim(s))
  {
    var t := Text.TrimStart(s);
    TrimStartSuffix(s);
    assert !HasComment(t) by {
      var d := |s| - |t|;
      forall k | 0 <= k < |t| - 1
        ensures !(t[k] == '/' && t[k + 1] == '/')
      {
        assert t[k] == s[k + d] && t[k + 1] == s[k + 1 + d];
      }
    }
    TrimEndPrefix(t);
  }

  lemma {:induction false} TrimStartSuffix(s: string)
    ensures Text.TrimStart(s) == s[|s| - |Text.TrimStart(s)|..]
  {
    if |s| > 0 && Text.IsWhitespace(s[0]) {
      TrimStartSuffix(s[1..]);
    }
  }

  lemma {:induction false} TrimEndPrefix(s: string)
    requires !HasComment(s)
    ensures !HasComment(Text.TrimEnd(s))
  {
    if |s| > 0 && Text.IsWhitespace(s[|s| - 1]) {
      var p := s[..|s| - 1];
      assert !HasComment(p) by {
        forall k | 0 <= k < |p| - 1
          ensures !(p[k] == '/' && p[k + 1] == '/')
        {
          assert p[k] == s[k] && p[k + 1] == s[k + 1];
        }
      }
      TrimEndPrefix(p);
    }
  }

  /// The pieces of `s` between separators hold no separator.
  lemma {:induction false} SplitPieces(s: string, sep: char)
    ensures forall k :: 0 <= k < |Text.Split(s, sep)| ==> sep !in Text.Split(s, sep)[k]
    decreases |s|
  {
    match Text.IndexOf(s, sep)
    case None =>
    case Some(i) => SplitPieces(s[i + 1..], sep);
  }

  /// `read_lines` on the text of a file: one line per `\n`-separated piece,
  /// numbered from zero, each cut at its first `//` and trimmed.
  method ReadLines(raw: string) returns (lines: seq<(Loc, string)>)
    ensures |lines| == |Text.Split(raw, '\n')|
    ensures forall k :: 0 <= k < |lines| ==>
      lines[k].0 == k && lines[k].1 == Text.Trim(CutComment(Text.Split(raw, '\n')[k]))
    ensures forall k :: 0 <= k < |lines| ==>
      '\n' !in lines[k].1 && !HasComment(lines[k].1)
      && (|lines[k].1| > 0 ==> !Text.IsWhitespace(lines[k].1[0]) && !Text.IsWhitespace(lines[k].1[|lines[k].1| - 1]))
  {
    var pieces := Text.Split(raw, '\n');
    SplitPieces(raw, '\n');
    lines := [];
    for i := 0 to |pieces|
      invariant |lines| == i
      invariant forall k :: 0 <= k < i ==>
        lines[k].0 == k && lines[k].1 == Text.Trim(CutComment(pieces[k]))
      invariant forall k :: 0 <= k < i ==> '\n' !in lines[k].1 && !HasComment(lines[k].1)
    {
      var cut := CutComment(pieces[i]);
      var line := Text.Trim(cut);
      TrimKeepsNoComment(cut);
      TrimInside(cut);
      lines := lines + [(i, line)];
    }
  }

  /// Trimming keeps only characters of the original.
  lemma TrimInside(s: string)
    ensures forall c :: c in Text.Trim(s) ==> c in s
  {
    TrimStartSuffix(s);
    TrimEndSub(Text.TrimStart(s));
  }

  lemma {:induction false} TrimEndSub(s: string)
    ensures Text.TrimEnd(s) <= s
  {
    if |s| > 0 && Text.IsWhitespace(s[|s| - 1]) {
      TrimEndSub(s[..|s| - 1]);
    }
  }

  /// `tokenize_lines` read from the front: every line's tokens, lines without
  /// tokens left out, the first error ending it.
  function LexLines(lines: seq<(Loc, string)>, std: Std): (r: Result<seq<(Loc, seq<Token>)>, Error>)
  {
    if |lines| == 0 then Ok([])
    else match Lex(lines[0].1, 0, std, Some(lines[0].0))
      case Err(e) => Err(e)
      case Ok(ts) =>
        if |ts| == 0 then LexLines(lines[1..], std)
        else Prepend([(lines[0].0, ts)], LexLines(lines[1..], std))
  }

  /// `tokenize_lines`.
  method TokenizeLines(lines: seq<(Loc, string)>, std: Std) returns (r: Result<seq<(Loc, seq<Token>)>, Error>)
    ensures r == LexLines(lines, std)
  {
    var tokens: seq<(Loc, seq<Token>)> := [];
    PrependEmpty(LexLines(lines, std));
    for i := 0 to |lines|
      invariant LexLines(lines, std) == Prepend(tokens, LexLines(lines[i..], std))
    {
      assert lines[i..][0] == lines[i] && lines[i..][1..] == lines[i + 1..];
      var t := Tokenize(lines[i].1, std, Some(lines[i].0));
      if t.Err? {
        return Err(t.error);
      }
      if |t.value| == 0 {
        continue;
      }
      PrependPrepend(tokens, [(lines[i].0, t.value)], LexLines(lines[i + 1..], std));
      tokens := tokens + [(lines[i].0, t.value)];
    }
    assert lines[|lines|..] == [] && tokens + [] == tokens;
    r := Ok(tokens);
  }

  /// The tokenized lines keep their positions in order, and none is empty.
  lemma {:induction false} LexLinesShape(lines: seq<(Loc, string)>, std: Std)
    requires LexLines(lines, std).Ok?
    ensures forall k :: 0 <= k < |LexLines(lines, std).value| ==>
      |LexLines(lines, std).value[k].1| > 0
      && (exists j :: 0 <= j < |lines| && lines[j].0 == LexLines(lines, std).value[k].0
           && Lex(lines[j].1, 0, std, Some(lines[j].0)) == Ok(LexLines(lines, std).value[k].1))
  {
    if |lines| > 0 {
      LexLinesShape(lines[1..], std);
      var out := LexLines(lines, std).value;
      var rest := LexLines(lines[1..], std).value;
      forall k | 0 <= k < |out|
        ensures |out[k].1| > 0
          && (exists j :: 0 <= j < |lines| && lines[j].0 == out[k].0
               && Lex(lines[j].1, 0, std, Some(lines[j].0)) == Ok(out[k].1))
      {
        var ts := Lex(lines[0].1, 0, std, Some(lines[0].0)).value;
        if |ts| > 0 && k == 0 {
          assert lines[0].0 == out[k].0;
        } else {
          var k' := if |ts| > 0 then k - 1 else k;
          assert out[k] == rest[k'];
          var j :| 0 <= j < |lines[1..]| && lines[1..][j].0 == rest[k'].0
            && Lex(lines[1..][j].1, 0, std, Some(lines[1..][j].0)) == Ok(rest[k'].1);
          assert lines[j + 1] == lines[1..][j];
        }
      }
    }
  }
}
