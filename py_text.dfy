/// The Python string operations the two Python assemblers rely on: `str.strip`,
/// `str.split()` on whitespace, single-character `str.replace`, and the UTF-8
/// encoding behind `str.encode('utf-8')`.
module PyText {
  import opened Bits
  import opened SeqFacts

  /// `str.isspace` for one character: the characters Python counts as whitespace.
  predicate IsSpace(c: char)
  {
    c == ' ' || '\t' <= c <= '\r' || '\U{001C}' <= c <= '\U{001F}' || c == '\U{0085}'
    || c == '\U{00A0}' || c == '\U{1680}' || '\U{2000}' <= c <= '\U{200A}' || c == '\U{2028}'
    || c == '\U{2029}' || c == '\U{202F}' || c == '\U{205F}' || c == '\U{3000}'
  }

  function StripStart(s: string): (r: string)
    ensures |r| <= |s| && r == s[|s| - |r|..]
    ensures |r| > 0 ==> !IsSpace(r[0])
    ensures forall i :: 0 <= i < |s| - |r| ==> IsSpace(s[i])
  {
    if |s| > 0 && IsSpace(s[0]) then StripStart(s[1..]) else s
  }

  function StripEnd(s: string): (r: string)
    ensures |r| <= |s| && r == s[..|r|]
    ensures |r| > 0 ==> !IsSpace(r[|r| - 1])
    ensures forall i :: |r| <= i < |s| ==> IsSpace(s[i])
  {
    if |s| > 0 && IsSpace(s[|s| - 1]) then StripEnd(s[..|s| - 1]) else s
  }

  /// `str.strip()`: `s` without its leading and trailing whitespace.
  function Strip(s: string): (r: string)
    ensures |r| <= |s|
    ensures |r| > 0 ==> !IsSpace(r[0]) && !IsSpace(r[|r| - 1])
  {
    var t := StripStart(s);
    var r := StripEnd(t);
    assert |r| > 0 ==> r[0] == t[0];
    r
  }

  /// `strip()` removes exactly the leading and the trailing whitespace: the
  /// result is the text between them.
  lemma StripTrims(s: string)
    ensures Trimmed(s, |s| - |StripStart(s)|, Strip(s))
  {
    var t := StripStart(s);
    assert Strip(s) == StripEnd(t);
    TrimmedBetween(s, t, StripEnd(t));
  }

  /// A suffix after whitespace, cut before trailing whitespace, is trimmed.
  lemma TrimmedBetween(s: string, t: string, r: string)
    requires |t| <= |s| && t == s[|s| - |t|..]
    requires forall k :: 0 <= k < |s| - |t| ==> IsSpace(s[k])
    requires |r| <= |t| && r == t[..|r|]
    requires forall k :: |r| <= k < |t| ==> IsSpace(t[k])
    ensures Trimmed(s, |s| - |t|, r)
  {
    var i := |s| - |t|;
    forall k | i + |r| <= k < |s|
      ensures IsSpace(s[k])
    {
      assert s[k] == t[k - i];
    }
  }

  /// `r` is `s` from position `i` on, with nothing but whitespace cut off before
  /// `i` and after `r`.
  predicate Trimmed(s: string, i: nat, r: string)
  {
    && i + |r| <= |s| && r == s[i..i + |r|]
    && (forall k :: 0 <= k < i ==> IsSpace(s[k]))
    && (forall k :: i + |r| <= k < |s| ==> IsSpace(s[k]))
  }

  /// A string that starts and ends with a non-space character strips to itself.
  lemma StripPlain(s: string)
    requires |s| > 0 ==> !IsSpace(s[0]) && !IsSpace(s[|s| - 1])
    ensures Strip(s) == s
  {
  }

  /// Stripping twice strips nothing more.
  lemma StripIdempotent(s: string)
    ensures Strip(Strip(s)) == Strip(s)
  {
    StripPlain(Strip(s));
  }

  /// `str.replace(c, t)` for a one-character pattern.
  function Replace(s: string, c: char, t: string): (r: string)
    ensures c !in t ==> c !in r
    ensures forall x :: x in r ==> x in s || x in t
  {
    if |s| == 0 then []
    else (if s[0] == c then t else [s[0]]) + Replace(s[1..], c, t)
  }

  /// Replacing distributes over concatenation: each character of the text is
  /// replaced on its own, in order.
  lemma {:induction false} ReplaceAppend(a: string, b: string, c: char, t: string)
    ensures Replace(a + b, c, t) == Replace(a, c, t) + Replace(b, c, t)
  {
    if |a| > 0 {
      assert (a + b)[0] == a[0] && (a + b)[1..] == a[1..] + b;
      ReplaceAppend(a[1..], b, c, t);
    } else {
      assert a + b == b;
    }
  }

  /// Replacing a character that does not occur changes nothing.
  lemma {:induction false} ReplaceAbsent(s: string, c: char, t: string)
    requires c !in s
    ensures Replace(s, c, t) == s
  {
    if |s| > 0 {
      ReplaceAbsent(s[1..], c, t);
    }
  }

  /// `str.split()` with no separator: the maximal runs of non-space characters.
  function Words(s: string): (r: seq<string>)
    ensures forall i :: 0 <= i < |r| ==> IsWord(r[i])
    decreases |s|
  {
    var t := StripStart(s);
    if |t| == 0 then []
    else
      var w := WordPrefix(t);
      assert IsWord(w);
      var ws := Words(t[|w|..]);
      assert forall i :: 0 <= i < |[w] + ws| ==> IsWord(([w] + ws)[i]) by { AllWordsCons(w, ws); }
      [w] + ws
  }

  /// The words written one after another.
  function Concat(ws: seq<string>): string
  {
    if |ws| == 0 then [] else ws[0] + Concat(ws[1..])
  }

  /// The characters of `s` that are not whitespace, in order.
  function NonSpace(s: string): string
  {
    if |s| == 0 then [] else (if IsSpace(s[0]) then [] else [s[0]]) + NonSpace(s[1..])
  }

  lemma {:induction false} NonSpaceStripStart(s: string)
    ensures NonSpace(StripStart(s)) == NonSpace(s)
  {
    if |s| > 0 && IsSpace(s[0]) {
      NonSpaceStripStart(s[1..]);
    }
  }

  lemma {:induction false} NonSpaceWord(w: string, rest: string)
    requires forall j :: 0 <= j < |w| ==> !IsSpace(w[j])
    ensures NonSpace(w + rest) == w + NonSpace(rest)
  {
    if |w| > 0 {
      assert (w + rest)[0] == w[0] && (w + rest)[1..] == w[1..] + rest;
      NonSpaceWord(w[1..], rest);
      assert [w[0]] + w[1..] == w;
    } else {
      assert w + rest == rest;
    }
  }

  /// The words hold every non-space character of the text, in order: `split()`
  /// only drops whitespace.
  lemma {:induction false} WordsKeepText(s: string)
    ensures Concat(Words(s)) == NonSpace(s)
    decreases |s|
  {
    var t := StripStart(s);
    NonSpaceStripStart(s);
    WordsUnfold(s);
    if |t| > 0 {
      var w := WordPrefix(t);
      var rest := t[|w|..];
      WordsKeepText(rest);
      KeepFirstWord(t, Words(rest));
    }
  }

  /// The first word and the words after it hold what the text holds.
  lemma KeepFirstWord(t: string, ws: seq<string>)
    requires |t| > 0
    requires Concat(ws) == NonSpace(t[|WordPrefix(t)|..])
    ensures Concat([WordPrefix(t)] + ws) == NonSpace(t)
  {
    var w := WordPrefix(t);
    var rest := t[|w|..];
    assert t == w + rest;
    ConcatCons(w, ws);
    NonSpaceWord(w, rest);
  }

  /// One step of `split()`: the text's first word, then the words after it.
  lemma WordsUnfold(s: string)
    ensures var t := StripStart(s); var w := WordPrefix(t);
      Words(s) == if |t| == 0 then [] else [w] + Words(t[|w|..])
  {
  }

  lemma ConcatCons(w: string, ws: seq<string>)
    ensures Concat([w] + ws) == w + Concat(ws)
  {
    assert ([w] + ws)[1..] == ws;
  }

  lemma AllWordsCons(w: string, ws: seq<string>)
    requires IsWord(w) && forall i :: 0 <= i < |ws| ==> IsWord(ws[i])
    ensures forall i :: 0 <= i < |[w] + ws| ==> IsWord(([w] + ws)[i])
  {
  }

  /// The longest prefix of `s` without whitespace.
  function WordPrefix(s: string): (r: string)
    ensures |r| <= |s| && r == s[..|r|]
    ensures forall j :: 0 <= j < |r| ==> !IsSpace(r[j])
    ensures |r| < |s| ==> IsSpace(s[|r|])
    ensures |s| > 0 && !IsSpace(s[0]) ==> |r| > 0
  {
    if |s| == 0 || IsSpace(s[0]) then [] else [s[0]] + WordPrefix(s[1..])
  }

  /// Words joined by single spaces.
  function SpaceJoin(ws: seq<string>): string
  {
    if |ws| == 0 then [] else if |ws| == 1 then ws[0] else ws[0] + (" " + SpaceJoin(ws[1..]))
  }

  predicate IsWord(w: string)
  {
    |w| > 0 && forall j :: 0 <= j < |w| ==> !IsSpace(w[j])
  }

  lemma {:induction false} WordPrefixOfWord(w: string, rest: string)
    requires forall j :: 0 <= j < |w| ==> !IsSpace(w[j])
    requires |rest| > 0 ==> IsSpace(rest[0])
    ensures WordPrefix(w + rest) == w
  {
    if |w| > 0 {
      assert (w + rest)[1..] == w[1..] + rest;
      WordPrefixOfWord(w[1..], rest);
    }
  }

  /// A word followed by nothing or by whitespace is split off as the first word.
  lemma WordsCons(w: string, rest: string)
    requires IsWord(w)
    requires |rest| > 0 ==> IsSpace(rest[0])
    ensures Words(w + rest) == [w] + Words(rest)
  {
    var s := w + rest;
    assert StripStart(s) == s;
    WordPrefixOfWord(w, rest);
    assert s[|w|..] == rest;
  }

  /// Leading whitespace of any length does not change the words.
  lemma {:induction false} WordsSkipSpaces(sp: string, s: string)
    requires forall i :: 0 <= i < |sp| ==> IsSpace(sp[i])
    ensures Words(sp + s) == Words(s)
    decreases |sp|
  {
    if |sp| > 0 {
      assert (sp + s)[1..] == sp[1..] + s;
      assert StripStart(sp + s) == StripStart(sp[1..] + s);
      WordsUnfold(sp + s);
      WordsUnfold(sp[1..] + s);
      WordsSkipSpaces(sp[1..], s);
    } else {
      assert sp + s == s;
    }
  }

  /// A word after any run of whitespace, and before whitespace or the end of
  /// the text, is the next element of `split()`.
  lemma WordsSplitOff(sp: string, w: string, rest: string)
    requires forall i :: 0 <= i < |sp| ==> IsSpace(sp[i])
    requires IsWord(w)
    requires |rest| > 0 ==> IsSpace(rest[0])
    ensures Words(sp + w + rest) == [w] + Words(rest)
  {
    assert sp + w + rest == sp + (w + rest);
    WordsSkipSpaces(sp, w + rest);
    WordsCons(w, rest);
  }

  lemma WordsSkipSpace(s: string)
    ensures Words(" " + s) == Words(s)
  {
    assert (" " + s)[1..] == s;
    assert StripStart(" " + s) == StripStart(s);
    WordsUnfold(" " + s);
    WordsUnfold(s);
  }

  lemma JoinOne(w: string)
    requires IsWord(w)
    ensures Words(SpaceJoin([w])) == [w]
  {
    WordsCons(w, []);
    assert w + [] == w;
  }

  lemma JoinMore(ws: seq<string>)
    requires |ws| > 1 && IsWord(ws[0])
    requires Words(SpaceJoin(ws[1..])) == ws[1..]
    ensures Words(SpaceJoin(ws)) == ws
  {
    var rest := SpaceJoin(ws[1..]);
    var tail := " " + rest;
    assert SpaceJoin(ws) == ws[0] + tail;
    assert tail[0] == ' ' && IsSpace(tail[0]);
    WordsCons(ws[0], tail);
    WordsSkipSpace(rest);
    assert Words(tail) == ws[1..];
    HeadTail(ws);
  }

  /// Splitting words written out with single spaces gives the words back.
  lemma {:induction false} WordsOfSpaceJoin(ws: seq<string>)
    requires forall i :: 0 <= i < |ws| ==> IsWord(ws[i])
    ensures Words(SpaceJoin(ws)) == ws
  {
    if |ws| == 1 {
      JoinOne(ws[0]);
    } else if |ws| > 1 {
      WordsOfSpaceJoin(ws[1..]);
      JoinMore(ws);
    }
  }

  // ---------------------------------------------------------------------------
  // str.encode('utf-8')

  /// The UTF-8 bytes of one character.
  function Utf8Char(c: char): (r: seq<u8>)
    ensures 1 <= |r| <= 4
    ensures |r| == 1 <==> (c as int) < 0x80
    ensures forall k :: 1 <= k < |r| ==> 0x80 <= r[k] < 0xC0
  {
    var v := c as int;
    if v < 0x80 then [v]
    else if v < 0x800 then [0xC0 + v / 0x40, 0x80 + v % 0x40]
    else if v < 0x1_0000 then [0xE0 + v / 0x1000, 0x80 + (v / 0x40) % 0x40, 0x80 + v % 0x40]
    else [0xF0 + v / 0x4_0000, 0x80 + (v / 0x1000) % 0x40, 0x80 + (v / 0x40) % 0x40, 0x80 + v % 0x40]
  }

  /// The code point a UTF-8 sequence of one to four bytes spells: the payload bits of
  /// the lead byte followed by six bits from each continuation byte.
  function Utf8Value(b: seq<u8>): int
    requires 1 <= |b| <= 4
  {
    var b0 := b[0] as int;
    if |b| == 1 then b0
    else if |b| == 2 then (b0 - 0xC0) * 0x40 + (b[1] as int - 0x80)
    else if |b| == 3 then ((b0 - 0xE0) * 0x40 + (b[1] as int - 0x80)) * 0x40 + (b[2] as int - 0x80)
    else (((b0 - 0xF0) * 0x40 + (b[1] as int - 0x80)) * 0x40 + (b[2] as int - 0x80)) * 0x40 + (b[3] as int - 0x80)
  }

  /// Each character's bytes spell its code point back.
  lemma Utf8CharValue(c: char)
    ensures Utf8Value(Utf8Char(c)) == c as int
  {
    var v := c as int;
    var q1 := v / 0x40;
    var q2 := q1 / 0x40;
    var q3 := q2 / 0x40;
    assert v == q1 * 0x40 + v % 0x40;
    assert q1 == q2 * 0x40 + q1 % 0x40;
    assert q2 == q3 * 0x40 + q2 % 0x40;
    assert v / 0x1000 == q2 && v / 0x4_0000 == q3;
  }

  /// `s.encode('utf-8')`.
  function Utf8(s: string): (r: seq<u8>)
    ensures |r| >= |s|
  {
    if |s| == 0 then [] else Utf8Char(s[0]) + Utf8(s[1..])
  }

  /// Text made of ASCII characters encodes to one byte per character, its code.
  lemma {:induction false} Utf8Ascii(s: string)
    requires forall i :: 0 <= i < |s| ==> (s[i] as int) < 0x80
    ensures |Utf8(s)| == |s|
    ensures forall i :: 0 <= i < |s| ==> Utf8(s)[i] == s[i] as int
  {
    if |s| > 0 {
      Utf8Ascii(s[1..]);
    }
  }
}
