/// The layout pass of the older Python assembler (assembler/assembler.py): each
/// source line moves the byte position, binds a label, or records a data or
/// instruction entry at the current position.
///
/// Python's `eval` of position and data expressions runs against the live label
/// namespace; it is a parameter here, `None` standing for an exception.
module PyLayout {
  import opened Wrappers
  import opened Bits
  import opened PyText
  import Text

  // ---------------------------------------------------------------------------
  // parse_var_name

  /// A character class such as Python's `str.isalnum`, which holds for every
  /// Unicode letter and digit; it is a parameter of the layout pass.
  type CharClass = char -> bool

  /// What the layout pass relies on about `isalnum`: ASCII letters and digits are
  /// alphanumeric; whitespace, `:`, `$` and `.` are not.
  predicate AlnumLike(alnum: CharClass)
  {
    && (forall c :: ('a' <= c <= 'z' || 'A' <= c <= 'Z' || '0' <= c <= '9') ==> alnum(c))
    && (forall c :: IsSpace(c) ==> !alnum(c))
    && !alnum(':') && !alnum('$') && !alnum('.')
  }

  /// A character `parse_var_name` takes into a name: `isalnum()` or `_`.
  predicate IsNameChar(alnum: CharClass, c: char)
  {
    alnum(c) || c == '_'
  }

  /// `s` split into (what follows the name, the longest leading run of name characters).
  function NameSplit(alnum: CharClass, s: string): (r: (string, string))
    ensures r.1 + r.0 == s
    ensures forall i :: 0 <= i < |r.1| ==> IsNameChar(alnum, r.1[i])
    ensures |r.0| > 0 ==> !IsNameChar(alnum, r.0[0])
  {
    if |s| > 0 && IsNameChar(alnum, s[0]) then
      var (rest, name) := NameSplit(alnum, s[1..]);
      (rest, [s[0]] + name)
    else (s, [])
  }

  /// The name and the rest are determined by the three properties of `NameSplit`.
  lemma {:induction false} NameSplitUnique(alnum: CharClass, s: string, rest: string, name: string)
    requires name + rest == s
    requires forall i :: 0 <= i < |name| ==> IsNameChar(alnum, name[i])
    requires |rest| > 0 ==> !IsNameChar(alnum, rest[0])
    ensures NameSplit(alnum, s) == (rest, name)
  {
    if |name| > 0 {
      assert s[0] == name[0];
      assert s[1..] == name[1..] + rest;
      NameSplitUnique(alnum, s[1..], rest, name[1..]);
      assert [s[0]] + name[1..] == name;
    } else {
      assert s == rest;
    }
  }

  lemma NameSplitStep(alnum: CharClass, s: string)
    requires |s| > 0 && IsNameChar(alnum, s[0])
    ensures NameSplit(alnum, s) == (NameSplit(alnum, s[1..]).0, [s[0]] + NameSplit(alnum, s[1..]).1)
  {
  }

  /// `parse_var_name`: strips `line`, then moves leading name characters into `name`
  /// one at a time.
  method ParseVarName(alnum: CharClass, line: string) returns (rest: string, name: string)
    ensures (rest, name) == NameSplit(alnum, Strip(line))
  {
    rest := Strip(line);
    name := "";
    assert name + NameSplit(alnum, rest).1 == NameSplit(alnum, rest).1;
    while |rest| > 0 && IsNameChar(alnum, rest[0])
      invariant NameSplit(alnum, Strip(line)) == (NameSplit(alnum, rest).0, name + NameSplit(alnum, rest).1)
      decreases |rest|
    {
      NameSplitStep(alnum, rest);
      assert name + ([rest[0]] + NameSplit(alnum, rest[1..]).1) == (name + [rest[0]]) + NameSplit(alnum, rest[1..]).1;
      name := name + [rest[0]];
      rest := rest[1..];
    }
    assert name + NameSplit(alnum, rest).1 == name;
  }

  // ---------------------------------------------------------------------------
  // Entries and the layout state

  /// What Python's `eval` can hand back, as far as the layout pass cares.
  /// `PySized` is any other object `len` accepts (a list, a tuple, a bytearray), by
  /// its length.
  datatype PyValue = PyInt(i: int) | PyStr(s: string) | PyBytes(b: seq<u8>) | PySized(len: nat) | PyOther

  /// `eval(expr, vars, vars)` with the labels bound so far; `None` is an exception.
  type Eval = (string, map<string, int>) -> Option<PyValue>

  datatype DataType = Str | Bytes | U32 | I32 | U8 | I8

  function TypeName(t: DataType): string
  {
    match t
    case Str => "str"
    case Bytes => "bytes"
    case U32 => "u32"
    case I32 => "i32"
    case U8 => "u8"
    case I8 => "i8"
  }

  /// The data type a `.name` line names, if it is one of the six.
  function TypeNamed(name: string): (r: Option<DataType>)
  {
    if name == "str" then Some(Str)
    else if name == "bytes" then Some(Bytes)
    else if name == "u32" then Some(U32)
    else if name == "i32" then Some(I32)
    else if name == "u8" then Some(U8)
    else if name == "i8" then Some(I8)
    else None
  }

  /// Exactly the six type names are accepted, each for its own type.
  lemma TypeNamedInverse(name: string, t: DataType)
    ensures TypeNamed(name) == Some(t) <==> name == TypeName(t)
  {
  }

  /// The bytes a fixed-width type takes: 4 for `u32`/`i32`, 1 for `u8`/`i8`.
  function FixedSize(t: DataType): nat
  {
    match t
    case U32 | I32 => 4
    case U8 | I8 => 1
    case Str | Bytes => 0
  }

  /// An entry's data: bytes already computed (`str` and `bytes`), a Python string
  /// given to `.bytes` (counted by `len`, one per character), any other object with
  /// a length given to `.bytes`, or the expression of a fixed-width value, whose
  /// evaluation the source defers.
  datatype Payload = Encoded(bytes: seq<u8>) | Chars(text: string) | Counted(len: nat) | Deferred(expr: string)

  datatype Entry =
    | Data(pos: int, ty: DataType, payload: Payload)
    | Instruction(pos: int, name: string, args: string)

  /// The bytes an entry advances the position by; instructions take none.
  function EntrySize(e: Entry): nat
  {
    match e
    case Instruction(_, _, _) => 0
    case Data(_, t, p) =>
      match p
      case Encoded(b) => |b|
      case Chars(s) => |s|
      case Counted(n) => n
      case Deferred(_) => FixedSize(t)
  }

  datatype Layout = Layout(entries: seq<Entry>, bytePos: int, labels: map<string, int>)

  const START := Layout([], 0, map[])

  datatype Reason = PositionBehind | MissingType | UnknownType | BadLineStart | LabelInUse | EvalFailed

  /// The failure `error(file, l, ...)` reports, with the 0-based line index.
  datatype LayoutError = LayoutError(line: nat, reason: Reason)

  /// `text.replace('@', 'label_')`: `@name` refers to the label `name`.
  function Substitute(text: string): (r: string)
    ensures '@' !in r
    ensures '@' !in text ==> r == text
  {
    ReplaceAbsentWhenMissing(text);
    Replace(text, '@', "label_")
  }

  lemma ReplaceAbsentWhenMissing(text: string)
    ensures '@' !in text ==> Replace(text, '@', "label_") == text
  {
    if '@' !in text {
      ReplaceAbsent(text, '@', "label_");
    }
  }

  /// The first `@` becomes `label_`, the text before it is kept, and the rest is
  /// substituted in turn.
  lemma SubstituteAt(before: string, after: string)
    requires '@' !in before
    ensures Substitute(before + "@" + after) == before + "label_" + Substitute(after)
  {
    ReplaceAppend(before + "@", after, '@', "label_");
    ReplaceAppend(before, "@", '@', "label_");
    ReplaceAbsent(before, '@', "label_");
    assert Replace("@", '@', "label_") == "label_" + Replace([], '@', "label_");
  }

  // ---------------------------------------------------------------------------
  // parse

  /// One source line of `parse`. `funcs` are the names `asm_funcs` brings into the
  /// namespace, which a label may not reuse either.
  function LineStep(st: Layout, l: nat, raw: string, eval: Eval, alnum: CharClass, funcs: set<string>): (r: Result<Layout, LayoutError>)
  {
    var line := Strip(raw);
    if |line| == 0 then Ok(st)
    else if line[0] == '$' then PositionStep(st, l, line[1..], eval)
    else if line[0] == '.' then DataLine(st, l, line[1..], eval, alnum)
    else NameLine(st, l, line, alnum, funcs)
  }

  /// `$expr`: the position jumps forward to the value of `expr`.
  function PositionStep(st: Layout, l: nat, expr: string, eval: Eval): (r: Result<Layout, LayoutError>)
  {
    match eval(Substitute(expr), st.labels)
    case Some(PyInt(pos)) =>
      if st.bytePos > pos then Err(LayoutError(l, PositionBehind)) else Ok(st.(bytePos := pos))
    case _ => Err(LayoutError(l, EvalFailed))
  }

  /// `.type expr`, given the text after the dot.
  function DataLine(st: Layout, l: nat, text: string, eval: Eval, alnum: CharClass): (r: Result<Layout, LayoutError>)
  {
    var (rest, ty) := NameSplit(alnum, Strip(text));
    if |ty| == 0 then Err(LayoutError(l, MissingType))
    else match TypeNamed(ty)
      case None => Err(LayoutError(l, UnknownType))
      case Some(t) => DataStep(st, l, t, rest, eval)
  }

  /// A line starting with a name: `name:` binds a label, anything else is an
  /// instruction recorded at the current position.
  function NameLine(st: Layout, l: nat, line: string, alnum: CharClass, funcs: set<string>): (r: Result<Layout, LayoutError>)
  {
    var (rest, ident) := NameSplit(alnum, Strip(line));
    if |ident| == 0 then Err(LayoutError(l, BadLineStart))
    else
      var args := Strip(rest);
      if |args| > 0 && args[0] == ':' then
        var key := "label_" + ident;
        if key in st.labels || key in funcs then Err(LayoutError(l, LabelInUse))
        else Ok(st.(labels := st.labels[key := st.bytePos]))
      else Ok(st.(entries := st.entries + [Instruction(st.bytePos, ident, args)]))
  }

  /// A `.type expr` line: one entry at the current position, which then moves past it.
  function DataStep(st: Layout, l: nat, t: DataType, expr: string, eval: Eval): (r: Result<Layout, LayoutError>)
  {
    var entry :=
      match t
      case Str =>
        (match eval(Substitute(expr), st.labels)
         case Some(PyStr(s)) => Some(Data(st.bytePos, t, Encoded(Utf8(s))))
         case _ => None)
      case Bytes =>
        (match eval(Substitute(expr), st.labels)
         case Some(PyBytes(b)) => Some(Data(st.bytePos, t, Encoded(b)))
         case Some(PyStr(s)) => Some(Data(st.bytePos, t, Chars(s)))
         case Some(PySized(n)) => Some(Data(st.bytePos, t, Counted(n)))
         case _ => None)
      case _ => Some(Data(st.bytePos, t, Deferred(expr)));
    match entry
    case None => Err(LayoutError(l, EvalFailed))
    case Some(e) => Ok(Layout(st.entries + [e], st.bytePos + EntrySize(e), st.labels))
  }

  /// The lines from index `l` on, each applied to the state the previous one left.
  function LinesFrom(st: Layout, lines: seq<string>, l: nat, eval: Eval, alnum: CharClass, funcs: set<string>): (r: Result<Layout, LayoutError>)
    decreases |lines|
  {
    if |lines| == 0 then Ok(st)
    else match LineStep(st, l, lines[0], eval, alnum, funcs)
      case Err(e) => Err(e)
      case Ok(next) => LinesFrom(next, lines[1..], l + 1, eval, alnum, funcs)
  }

  /// `parse(code, file)`: the entries it collects, with the final position and labels.
  function Parse(code: string, eval: Eval, alnum: CharClass, funcs: set<string>): (r: Result<Layout, LayoutError>)
  {
    LinesFrom(START, Text.Split(code, '\n'), 0, eval, alnum, funcs)
  }

  /// The body of `parse`'s loop for one line, updating `byte_pos`, the labels and the
  /// entry list.
  method ParseLine(st: Layout, l: nat, raw: string, eval: Eval, alnum: CharClass, funcs: set<string>)
    returns (r: Result<Layout, LayoutError>)
    ensures r == LineStep(st, l, raw, eval, alnum, funcs)
  {
    var line := Strip(raw);
    if |line| == 0 {
      return Ok(st);
    }
    var entries, bytePos, labels := st.entries, st.bytePos, st.labels;
    if line[0] == '$' {
      var pos := eval(Substitute(line[1..]), labels);
      if !(pos.Some? && pos.value.PyInt?) {
        return Err(LayoutError(l, EvalFailed));
      }
      if bytePos > pos.value.i {
        return Err(LayoutError(l, PositionBehind));
      }
      bytePos := pos.value.i;
    } else if line[0] == '.' {
      var rest, ty := ParseVarName(alnum, line[1..]);
      if |ty| == 0 {
        return Err(LayoutError(l, MissingType));
      }
      var t := TypeNamed(ty);
      if t.None? {
        return Err(LayoutError(l, UnknownType));
      }
      r := DataStep(st, l, t.value, rest, eval);
      return;
    } else {
      var rest, ident := ParseVarName(alnum, line);
      if |ident| == 0 {
        return Err(LayoutError(l, BadLineStart));
      }
      rest := Strip(rest);
      if |rest| > 0 && rest[0] == ':' {
        var key := "label_" + ident;
        if key in labels || key in funcs {
          return Err(LayoutError(l, LabelInUse));
        }
        labels := labels[key := bytePos];
      } else {
        entries := entries + [Instruction(bytePos, ident, rest)];
      }
    }
    r := Ok(Layout(entries, bytePos, labels));
  }

  /// `parse`: every line of `code` in order, stopping at the first error.
  method ParseCode(code: string, eval: Eval, alnum: CharClass, funcs: set<string>) returns (r: Result<Layout, LayoutError>)
    ensures r == Parse(code, eval, alnum, funcs)
  {
    var lines := Text.Split(code, '\n');
    var st := START;
    var l := 0;
    while l < |lines|
      invariant 0 <= l <= |lines|
      invariant Parse(code, eval, alnum, funcs) == LinesFrom(st, lines[l..], l, eval, alnum, funcs)
    {
      var next := ParseLine(st, l, lines[l], eval, alnum, funcs);
      assert lines[l..][1..] == lines[l + 1..];
      if next.Err? {
        return Err(next.error);
      }
      st := next.value;
      l := l + 1;
    }
    r := Ok(st);
  }

  // ---------------------------------------------------------------------------
  // Properties

  function End(e: Entry): int
  {
    e.pos + EntrySize(e)
  }

  /// The entries lie in address order without overlapping, each ending before the
  /// next one starts (an instruction takes no room, so the entry after it may share
  /// its position), the last ending at or before the current position; every label
  /// holds a position already passed.
  predicate Packed(st: Layout)
  {
    && 0 <= st.bytePos
    && (forall i :: 0 <= i < |st.entries| ==> 0 <= st.entries[i].pos)
    && (forall i :: 0 <= i < |st.entries| - 1 ==> End(st.entries[i]) <= st.entries[i + 1].pos)
    && (|st.entries| > 0 ==> End(st.entries[|st.entries| - 1]) <= st.bytePos)
    && (forall k :: k in st.labels ==> 0 <= st.labels[k] <= st.bytePos)
  }

  /// A line only ever adds: earlier entries and labels stay as they were, the
  /// position never moves back, and the layout stays packed.
  predicate Extends(st: Layout, next: Layout)
  {
    && st.bytePos <= next.bytePos
    && st.entries <= next.entries
    && (forall k :: k in st.labels ==> k in next.labels && next.labels[k] == st.labels[k])
  }

  lemma DataStepPacked(st: Layout, l: nat, t: DataType, expr: string, eval: Eval)
    requires Packed(st)
    requires DataStep(st, l, t, expr, eval).Ok?
    ensures var next := DataStep(st, l, t, expr, eval).value;
      Packed(next) && Extends(st, next) && |next.entries| == |st.entries| + 1
      && next.entries[|st.entries|].pos == st.bytePos
      && next.bytePos == st.bytePos + EntrySize(next.entries[|st.entries|])
  {
    var next := DataStep(st, l, t, expr, eval).value;
    var e := next.entries[|st.entries|];
    assert next == Layout(st.entries + [e], st.bytePos + EntrySize(e), st.labels) && e.pos == st.bytePos;
    AppendEntryPacked(st, e);
  }

  /// One entry placed at the current position, with the position moved past it.
  lemma AppendEntryPacked(st: Layout, e: Entry)
    requires Packed(st) && e.pos == st.bytePos
    ensures var next := Layout(st.entries + [e], st.bytePos + EntrySize(e), st.labels);
      Packed(next) && Extends(st, next)
  {
    var next := Layout(st.entries + [e], st.bytePos + EntrySize(e), st.labels);
    assert forall i :: 0 <= i < |st.entries| ==> next.entries[i] == st.entries[i];
  }

  lemma PositionStepPacked(st: Layout, pos: int)
    requires Packed(st) && st.bytePos <= pos
    ensures Packed(st.(bytePos := pos)) && Extends(st, st.(bytePos := pos))
  {
  }

  lemma LabelStepPacked(st: Layout, key: string)
    requires Packed(st) && key !in st.labels
    ensures var next := st.(labels := st.labels[key := st.bytePos]); Packed(next) && Extends(st, next)
  {
  }

  lemma InstructionStepPacked(st: Layout, name: string, args: string)
    requires Packed(st)
    ensures var next := st.(entries := st.entries + [Instruction(st.bytePos, name, args)]);
      Packed(next) && Extends(st, next)
  {
    var next := st.(entries := st.entries + [Instruction(st.bytePos, name, args)]);
    assert forall i :: 0 <= i < |st.entries| ==> next.entries[i] == st.entries[i];
  }

  lemma DataLinePacked(st: Layout, l: nat, text: string, eval: Eval, alnum: CharClass)
    requires Packed(st) && DataLine(st, l, text, eval, alnum).Ok?
    ensures var next := DataLine(st, l, text, eval, alnum).value; Packed(next) && Extends(st, next)
  {
    var (rest, ty) := NameSplit(alnum, Strip(text));
    DataStepPacked(st, l, TypeNamed(ty).value, rest, eval);
  }

  lemma NameLinePacked(st: Layout, l: nat, line: string, alnum: CharClass, funcs: set<string>)
    requires Packed(st) && NameLine(st, l, line, alnum, funcs).Ok?
    ensures var next := NameLine(st, l, line, alnum, funcs).value; Packed(next) && Extends(st, next)
  {
    var (rest, ident) := NameSplit(alnum, Strip(line));
    var args := Strip(rest);
    if |args| > 0 && args[0] == ':' {
      LabelStepPacked(st, "label_" + ident);
    } else {
      InstructionStepPacked(st, ident, args);
    }
  }

  lemma LineStepPacked(st: Layout, l: nat, raw: string, eval: Eval, alnum: CharClass, funcs: set<string>)
    requires Packed(st)
    requires LineStep(st, l, raw, eval, alnum, funcs).Ok?
    ensures var next := LineStep(st, l, raw, eval, alnum, funcs).value; Packed(next) && Extends(st, next)
  {
    var line := Strip(raw);
    if |line| == 0 {
    } else if line[0] == '$' {
      PositionStepPacked(st, eval(Substitute(line[1..]), st.labels).value.i);
    } else if line[0] == '.' {
      DataLinePacked(st, l, line[1..], eval, alnum);
    } else {
      NameLinePacked(st, l, line, alnum, funcs);
    }
  }

  lemma {:induction false} LinesFromPacked(st: Layout, lines: seq<string>, l: nat, eval: Eval, alnum: CharClass, funcs: set<string>)
    requires Packed(st)
    requires LinesFrom(st, lines, l, eval, alnum, funcs).Ok?
    ensures var last := LinesFrom(st, lines, l, eval, alnum, funcs).value; Packed(last) && Extends(st, last)
    decreases |lines|
  {
    if |lines| > 0 {
      var next := LineStep(st, l, lines[0], eval, alnum, funcs).value;
      LineStepPacked(st, l, lines[0], eval, alnum, funcs);
      LinesFromPacked(next, lines[1..], l + 1, eval, alnum, funcs);
    }
  }

  /// Whatever `parse` accepts, its entries are laid out in address order without
  /// overlap and its labels point at positions inside the layout.
  lemma ParsePacked(code: string, eval: Eval, alnum: CharClass, funcs: set<string>)
    requires Parse(code, eval, alnum, funcs).Ok?
    ensures Packed(Parse(code, eval, alnum, funcs).value)
  {
    LinesFromPacked(START, Text.Split(code, '\n'), 0, eval, alnum, funcs);
  }

  /// A `$` line moves the position to the value of its expression, and fails when
  /// that value lies behind the current position.
  lemma PositionLine(st: Layout, l: nat, expr: string, pos: int, eval: Eval, alnum: CharClass, funcs: set<string>)
    requires |expr| == 0 || !IsSpace(expr[|expr| - 1])
    requires eval(Substitute(expr), st.labels) == Some(PyInt(pos))
    ensures LineStep(st, l, "$" + expr, eval, alnum, funcs)
         == if pos < st.bytePos then Err(LayoutError(l, PositionBehind)) else Ok(st.(bytePos := pos))
  {
    var raw := "$" + expr;
    assert raw[|raw| - 1] == '$' || raw[|raw| - 1] == expr[|expr| - 1];
    StripPlain(raw);
    assert raw[1..] == expr;
  }

  /// A line whose first visible character is none of `$`, `.` or a name character is
  /// rejected.
  lemma BadStartRejected(st: Layout, l: nat, raw: string, eval: Eval, alnum: CharClass, funcs: set<string>)
    requires var line := Strip(raw); |line| > 0 && line[0] != '$' && line[0] != '.' && !IsNameChar(alnum, line[0])
    ensures LineStep(st, l, raw, eval, alnum, funcs) == Err(LayoutError(l, BadLineStart))
  {
    var line := Strip(raw);
    StripIdempotent(raw);
    var (rest, ident) := NameSplit(alnum, line);
    assert |ident| == 0;
  }

  /// `name:` binds `label_name` to the current position unless that name is taken.
  lemma LabelLine(st: Layout, l: nat, name: string, eval: Eval, alnum: CharClass, funcs: set<string>)
    requires AlnumLike(alnum)
    requires |name| > 0 && forall i :: 0 <= i < |name| ==> IsNameChar(alnum, name[i])
    ensures var key := "label_" + name;
      LineStep(st, l, name + ":", eval, alnum, funcs)
      == if key in st.labels || key in funcs then Err(LayoutError(l, LabelInUse))
         else Ok(st.(labels := st.labels[key := st.bytePos]))
  {
    ColonLine(st, l, name, ":", eval, alnum, funcs);
  }

  lemma ColonLine(st: Layout, l: nat, name: string, colon: string, eval: Eval, alnum: CharClass, funcs: set<string>)
    requires AlnumLike(alnum)
    requires |name| > 0 && forall i :: 0 <= i < |name| ==> IsNameChar(alnum, name[i])
    requires colon == [':']
    ensures LineStep(st, l, name + colon, eval, alnum, funcs) == NameLine(st, l, name + colon, alnum, funcs)
    ensures NameSplit(alnum, Strip(name + colon)) == (colon, name) && Strip(colon) == colon
  {
    var raw := name + colon;
    assert raw[0] == name[0] && raw[|raw| - 1] == ':';
    assert Strip(raw) == raw by { StripPlain(raw); }
    assert NameSplit(alnum, raw) == (colon, name) by { NameSplitUnique(alnum, raw, colon, name); }
    assert Strip(colon) == colon by { StripPlain(colon); }
  }

  /// An instruction line records the current position and leaves it where it is.
  lemma InstructionLine(st: Layout, l: nat, name: string, args: string, eval: Eval, alnum: CharClass, funcs: set<string>)
    requires AlnumLike(alnum)
    requires |name| > 0 && forall i :: 0 <= i < |name| ==> IsNameChar(alnum, name[i])
    requires |args| > 0 && args[0] == ' ' && var a := Strip(args); |a| == 0 || a[0] != ':'
    requires |Strip(args)| > 0 && !IsSpace(args[|args| - 1])
    ensures LineStep(st, l, name + args, eval, alnum, funcs)
         == Ok(st.(entries := st.entries + [Instruction(st.bytePos, name, Strip(args))]))
  {
    var raw := name + args;
    assert raw[0] == name[0] && raw[|raw| - 1] == args[|args| - 1];
    StripPlain(raw);
    NameSplitUnique(alnum, raw, args, name);
  }

  /// A fixed-width data line advances the position by the width of its type: 4 for
  /// `u32`/`i32`, 1 for `u8`/`i8`.
  lemma FixedDataLine(st: Layout, l: nat, t: DataType, expr: string, eval: Eval, alnum: CharClass, funcs: set<string>)
    requires AlnumLike(alnum)
    requires t in {U32, I32, U8, I8}
    requires |expr| > 0 && expr[0] == ' ' && !IsSpace(expr[|expr| - 1])
    ensures LineStep(st, l, "." + (TypeName(t) + expr), eval, alnum, funcs)
         == Ok(Layout(st.entries + [Data(st.bytePos, t, Deferred(expr))], st.bytePos + FixedSize(t), st.labels))
  {
    var body := TypeName(t) + expr;
    assert body[|body| - 1] == expr[|expr| - 1];
    DotLine(st, l, body, eval, alnum, funcs);
    TypedLine(st, l, t, expr, eval, alnum);
    FixedDataStep(st, l, t, expr, eval);
  }

  /// A line starting with `.` is a data line.
  lemma DotLine(st: Layout, l: nat, body: string, eval: Eval, alnum: CharClass, funcs: set<string>)
    requires |body| > 0 && !IsSpace(body[|body| - 1])
    ensures LineStep(st, l, "." + body, eval, alnum, funcs) == DataLine(st, l, body, eval, alnum)
  {
    var raw := "." + body;
    assert raw[0] == '.' && raw[|raw| - 1] == body[|body| - 1];
    assert Strip(raw) == raw by { StripPlain(raw); }
    assert raw[1..] == body;
  }

  /// After the dot, a type name followed by its expression reaches `DataStep` with
  /// that type and expression.
  lemma TypedLine(st: Layout, l: nat, t: DataType, expr: string, eval: Eval, alnum: CharClass)
    requires AlnumLike(alnum)
    requires |expr| > 0 && expr[0] == ' ' && !IsSpace(expr[|expr| - 1])
    ensures DataLine(st, l, TypeName(t) + expr, eval, alnum) == DataStep(st, l, t, expr, eval)
  {
    var name := TypeName(t);
    assert |name| > 0 && forall i :: 0 <= i < |name| ==> IsNameChar(alnum, name[i]);
    TypeNamedInverse(name, t);
    NamedDataLine(st, l, name, t, expr, eval, alnum);
  }

  lemma NamedDataLine(st: Layout, l: nat, name: string, t: DataType, expr: string, eval: Eval, alnum: CharClass)
    requires AlnumLike(alnum)
    requires |name| > 0 && (forall i :: 0 <= i < |name| ==> IsNameChar(alnum, name[i])) && TypeNamed(name) == Some(t)
    requires |expr| > 0 && expr[0] == ' ' && !IsSpace(expr[|expr| - 1])
    ensures DataLine(st, l, name + expr, eval, alnum) == DataStep(st, l, t, expr, eval)
  {
    var body := name + expr;
    assert body[0] == name[0] && body[|body| - 1] == expr[|expr| - 1];
    assert Strip(body) == body by { StripPlain(body); }
    assert NameSplit(alnum, body) == (expr, name) by { NameSplitUnique(alnum, body, expr, name); }
  }

  lemma FixedDataStep(st: Layout, l: nat, t: DataType, expr: string, eval: Eval)
    requires t in {U32, I32, U8, I8}
    ensures DataStep(st, l, t, expr, eval)
         == Ok(Layout(st.entries + [Data(st.bytePos, t, Deferred(expr))], st.bytePos + FixedSize(t), st.labels))
  {
  }
}
