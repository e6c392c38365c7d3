/// The listing produced by assembler/disassembler.py. Each 4-byte chunk of the input
/// is spelled out as a string of '0'/'1' characters, most significant bit of the
/// first byte first, and cut into an 11-bit opcode and three 7-bit operand fields.
module Disassembler {
  import opened Wrappers
  import opened SeqFacts
  import opened Bits
  import ThreadSpec

  /// An opcode field that the (external) lookup table names, or the raw bit string
  /// kept when the lookup raises.
  datatype Mnemonic = Known(name: string) | RawBits(bits: string)

  /// One listing line: mnemonic, the three operand texts and, for `ldl`, the
  /// literal word that follows the instruction.
  datatype Line = Line(instr: Mnemonic, params: seq<string>, literal: Option<nat>)

  /// The instruction that is followed by a literal word.
  predicate IsLdl(instr: Mnemonic)
  {
    instr.Known? && instr.name == "ldl"
  }

  /// The lines written before the loop ended, and whether it ended with an exception.
  datatype Listing = Listing(lines: seq<Line>, failed: bool)

  /// `w` binary digits of `n`, most significant first (`bin(n)[2:].rjust(w, '0')`
  /// for `n < 2^w`).
  function Binary(n: nat, w: nat): (s: string)
    ensures |s| == w
    ensures forall i :: 0 <= i < |s| ==> s[i] == '0' || s[i] == '1'
  {
    if w == 0 then [] else Binary(n / 2, w - 1) + [if n % 2 == 0 then '0' else '1']
  }

  /// `int(s, base=2)` for a string of binary digits.
  function BitsValue(s: string): (v: nat)
  {
    if |s| == 0 then 0 else 2 * BitsValue(s[..|s| - 1]) + (if s[|s| - 1] == '1' then 1 else 0)
  }

  /// The bit string of a chunk: eight digits per byte, first byte first.
  function BytesBits(raw: seq<u8>): (s: string)
    ensures |s| == 8 * |raw|
  {
    if |raw| == 0 then [] else Binary(raw[0], 8) + BytesBits(raw[1..])
  }

  function Min(a: int, b: int): int
  {
    if a <= b then a else b
  }

  /// Python's `s[i:j]` for `0 <= i <= j`: indices past the end are clipped.
  function Slice(s: string, i: nat, j: nat): (r: string)
    requires i <= j
    ensures |r| == Min(j, |s|) - Min(i, |s|)
  {
    s[Min(i, |s|)..Min(j, |s|)]
  }

  const REG_LETTERS: seq<string> := ["S", "I", "L", "C", "F"]

  function HexDigit(d: nat): char
    requires d < 16
  {
    if d < 10 then '0' + d as char else 'A' + (d - 10) as char
  }

  /// `f'{r:02X}'` for `r < 256`.
  function Hex2(r: nat): (s: string)
    requires r < 256
  {
    [HexDigit(r / 16), HexDigit(r % 16)]
  }

  /// The text of one operand field; `None` where the script raises (`int('', 2)` on
  /// an empty slice, or an index past the five register letters).
  function OperandText(arg: string): (r: Option<string>)
  {
    if arg == "1000000" then Some("!")
    else if |arg| == 0 then None
    else
      var v := BitsValue(arg);
      if v >= 48 then
        (if v - 48 < |REG_LETTERS| then Some("%" + REG_LETTERS[v - 48]) else None)
      else Some("%" + Hex2(v))
  }

  /// All operand texts, or `None` when any of them raises.
  function Operands(args: seq<string>): (r: Option<seq<string>>)
    ensures r.Some? ==> |r.value| == |args|
  {
    if |args| == 0 then Some([])
    else match OperandText(args[0])
      case None => None
      case Some(t) =>
        match Operands(args[1..])
        case None => None
        case Some(ts) => Some([t] + ts)
  }

  /// The opcode and operand fields of a chunk, as bit strings.
  function Fields(raw: seq<u8>): (r: (string, seq<string>))
    ensures |r.1| == 3
  {
    var bits := BytesBits(raw);
    (Slice(bits, 0, 11), [Slice(bits, 11, 18), Slice(bits, 18, 25), Slice(bits, 25, 32)])
  }

  /// Decoding of one chunk; `None` where the script raises.
  function DecodeChunk(raw: seq<u8>, bitsToInstr: string -> Option<string>): (r: Option<(Mnemonic, seq<string>)>)
  {
    var (op, args) := Fields(raw);
    var instr := match bitsToInstr(op) case Some(name) => Known(name) case None => RawBits(op);
    match Operands(args)
    case None => None
    case Some(params) => Some((instr, params))
  }

  /// `int.from_bytes(b, "little")`.
  function LeValue(b: seq<u8>): (v: nat)
  {
    if |b| == 0 then 0 else b[0] + TWO8 * LeValue(b[1..])
  }

  function Prepend(line: Line, rest: Listing): Listing
  {
    Listing([line] + rest.lines, rest.failed)
  }

  /// The lines already written followed by what the rest of the loop writes.
  function Joined(lines: seq<Line>, rest: Listing): Listing
  {
    Listing(lines + rest.lines, rest.failed)
  }

  /// A chunk decoder: `DecodeChunk` with the lookup table fixed.
  type Decoder = seq<u8> -> Option<(Mnemonic, seq<string>)>

  /// What one pass of the loop body does: raise, write a line and break, or write a
  /// line and go on after `used` bytes with the new budget.
  datatype Chunk = Raises | Last(line: Line) | More(line: Line, used: nat, budget: Option<int>)

  /// One pass of the loop body over the bytes `rest` with length budget `budget`
  /// (`None` when no length was given).
  function ChunkStep(rest: seq<u8>, budget: Option<int>, decode: Decoder): (r: Chunk)
    requires |rest| > 0
    ensures r.More? ==> 0 < r.used <= |rest|
  {
    var n := Min(4, |rest|);
    match decode(rest[..n])
    case None => Raises
    case Some((instr, params)) => LineStep(rest[n..], n, instr, params, budget)
  }

  /// The rest of the loop body once the `n` bytes of a chunk decoded to `instr` and
  /// `params`: `ldl` reads its literal from `after` and counts down twice.
  function LineStep(after: seq<u8>, n: nat, instr: Mnemonic, params: seq<string>, budget: Option<int>): (r: Chunk)
    ensures r.More? ==> n <= r.used <= n + |after|
  {
    if IsLdl(instr) then
      var m := Min(4, |after|);
      var line := Line(instr, params, Some(LeValue(after[..m])));
      if RunsOut(budget, 4) || RunsOut(budget, 8) then Last(line) else More(line, n + m, Spent(budget, 8))
    else
      var line := Line(instr, params, None);
      if RunsOut(budget, 4) then Last(line) else More(line, n, Spent(budget, 4))
  }

  /// What the read loop writes for the bytes `rest`.
  function Disassembly(rest: seq<u8>, budget: Option<int>, decode: Decoder): (r: Listing)
    decreases |rest|
  {
    if |rest| == 0 then Listing([], false)
    else match ChunkStep(rest, budget, decode)
      case Raises => Listing([], true)
      case Last(line) => Listing([line], false)
      case More(line, used, budget') => Prepend(line, Disassembly(rest[used..], budget', decode))
  }

  /// The script's decoder for a given opcode table.
  function ScriptDecoder(bitsToInstr: string -> Option<string>): Decoder
  {
    raw => DecodeChunk(raw, bitsToInstr)
  }

  /// The budget after a chunk that used `k` of it.
  function Spent(budget: Option<int>, k: int): Option<int>
  {
    match budget
    case None => None
    case Some(b) => Some(b - k)
  }

  /// Whether the budget runs out once `k` more bytes are taken off it.
  predicate RunsOut(budget: Option<int>, k: int)
  {
    budget.Some? && budget.value - k <= 0
  }

  /// The bytes left after `source_file.read(offset)`: a negative count reads to the end.
  function Skip(data: seq<u8>, offset: int): (r: seq<u8>)
    ensures offset >= 0 ==> r == data[Min(offset, |data|)..]
  {
    if offset < 0 then [] else data[Min(offset, |data|)..]
  }

  function After(names: seq<string>, rest: Option<seq<string>>): Option<seq<string>>
  {
    match rest
    case None => None
    case Some(ts) => Some(names + ts)
  }

  lemma AfterAppend(names: seq<string>, args: seq<string>)
    requires |args| > 0 && OperandText(args[0]).Some?
    ensures After(names, Operands(args)) == After(names + [OperandText(args[0]).value], Operands(args[1..]))
  {
    var t := OperandText(args[0]).value;
    assert Operands(args) == After([t], Operands(args[1..]));
    match Operands(args[1..])
    case None =>
    case Some(ts) =>
      AppendAssoc(names, [t], ts);
  }

  lemma AfterNothing(rest: Option<seq<string>>)
    ensures After([], rest) == rest
  {
    match rest
    case None =>
    case Some(ts) => assert [] + ts == ts;
  }

  /// The operand loop: appends one text per field and stops at the first that raises.
  method NameOperands(args: seq<string>) returns (params: Option<seq<string>>)
    ensures params == Operands(args)
  {
    var names: seq<string> := [];
    var i := 0;
    assert args[0..] == args;
    AfterNothing(Operands(args));
    while i < |args|
      invariant 0 <= i <= |args|
      invariant Operands(args) == After(names, Operands(args[i..]))
    {
      assert args[i..][0] == args[i] && args[i..][1..] == args[i + 1..];
      var t := OperandText(args[i]);
      if t.None? {
        return None;
      }
      AfterAppend(names, args[i..]);
      names := names + [t.value];
      i := i + 1;
    }
    assert args[i..] == [];
    assert names + [] == names;
    params := Some(names);
  }

  /// The decoding of one chunk: the field split, the table lookup and the operand loop.
  method DecodeWord(raw: seq<u8>, bitsToInstr: string -> Option<string>) returns (r: Option<(Mnemonic, seq<string>)>)
    ensures r == DecodeChunk(raw, bitsToInstr) == ScriptDecoder(bitsToInstr)(raw)
  {
    var (op, args) := Fields(raw);
    var instr := match bitsToInstr(op) case Some(name) => Known(name) case None => RawBits(op);
    var params := NameOperands(args);
    if params.None? {
      return None;
    }
    return Some((instr, params.value));
  }

  /// The length countdown after a line: `length -= 4` and stop once it is not positive.
  method CountDown(budget: Option<int>) returns (stop: bool, budget': Option<int>)
    ensures stop == RunsOut(budget, 4) && budget' == Spent(budget, 4)
  {
    budget' := budget;
    stop := false;
    if budget'.Some? {
      budget' := Some(budget'.value - 4);
      stop := budget'.value <= 0;
    }
  }

  /// One pass of the loop body at byte `pos`.
  method ReadChunk(data: seq<u8>, pos: nat, budget: Option<int>, bitsToInstr: string -> Option<string>)
    returns (step: Chunk)
    requires pos < |data|
    ensures step == ChunkStep(data[pos..], budget, ScriptDecoder(bitsToInstr))
  {
    ghost var rest := data[pos..];
    var n := Min(4, |data| - pos);
    var raw := data[pos..pos + n];
    assert rest[..n] == raw && rest[n..] == data[pos + n..];
    ScriptChunk(rest, n, budget, bitsToInstr);
    var decoded := DecodeWord(raw, bitsToInstr);
    if decoded.None? {
      return Raises;
    }
    step := WriteLine(data, pos + n, n, decoded.value.0, decoded.value.1, budget);
  }

  /// One step of the loop with the script's own decoder, the decoder applied.
  lemma ScriptChunk(rest: seq<u8>, n: nat, budget: Option<int>, bitsToInstr: string -> Option<string>)
    requires |rest| > 0 && n == Min(4, |rest|)
    ensures var d := DecodeChunk(rest[..n], bitsToInstr);
      ChunkStep(rest, budget, ScriptDecoder(bitsToInstr))
      == if d.None? then Raises else LineStep(rest[n..], n, d.value.0, d.value.1, budget)
  {
  }

  /// The line a decoded chunk writes, the `ldl` literal read and the countdown.
  method WriteLine(data: seq<u8>, next: nat, n: nat, instr: Mnemonic, params: seq<string>, budget: Option<int>)
    returns (step: Chunk)
    requires next <= |data|
    ensures step == LineStep(data[next..], n, instr, params, budget)
  {
    var used := n;
    var budget' := budget;
    var line;
    var stop;
    if IsLdl(instr) {
      var m := Min(4, |data| - next);
      assert data[next..][..m] == data[next..next + m];
      line := Line(instr, params, Some(LeValue(data[next..next + m])));
      used := used + m;
      stop, budget' := CountDown(budget');
      if stop {
        return Last(line);
      }
      assert Spent(budget, 8) == Spent(budget', 4) && RunsOut(budget, 8) == RunsOut(budget', 4);
    } else {
      line := Line(instr, params, None);
    }
    stop, budget' := CountDown(budget');
    if stop {
      return Last(line);
    }
    return More(line, used, budget');
  }

  /// What is written so far followed by the rest of the loop, one pass later.
  lemma JoinedStep(lines: seq<Line>, rest: seq<u8>, budget: Option<int>, decode: Decoder)
    requires |rest| > 0
    ensures ChunkStep(rest, budget, decode).Raises? ==>
      Joined(lines, Disassembly(rest, budget, decode)) == Listing(lines, true)
    ensures ChunkStep(rest, budget, decode).Last? ==>
      Joined(lines, Disassembly(rest, budget, decode)) == Listing(lines + [ChunkStep(rest, budget, decode).line], false)
    ensures ChunkStep(rest, budget, decode).More? ==>
      var step := ChunkStep(rest, budget, decode);
      Joined(lines, Disassembly(rest, budget, decode)) == Joined(lines + [step.line], Disassembly(rest[step.used..], step.budget, decode))
  {
    var step := ChunkStep(rest, budget, decode);
    if step.Raises? {
      assert lines + [] == lines;
    } else if step.More? {
      AppendAssoc(lines, [step.line], Disassembly(rest[step.used..], step.budget, decode).lines);
    }
  }

  /// The read loop of the script over `data`, after skipping `offset` bytes.
  method Disassemble(data: seq<u8>, offset: int, length: Option<int>, bitsToInstr: string -> Option<string>)
    returns (lines: seq<Line>, failed: bool)
    ensures Listing(lines, failed) == Disassembly(Skip(data, offset), length, ScriptDecoder(bitsToInstr))
  {
    ghost var decode := ScriptDecoder(bitsToInstr);
    var pos := if offset < 0 then |data| else Min(offset, |data|);
    var budget := length;
    lines := [];
    failed := false;
    ghost var whole := Disassembly(Skip(data, offset), length, decode);
    assert data[pos..] == Skip(data, offset);
    assert whole == Joined(lines, whole);
    while pos < |data|
      invariant 0 <= pos <= |data|
      invariant whole == Joined(lines, Disassembly(data[pos..], budget, decode))
      decreases |data| - pos
    {
      ghost var rest := data[pos..];
      var step := ReadChunk(data, pos, budget, bitsToInstr);
      JoinedStep(lines, rest, budget, decode);
      if step.Raises? {
        failed := true;
        return;
      }
      if step.Last? {
        lines := lines + [step.line];
        return;
      }
      ghost var later := Disassembly(rest[step.used..], step.budget, decode);
      assert whole == Joined(lines + [step.line], later);
      assert rest[step.used..] == data[pos + step.used..];
      lines := lines + [step.line];
      pos, budget := pos + step.used, step.budget;
      assert later == Disassembly(data[pos..], budget, decode);
    }
    assert data[pos..] == [];
    assert lines + [] == lines;
  }

  // ---------------------------------------------------------------------------
  // The bit strings mean what they spell.

  lemma {:induction false} BinaryValue(n: nat, w: nat)
    requires n < Pow2(w)
    ensures BitsValue(Binary(n, w)) == n
  {
    if w > 0 {
      var s := Binary(n, w);
      assert s[..|s| - 1] == Binary(n / 2, w - 1);
      BinaryValue(n / 2, w - 1);
    }
  }

  lemma {:induction false} BitsBound(s: string)
    ensures BitsValue(s) < Pow2(|s|)
  {
    if |s| > 0 {
      BitsBound(s[..|s| - 1]);
    }
  }

  /// Reading binary digits back gives the string they came from.
  lemma {:induction false} BinaryOfValue(s: string)
    requires forall i :: 0 <= i < |s| ==> s[i] == '0' || s[i] == '1'
    ensures Binary(BitsValue(s), |s|) == s
  {
    if |s| > 0 {
      var init := s[..|s| - 1];
      BinaryOfValue(init);
      var v := BitsValue(s);
      assert v / 2 == BitsValue(init);
      assert s == init + [s[|s| - 1]];
    }
  }

  lemma {:induction false} BitsConcat(x: string, y: string)
    ensures BitsValue(x + y) == BitsValue(x) * Pow2(|y|) + BitsValue(y)
  {
    if |y| == 0 {
      assert x + y == x;
    } else {
      var y' := y[..|y| - 1];
      var bit := if y[|y| - 1] == '1' then 1 else 0;
      assert (x + y)[..|x + y| - 1] == x + y';
      assert (x + y)[|x + y| - 1] == y[|y| - 1];
      BitsConcat(x, y');
      var vx, p, v' := BitsValue(x), Pow2(|y'|), BitsValue(y');
      assert BitsValue(x + y) == 2 * (vx * p + v') + bit;
      assert BitsValue(y) == 2 * v' + bit;
      assert Pow2(|y|) == 2 * p;
      DoubleProduct(vx, p);
    }
  }

  lemma DoubleProduct(a: nat, p: nat)
    ensures 2 * (a * p) == a * (2 * p)
  {
  }

  lemma Pow2Table()
    ensures Pow2(7) == 0x80 && Pow2(8) == 0x100 && Pow2(11) == 0x800
    ensures Pow2(16) == 0x1_0000 && Pow2(24) == 0x100_0000
  {
  }

  /// The bit string of a 4-byte chunk is the chunk read as a big-endian word.
  lemma WordBits(raw: seq<u8>)
    requires |raw| == 4
    ensures BitsValue(BytesBits(raw)) == FromBe(raw[0], raw[1], raw[2], raw[3])
  {
    Pow2Table();
    var b0, b1, b2, b3 := Binary(raw[0], 8), Binary(raw[1], 8), Binary(raw[2], 8), Binary(raw[3], 8);
    assert raw[1..][0] == raw[1] && raw[2..][0] == raw[2] && raw[3..][0] == raw[3];
    assert raw[1..][1..] == raw[2..] && raw[2..][1..] == raw[3..] && raw[3..][1..] == [];
    assert BytesBits(raw[3..]) == b3 + [] == b3;
    assert BytesBits(raw[2..]) == b2 + b3;
    assert BytesBits(raw[1..]) == b1 + (b2 + b3);
    assert BytesBits(raw) == b0 + (b1 + (b2 + b3));
    BinaryValue(raw[0], 8);
    BinaryValue(raw[1], 8);
    BinaryValue(raw[2], 8);
    BinaryValue(raw[3], 8);
    BitsConcat(b2, b3);
    BitsConcat(b1, b2 + b3);
    BitsConcat(b0, b1 + (b2 + b3));
  }

  /// A 32-digit string is the word its four fields pack into.
  lemma FieldsPack(bits: string)
    requires |bits| == 32
    ensures var v0, v1, v2, v3 := BitsValue(bits[..11]), BitsValue(bits[11..18]), BitsValue(bits[18..25]), BitsValue(bits[25..32]);
      v0 < 0x800 && v1 < 0x80 && v2 < 0x80 && v3 < 0x80
      && BitsValue(bits) == v0 * 0x20_0000 + v1 * 0x4000 + v2 * 0x80 + v3
  {
    Pow2Table();
    var f0, f1, f2, f3 := bits[..11], bits[11..18], bits[18..25], bits[25..32];
    assert bits == ((f0 + f1) + f2) + f3;
    BitsConcat(f0, f1);
    BitsConcat(f0 + f1, f2);
    BitsConcat((f0 + f1) + f2, f3);
    BitsBound(f0);
    BitsBound(f1);
    BitsBound(f2);
    BitsBound(f3);
    var v0, v1, v2, v3 := BitsValue(f0), BitsValue(f1), BitsValue(f2), BitsValue(f3);
    assert BitsValue(f0 + f1) == v0 * 0x80 + v1;
    assert BitsValue((f0 + f1) + f2) == (v0 * 0x80 + v1) * 0x80 + v2;
    assert BitsValue(bits) == ((v0 * 0x80 + v1) * 0x80 + v2) * 0x80 + v3;
  }

  /// The script's field split of a full chunk agrees with the machine's `split_instr`
  /// applied to the chunk read big-endian: opcode `w >> 21`, then `w >> 14`, `w >> 7`
  /// and `w`, each masked to 7 bits.
  lemma FieldsMatchSplitInstr(raw: seq<u8>)
    requires |raw| == 4
    ensures var w := FromBe(raw[0], raw[1], raw[2], raw[3]);
      var (op, args) := Fields(raw);
      var (o, a, b, c) := ThreadSpec.SplitInstr(w);
      o == BitsValue(op) && a == BitsValue(args[0]) && b == BitsValue(args[1]) && c == BitsValue(args[2])
  {
    var bits := BytesBits(raw);
    assert Fields(raw) == (bits[..11], [bits[11..18], bits[18..25], bits[25..32]]);
    FieldsPack(bits);
    WordBits(raw);
    var v0, v1, v2, v3 := BitsValue(bits[..11]), BitsValue(bits[11..18]), BitsValue(bits[18..25]), BitsValue(bits[25..32]);
    ThreadSpec.SplitJoin(v0, v1, v2, v3);
  }

  /// `int.from_bytes(b, "little")` on four bytes is the little-endian word.
  lemma LiteralIsLittleEndian(b: seq<u8>)
    requires |b| == 4
    ensures LeValue(b) == FromLe(b[0], b[1], b[2], b[3])
  {
    assert b[1..][0] == b[1] && b[2..][0] == b[2] && b[3..][0] == b[3];
    assert b[1..][1..] == b[2..] && b[2..][1..] == b[3..] && b[3..][1..] == [];
    assert LeValue(b[3..]) == b[3];
    assert LeValue(b[2..]) == b[2] + TWO8 * b[3];
    assert LeValue(b[1..]) == b[1] + TWO8 * (b[2] + TWO8 * b[3]);
  }

  // ---------------------------------------------------------------------------
  // Operand names.

  /// The naming of a 7-bit field by its value: 64 is `!` (checked before anything
  /// else), 48..52 are the register letters S, I, L, C, F, values below 48 are two
  /// upper-case hex digits, and every other value raises.
  lemma OperandNaming(v: nat)
    requires v < 0x80
    ensures v == 64 ==> OperandText(Binary(v, 7)) == Some("!")
    ensures 48 <= v <= 52 ==> OperandText(Binary(v, 7)) == Some(['%', "SILCF"[v - 48]])
    ensures v < 48 ==> OperandText(Binary(v, 7)) == Some(['%', HexDigit(v / 16), HexDigit(v % 16)])
    ensures (53 <= v < 64 || 64 < v) ==> OperandText(Binary(v, 7)) == None
  {
    Pow2Table();
    var s := Binary(v, 7);
    var bang := Binary(64, 7);
    BinaryValue(v, 7);
    BinaryValue(64, 7);
    BangField();
    if v != 64 {
      assert s != bang;
      assert OperandText(s) == if v < 48 then Some("%" + Hex2(v))
        else if v - 48 < |REG_LETTERS| then Some("%" + REG_LETTERS[v - 48]) else None;
      if v < 48 {
        assert "%" + Hex2(v) == ['%', HexDigit(v / 16), HexDigit(v % 16)];
      } else if v <= 52 {
        LetterText(v - 48);
      }
    }
  }

  lemma BangField()
    ensures Binary(64, 7) == "1000000"
  {
  }

  lemma LetterText(i: nat)
    requires i < 5
    ensures "%" + REG_LETTERS[i] == ['%', "SILCF"[i]]
  {
  }

  function HexValue(c: char): (r: Option<nat>)
    ensures r.Some? ==> r.value < 16
  {
    if '0' <= c <= '9' then Some((c - '0') as nat)
    else if 'A' <= c <= 'F' then Some((c - 'A') as nat + 10)
    else None
  }

  function LetterIndex(c: char): Option<nat>
  {
    match c
    case 'S' => Some(0)
    case 'I' => Some(1)
    case 'L' => Some(2)
    case 'C' => Some(3)
    case 'F' => Some(4)
    case _ => None
  }

  /// Reading an operand text back to its field value.
  function ParseOperand(t: string): (r: Option<nat>)
    ensures r.Some? ==> r.value < 0x80
  {
    if t == "!" then Some(64)
    else if |t| == 2 && t[0] == '%' && LetterIndex(t[1]).Some? then Some(48 + LetterIndex(t[1]).value)
    else if |t| == 3 && t[0] == '%' && HexValue(t[1]).Some? && HexValue(t[2]).Some? then
      var hi := HexValue(t[1]).value;
      if hi < 3 then Some(16 * hi + HexValue(t[2]).value) else None
    else None
  }

  lemma ParseHex(v: nat)
    requires v < 48
    ensures ParseOperand(['%', HexDigit(v / 16), HexDigit(v % 16)]) == Some(v)
  {
    assert HexValue(HexDigit(v / 16)) == Some(v / 16);
    assert HexValue(HexDigit(v % 16)) == Some(v % 16);
  }

  lemma ParseLetter(i: nat)
    requires i < 5
    ensures ParseOperand(['%', "SILCF"[i]]) == Some(48 + i)
  {
  }

  /// Every operand text the script prints names exactly one field value.
  lemma OperandRoundTrip(v: nat)
    requires v < 0x80 && OperandText(Binary(v, 7)).Some?
    ensures ParseOperand(OperandText(Binary(v, 7)).value) == Some(v)
  {
    OperandNaming(v);
    if v < 48 {
      ParseHex(v);
    } else if v != 64 {
      ParseLetter(v - 48);
    }
  }

  /// One operand that raises makes the whole operand loop raise.
  lemma {:induction false} OperandsRaise(args: seq<string>, i: nat)
    requires i < |args| && OperandText(args[i]).None?
    ensures Operands(args).None?
  {
    if i > 0 {
      assert args[1..][i - 1] == args[i];
      OperandsRaise(args[1..], i - 1);
    }
  }

  /// A trailing chunk of one to three bytes always raises: its third operand slice
  /// is empty, and `int('', 2)` fails.
  lemma PartialChunkRaises(raw: seq<u8>, bitsToInstr: string -> Option<string>)
    requires 0 < |raw| < 4
    ensures DecodeChunk(raw, bitsToInstr).None?
  {
    var args := Fields(raw).1;
    assert args[2] == [];
    OperandsRaise(args, 2);
  }

  // ---------------------------------------------------------------------------
  // The length budget.

  /// With a budget of `k` bytes, the loop writes at most one line more than the
  /// budget's 4-byte words: every line costs at least 4, and the loop breaks as soon
  /// as the budget is not positive (so at least one line is written even when `k <= 0`).
  lemma {:induction false} BudgetBound(rest: seq<u8>, k: int, decode: Decoder)
    ensures var r := Disassembly(rest, Some(k), decode);
      |r.lines| <= 1 || 4 * (|r.lines| - 1) < k
    decreases |rest|
  {
    if |rest| > 0 {
      match ChunkStep(rest, Some(k), decode)
      case Raises =>
      case Last(_) =>
      case More(line, used, budget') =>
        BudgetBound(rest[used..], budget'.value, decode);
    }
  }

  /// Without a budget, nothing stops the loop but the end of the input or an
  /// exception: a listing of complete non-`ldl` words has one line per word.
  lemma {:induction false} OneLinePerWord(rest: seq<u8>, decode: Decoder)
    requires |rest| % 4 == 0
    requires forall i :: 0 <= i < |rest| / 4 ==>
      decode(rest[4 * i..4 * i + 4]).Some? && !IsLdl(decode(rest[4 * i..4 * i + 4]).value.0)
    ensures Disassembly(rest, None, decode) == Listing(Disassembly(rest, None, decode).lines, false)
    ensures |Disassembly(rest, None, decode).lines| == |rest| / 4
    decreases |rest|
  {
    if |rest| > 0 {
      assert rest[..4] == rest[4 * 0..4 * 0 + 4];
      forall i | 0 <= i < |rest[4..]| / 4
        ensures decode(rest[4..][4 * i..4 * i + 4]).Some? && !IsLdl(decode(rest[4..][4 * i..4 * i + 4]).value.0)
      {
        assert rest[4..][4 * i..4 * i + 4] == rest[4 * (i + 1)..4 * (i + 1) + 4];
      }
      OneLinePerWord(rest[4..], decode);
    }
  }
}
