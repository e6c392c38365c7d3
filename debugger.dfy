/// The pure helpers and the command loop of crystalvm/src/debugger.rs: number
/// parsing, the debug-info records, word and breakpoint decoding, operand naming,
/// command-line parsing and the stepping rule.
module Debugger {
  import opened Wrappers
  import opened SeqFacts
  import opened Bits
  import ThreadSpec
  import IntOps
  import Disassembler
  import opened Text
  import opened Numerals

  // ---------------------------------------------------------------------------
  // string_to_u32

  /// `u32::from_str_radix`: an optional leading `+`, then at least one digit, and a
  /// value that fits in 32 bits.
  function FromStrRadix(s: string, radix: nat): (r: Option<u32>)
    requires 2 <= radix <= 36
  {
    var digits := if |s| > 0 && s[0] == '+' then s[1..] else s;
    if |digits| == 0 then None
    else match DigitsValue(digits, radix)
      case Some(v) => if v < TWO32 then Some(v) else None
      case None => None
  }

  /// The radix a prefix selects, and the digits after it: only a string longer than
  /// two characters whose first is `0` and second one of `b q o z x` has a prefix.
  function SplitRadix(num: string): (r: (nat, string))
    ensures 2 <= r.0 <= 16
  {
    if |num| > 2 && num[0] == '0' then
      match num[1]
      case 'b' => (2, num[2..])
      case 'q' => (4, num[2..])
      case 'o' => (8, num[2..])
      case 'z' => (12, num[2..])
      case 'x' => (16, num[2..])
      case _ => (10, num)
    else (10, num)
  }

  /// `string_to_u32`; `None` is the `Err` case.
  function StringToU32(num: string): (r: Option<u32>)
  {
    var (radix, digits) := SplitRadix(RemoveAll(num, '_'));
    FromStrRadix(digits, radix)
  }

  /// Underscores are ignored: removing them first changes nothing.
  lemma {:induction false} UnderscoresIgnored(num: string)
    ensures StringToU32(RemoveAll(num, '_')) == StringToU32(num)
  {
    RemoveAllAbsent(RemoveAll(num, '_'), '_');
  }

  /// The prefix letter of each radix the debugger recognises.
  function PrefixLetter(radix: nat): char
    requires radix in {2, 4, 8, 12, 16}
  {
    if radix == 2 then 'b' else if radix == 4 then 'q' else if radix == 8 then 'o'
    else if radix == 12 then 'z' else 'x'
  }

  /// Every 32-bit value written with a radix prefix, or in decimal, reads back.
  lemma PrefixedRoundTrip(v: u32, radix: nat)
    requires radix in {2, 4, 8, 12, 16}
    ensures StringToU32(['0', PrefixLetter(radix)] + Digits(v, radix)) == Some(v)
  {
    DigitsRoundTrip(v, radix);
    PrefixedParse(Digits(v, radix), radix);
  }

  lemma PrefixedParse(digits: string, radix: nat)
    requires radix in {2, 4, 8, 12, 16} && |digits| >= 1 && DigitString(digits)
    requires DigitsValue(digits, radix).Some? && DigitsValue(digits, radix).value < TWO32
    ensures StringToU32(['0', PrefixLetter(radix)] + digits) == DigitsValue(digits, radix)
  {
    var s := ['0', PrefixLetter(radix)] + digits;
    assert '_' !in digits && digits[0] != '+';
    PrefixedHasNoUnderscore(digits, PrefixLetter(radix));
    RemoveAllAbsent(s, '_');
    SplitPrefixed(digits, radix);
  }

  lemma PrefixedHasNoUnderscore(digits: string, letter: char)
    requires '_' !in digits && letter != '_'
    ensures '_' !in ['0', letter] + digits
  {
    var s := ['0', letter] + digits;
    assert forall i :: 2 <= i < |s| ==> s[i] == digits[i - 2];
  }

  lemma SplitPrefixed(digits: string, radix: nat)
    requires radix in {2, 4, 8, 12, 16} && |digits| >= 1
    ensures SplitRadix(['0', PrefixLetter(radix)] + digits) == (radix, digits)
  {
    var s := ['0', PrefixLetter(radix)] + digits;
    assert s[2..] == digits && s[0] == '0' && s[1] == PrefixLetter(radix);
  }

  lemma DecimalRoundTrip(v: u32)
    ensures StringToU32(Digits(v, 10)) == Some(v)
  {
    var s := Digits(v, 10);
    assert '_' !in s;
    RemoveAllAbsent(s, '_');
    DigitsRoundTrip(v, 10);
    if |s| > 2 && s[0] == '0' {
      LeadingDigit(v, 10);
    }
  }

  /// Only zero is written with a leading `0`.
  lemma {:induction false} LeadingDigit(v: nat, radix: nat)
    requires 2 <= radix <= 36
    ensures Digits(v, radix)[0] == '0' ==> v == 0
    decreases v
  {
    if v >= radix {
      DivShrinks(v, radix);
      LeadingDigit(v / radix, radix);
    }
  }

  // ---------------------------------------------------------------------------
  // Debug-info records

  /// The number of complete 8-byte records; a trailing partial record is not read.
  function RecordCount(info: seq<u8>): nat
  {
    |info| / 8
  }

  /// The address of record `i`: its first four bytes, big-endian.
  function RecordAddr(info: seq<u8>, i: nat): u32
    requires i < RecordCount(info)
  {
    FromBe(info[8 * i], info[8 * i + 1], info[8 * i + 2], info[8 * i + 3])
  }

  /// The source line of record `i`: its last four bytes, big-endian.
  function RecordLine(info: seq<u8>, i: nat): u32
    requires i < RecordCount(info)
  {
    FromBe(info[8 * i + 4], info[8 * i + 5], info[8 * i + 6], info[8 * i + 7])
  }

  /// The table after inserting the first `k` records in order.
  function Mappings(info: seq<u8>, k: nat): map<u32, u32>
    requires k <= RecordCount(info)
  {
    if k == 0 then map[] else Mappings(info, k - 1)[RecordAddr(info, k - 1) := RecordLine(info, k - 1)]
  }

  /// The `read_exact` loop of `raw_new`.
  method ReadLineMappings(info: seq<u8>) returns (lineMappings: map<u32, u32>)
    ensures lineMappings == Mappings(info, RecordCount(info))
  {
    lineMappings := map[];
    var pos := 0;
    while pos + 8 <= |info|
      invariant pos % 8 == 0 && pos <= |info|
      invariant lineMappings == Mappings(info, pos / 8)
      decreases |info| - pos
    {
      var addr := FromBe(info[pos], info[pos + 1], info[pos + 2], info[pos + 3]);
      var line := FromBe(info[pos + 4], info[pos + 5], info[pos + 6], info[pos + 7]);
      lineMappings := lineMappings[addr := line];
      pos := pos + 8;
    }
  }

  /// An address is mapped exactly when some complete record names it.
  lemma {:induction false} MappedAddresses(info: seq<u8>, k: nat, addr: u32)
    requires k <= RecordCount(info)
    ensures addr in Mappings(info, k) <==> exists i :: 0 <= i < k && RecordAddr(info, i) == addr
  {
    if k > 0 {
      MappedAddresses(info, k - 1, addr);
      if RecordAddr(info, k - 1) == addr {
        assert exists i :: 0 <= i < k && RecordAddr(info, i) == addr;
      }
    }
  }

  /// The last record for an address decides its line: earlier ones are overwritten.
  lemma {:induction false} LastRecordWins(info: seq<u8>, k: nat, i: nat)
    requires i < k <= RecordCount(info)
    requires forall j :: i < j < k ==> RecordAddr(info, j) != RecordAddr(info, i)
    ensures RecordAddr(info, i) in Mappings(info, k)
    ensures Mappings(info, k)[RecordAddr(info, i)] == RecordLine(info, i)
  {
    if i < k - 1 {
      LastRecordWins(info, k - 1, i);
    }
  }

  // ---------------------------------------------------------------------------
  // Instruction words

  /// The opcode value that marks a breakpoint word.
  const BREAKPOINT_OPCODE: nat := 0x7FF

  /// `raw >> 21 == 0b111_11111111`.
  predicate IsBreakpoint(raw: u32)
  {
    raw / 0x20_0000 == BREAKPOINT_OPCODE
  }

  /// The two tag bytes, `(raw >> 8) as u8` and `raw as u8`.
  function TagBytes(raw: u32): (u8, u8)
  {
    ((raw / 0x100) % 0x100, raw % 0x100)
  }

  /// What `handle_breaked` shows for a word: a breakpoint with its tag (each byte as
  /// the character with that code), or the three operand fields.
  datatype Shown = BreakpointShown(tag: string) | ArgsShown(arg0: nat, arg1: nat, arg2: nat)

  function Describe(raw: u32): Shown
  {
    if IsBreakpoint(raw) then
      var (t0, t1) := TagBytes(raw);
      BreakpointShown([t0 as char, t1 as char])
    else ArgsShown((raw / 0x4000) % 0x80, (raw / 0x80) % 0x80, raw % 0x80)
  }

  /// The debugger's decoding agrees with the machine's `split_instr`: a breakpoint is
  /// a word whose opcode field is 0x7FF, and the operands are the three 7-bit fields.
  lemma DescribeMatchesSplit(raw: u32)
    ensures IsBreakpoint(raw) <==> ThreadSpec.SplitInstr(raw).0 == BREAKPOINT_OPCODE
    ensures !IsBreakpoint(raw) ==>
      var (_, a, b, c) := ThreadSpec.SplitInstr(raw);
      Describe(raw) == ArgsShown(a, b, c)
  {
    assert raw / 0x20_0000 < 0x800;
  }

  /// A breakpoint word built from its tag bytes (and any bits between) decodes to
  /// that tag.
  lemma BreakpointTagRoundTrip(t0: u8, t1: u8, middle: nat)
    requires middle < 0x20
    ensures var raw := BREAKPOINT_OPCODE * 0x20_0000 + middle * 0x1_0000 + t0 * 0x100 + t1;
      0 <= raw < TWO32 && IsBreakpoint(raw) && TagBytes(raw) == (t0, t1)
  {
    var raw := BREAKPOINT_OPCODE * 0x20_0000 + middle * 0x1_0000 + t0 * 0x100 + t1;
    var q := BREAKPOINT_OPCODE * 0x2000 + middle * 0x100 + t0;
    assert raw == q * 0x100 + t1;
    assert raw / 0x100 == q && raw % 0x100 == t1;
    assert q % 0x100 == t0;
  }

  /// `String::from_utf8` of the two tag bytes, `None` where `unwrap` panics: two
  /// ASCII bytes, or one two-byte UTF-8 sequence.
  function TagText(raw: u32): (r: Option<string>)
  {
    var (b0, b1) := TagBytes(raw);
    if b0 < 0x80 && b1 < 0x80 then Some([b0 as char, b1 as char])
    else if 0xC2 <= b0 <= 0xDF && 0x80 <= b1 <= 0xBF then Some([((b0 - 0xC0) * 0x40 + (b1 - 0x80)) as char])
    else None
  }

  /// For ASCII tags the stepping loop compares exactly the text `handle_breaked` shows.
  lemma AsciiTagAgrees(raw: u32)
    requires IsBreakpoint(raw) && TagBytes(raw).0 < 0x80 && TagBytes(raw).1 < 0x80
    ensures TagText(raw) == Some(Describe(raw).tag)
  {
  }

  // ---------------------------------------------------------------------------
  // resolve_arg

  const ARG_LETTERS: seq<string> := ["S", "I", "L", "C", "F", "Q"]

  /// The name `resolve_arg` gives an operand field; `None` where indexing the letter
  /// table panics.
  function ArgName(arg: u8): (r: Option<string>)
  {
    if arg == 0x7F then Some("literal")
    else if arg == 0x40 then Some("!")
    else if arg < 48 then Some("%" + Disassembler.Hex2(arg))
    else if arg - 48 < |ARG_LETTERS| then Some("%" + ARG_LETTERS[arg - 48])
    else None
  }

  lemma ArgNameLetter(v: nat)
    requires 48 <= v <= 52
    ensures ArgName(v) == Some(['%', "SILCF"[v - 48]])
  {
    if v == 48 { assert "%" + ARG_LETTERS[0] == "%S"; }
    else if v == 49 { assert "%" + ARG_LETTERS[1] == "%I"; }
    else if v == 50 { assert "%" + ARG_LETTERS[2] == "%L"; }
    else if v == 51 { assert "%" + ARG_LETTERS[3] == "%C"; }
    else { assert "%" + ARG_LETTERS[4] == "%F"; }
  }

  /// The debugger and the disassembler name a 7-bit field alike, except at 0x7F and 53
  /// (see `ArgNameBeyondListing`).
  lemma ArgNameAgreesWithListing(v: nat)
    requires v < 0x80 && v != 0x7F && v != 53
    ensures ArgName(v) == Disassembler.OperandText(Disassembler.Binary(v, 7))
  {
    Disassembler.OperandNaming(v);
    if v < 48 {
      assert "%" + Disassembler.Hex2(v) == ['%', Disassembler.HexDigit(v / 16), Disassembler.HexDigit(v % 16)];
    } else if 48 <= v <= 52 {
      ArgNameLetter(v);
    }
  }

  /// Where the two disagree: 0x7F is the literal marker, which the disassembler has no
  /// name for, and 53 is `%Q`, past the disassembler's five letters.
  lemma ArgNameBeyondListing()
    ensures ArgName(0x7F) == Some("literal") && Disassembler.OperandText(Disassembler.Binary(0x7F, 7)) == None
    ensures ArgName(53) == Some("%Q") && Disassembler.OperandText(Disassembler.Binary(53, 7)) == None
  {
    Disassembler.OperandNaming(0x7F);
    Disassembler.OperandNaming(53);
    assert "%" + ARG_LETTERS[5] == "%Q";
  }

  // ---------------------------------------------------------------------------
  // the stepping loop of handle_breaked

  /// The machine state the debugger steps: the register file and the memory.
  type State = (seq<u32>, seq<u8>)

  /// How a command's stepping ends: all `n` rounds done, a panic decoding a
  /// breakpoint tag that is not UTF-8, or a round that used up its step allowance.
  datatype Stop = Finished | TagPanic | OutOfFuel

  datatype Run = Run(stop: Stop, state: State)

  /// One round of the inner `loop`: execute an instruction, then stop unless breaking
  /// is on and the word at the new instruction pointer is not a (matching) breakpoint.
  /// The source loops without bound; `fuel` caps the instructions of one round.
  function Round(st: State, breakpoint: bool, tag: Option<string>,
                 execute: State -> State, readWord: State -> u32, fuel: nat): (r: Run)
    decreases fuel
  {
    if fuel == 0 then Run(OutOfFuel, st)
    else
      var next := execute(st);
      var raw := readWord(next);
      if !breakpoint then Run(Finished, next)
      else if IsBreakpoint(raw) then
        match tag
        case None => Run(Finished, next)
        case Some(t) =>
          match TagText(raw)
          case None => Run(TagPanic, next)
          case Some(text) =>
            if text == t then Run(Finished, next)
            else Round(next, breakpoint, tag, execute, readWord, fuel - 1)
      else Round(next, breakpoint, tag, execute, readWord, fuel - 1)
  }

  /// The `for i in 0..n` loop: `n` rounds, the first that does not finish ends it.
  function Rounds(st: State, n: nat, breakpoint: bool, tag: Option<string>,
                  execute: State -> State, readWord: State -> u32, fuel: nat): (r: Run)
    decreases n
  {
    if n == 0 then Run(Finished, st)
    else
      var first := Round(st, breakpoint, tag, execute, readWord, fuel);
      if first.stop == Finished then Rounds(first.state, n - 1, breakpoint, tag, execute, readWord, fuel)
      else first
  }

  /// `execute` applied `n` times.
  function Iterate(execute: State -> State, st: State, n: nat): State
    decreases n
  {
    if n == 0 then st else Iterate(execute, execute(st), n - 1)
  }

  /// Without breaking, `n` rounds execute exactly `n` instructions.
  lemma {:induction false} RoundsWithoutBreakpoint(st: State, n: nat, tag: Option<string>,
                                                   execute: State -> State, readWord: State -> u32, fuel: nat)
    requires fuel > 0
    ensures Rounds(st, n, false, tag, execute, readWord, fuel) == Run(Finished, Iterate(execute, st, n))
    decreases n
  {
    if n > 0 {
      RoundsWithoutBreakpoint(execute(st), n - 1, tag, execute, readWord, fuel);
    }
  }

  /// A round that finishes with breaking on stops at a breakpoint word, and at one
  /// whose tag is the requested one when a tag was given.
  lemma {:induction false} RoundStopsAtBreakpoint(st: State, tag: Option<string>,
                                                  execute: State -> State, readWord: State -> u32, fuel: nat)
    requires Round(st, true, tag, execute, readWord, fuel).stop == Finished
    ensures var end := Round(st, true, tag, execute, readWord, fuel).state;
      IsBreakpoint(readWord(end)) && (tag.Some? ==> TagText(readWord(end)) == Some(tag.value))
    decreases fuel
  {
    var next := execute(st);
    var raw := readWord(next);
    if IsBreakpoint(raw) && tag.Some? && TagText(raw).Some? && TagText(raw).value != tag.value {
      RoundStopsAtBreakpoint(next, tag, execute, readWord, fuel - 1);
    } else if !IsBreakpoint(raw) {
      RoundStopsAtBreakpoint(next, tag, execute, readWord, fuel - 1);
    }
  }

  /// After at least one round with breaking on, a command that finishes has stopped at
  /// a (matching) breakpoint.
  lemma {:induction false} RoundsStopAtBreakpoint(st: State, n: nat, tag: Option<string>,
                                                  execute: State -> State, readWord: State -> u32, fuel: nat)
    requires n > 0 && Rounds(st, n, true, tag, execute, readWord, fuel).stop == Finished
    ensures var end := Rounds(st, n, true, tag, execute, readWord, fuel).state;
      IsBreakpoint(readWord(end)) && (tag.Some? ==> TagText(readWord(end)) == Some(tag.value))
    decreases n
  {
    var first := Round(st, true, tag, execute, readWord, fuel);
    RoundStopsAtBreakpoint(st, tag, execute, readWord, fuel);
    if n > 1 {
      RoundsStopAtBreakpoint(first.state, n - 1, tag, execute, readWord, fuel);
    }
  }

  /// The step allowance only cuts rounds short: a round that ends within `fuel`
  /// instructions ends the same way with any larger allowance.
  lemma {:induction false} RoundFuelMonotone(st: State, breakpoint: bool, tag: Option<string>,
                                             execute: State -> State, readWord: State -> u32, fuel: nat, more: nat)
    requires fuel <= more
    requires Round(st, breakpoint, tag, execute, readWord, fuel).stop != OutOfFuel
    ensures Round(st, breakpoint, tag, execute, readWord, more) == Round(st, breakpoint, tag, execute, readWord, fuel)
    decreases fuel
  {
    if fuel > 0 {
      var next := execute(st);
      var raw := readWord(next);
      if breakpoint && (!IsBreakpoint(raw) || (tag.Some? && TagText(raw).Some? && TagText(raw).value != tag.value)) {
        RoundFuelMonotone(next, breakpoint, tag, execute, readWord, fuel - 1, more - 1);
      }
    }
  }

  /// `n + m` rounds are `n` rounds followed by `m` more from where they finished.
  lemma {:induction false} RoundsSplit(st: State, n: nat, m: nat, breakpoint: bool, tag: Option<string>,
                                       execute: State -> State, readWord: State -> u32, fuel: nat)
    ensures var first := Rounds(st, n, breakpoint, tag, execute, readWord, fuel);
      Rounds(st, n + m, breakpoint, tag, execute, readWord, fuel)
      == if first.stop == Finished then Rounds(first.state, m, breakpoint, tag, execute, readWord, fuel) else first
    decreases n
  {
    if n > 0 {
      var r := Round(st, breakpoint, tag, execute, readWord, fuel);
      if r.stop == Finished {
        RoundsSplit(r.state, n - 1, m, breakpoint, tag, execute, readWord, fuel);
      }
    }
  }

  /// The machine state `resolve_arg` works on. `fetch_data` belongs to a machine
  /// interface that is not part of this model, so it is a parameter: it yields the
  /// operand value and the registers it leaves behind.
  class Session {
    var registers: seq<u32>
    var memory: seq<u8>

    constructor (registers: seq<u32>, memory: seq<u8>)
      ensures this.registers == registers && this.memory == memory
    {
      this.registers := registers;
      this.memory := memory;
    }

    /// Names the field and fetches its value, then restores the register file, so a
    /// literal fetch does not move the instruction pointer. `name` is `None` where the
    /// letter lookup panics.
    method ResolveArg(arg: u8, fetch: (seq<u32>, seq<u8>, u8) -> (u32, seq<u32>))
      returns (name: Option<string>, data: u32)
      modifies this
      ensures registers == old(registers) && memory == old(memory)
      ensures data == fetch(old(registers), old(memory), arg).0
      ensures name == ArgName(arg)
    {
      var regs := registers;
      var (value, after) := fetch(registers, memory, arg);
      registers := after;
      registers := regs;
      data := value;
      name := ArgName(arg);
    }

    /// The stepping part of `handle_breaked` for a parsed command: `n` rounds, each
    /// executing instructions until the stopping rule of `Round` holds.
    method Step(n: u32, breakpoint: bool, tag: Option<string>, execute: State -> State,
                readWord: State -> u32, fuel: nat) returns (stop: Stop)
      modifies this
      ensures Run(stop, (registers, memory)) == Rounds(old((registers, memory)), n, breakpoint, tag, execute, readWord, fuel)
    {
      stop := Finished;
      var i := 0;
      while i < n && stop == Finished
        invariant 0 <= i <= n
        invariant Rounds(old((registers, memory)), n, breakpoint, tag, execute, readWord, fuel)
               == if stop == Finished then Rounds((registers, memory), n - i, breakpoint, tag, execute, readWord, fuel)
                  else Run(stop, (registers, memory))
      {
        ghost var start := (registers, memory);
        var left := fuel;
        var done := false;
        while !done
          invariant Round(start, breakpoint, tag, execute, readWord, fuel)
                 == if done then Run(stop, (registers, memory)) else Round((registers, memory), breakpoint, tag, execute, readWord, left)
          invariant !done ==> stop == Finished
          decreases left + (if done then 0 else 1)
        {
          if left == 0 {
            stop := OutOfFuel;
            done := true;
          } else {
            var next := execute((registers, memory));
            registers, memory := next.0, next.1;
            var raw := readWord((registers, memory));
            left := left - 1;
            if !breakpoint {
              done := true;
            } else if IsBreakpoint(raw) {
              match tag {
                case None =>
                  done := true;
                case Some(t) =>
                  var text := TagText(raw);
                  if text.None? {
                    stop := TagPanic;
                    done := true;
                  } else if text.value == t {
                    done := true;
                  }
              }
            }
          }
        }
        i := i + 1;
      }
    }
  }

  // ---------------------------------------------------------------------------
  // input_command

  /// `str::parse::<bool>`.
  function ParseBool(s: string): Option<bool>
  {
    if s == "true" then Some(true) else if s == "false" then Some(false) else None
  }

  /// The settings a command line chooses.
  datatype Command = Command(help: bool, printRegs: bool, printMem: Option<(u32, u32)>, n: u32,
                             breakpoint: bool, breakpointTag: Option<string>)

  /// The settings before any argument is read.
  const DEFAULT_COMMAND := Command(false, false, None, 1, false, None)

  /// Why a command line is rejected.
  datatype ArgError = NoEquals | EmptySide | BadBool | BadMemRange | BadNumber | UnknownKey

  /// One comma-separated item applied to the settings so far.
  function ApplyArg(cmd: Command, item: string): (r: Result<Command, ArgError>)
  {
    var arg := Trim(item);
    if |arg| == 0 then Ok(cmd)
    else match IndexOf(arg, '=')
      case None => Err(NoEquals)
      case Some(i) =>
        var a := Trim(arg[..i]);
        var b := Trim(arg[i + 1..]);
        if |a| == 0 || |b| == 0 then Err(EmptySide) else ApplyKey(cmd, a, b)
  }

  /// The setting named by key `a` (both sides already trimmed and nonempty).
  function ApplyKey(cmd: Command, a: string, b: string): (r: Result<Command, ArgError>)
  {
    if a == "help" then
      (match ParseBool(b) case Some(v) => Ok(cmd.(help := v)) case None => Err(BadBool))
    else if a == "p" || a == "print" then
      var cmd' := cmd.(printRegs := b == "regs");
      if StartsWith(b, "mem:") then
        if '+' in b[4..] then
          // both the start and the length are parsed from the whole value
          match StringToU32(Trim(b))
          case None => Err(BadNumber)
          case Some(start) =>
            match StringToU32(Trim(b))
            case None => Err(BadNumber)
            case Some(len) => Ok(cmd'.(printMem := Some((start, len))))
        else Err(BadMemRange)
      else Ok(cmd')
    else if a == "n" then
      (match StringToU32(b) case Some(v) => Ok(cmd.(n := v)) case None => Err(BadNumber))
    else if a == "bp" || a == "breakpoint" then
      (match ParseBool(b) case Some(v) => Ok(cmd.(breakpoint := v)) case None => Err(BadBool))
    else if a == "bpt" || a == "breakpoint_tag" then Ok(cmd.(breakpointTag := Some(b)))
    else Err(UnknownKey)
  }

  /// All items applied in order; the first error ends the parse.
  function ApplyAll(cmd: Command, items: seq<string>): (r: Result<Command, ArgError>)
    decreases |items|
  {
    if |items| == 0 then Ok(cmd)
    else match ApplyArg(cmd, items[0])
      case Err(e) => Err(e)
      case Ok(c) => ApplyAll(c, items[1..])
  }

  /// What a command line sets.
  function ParseCommandLine(buffer: string): Result<Command, ArgError>
  {
    ApplyAll(DEFAULT_COMMAND, Split(buffer, ','))
  }

  /// The body of the argument loop for one item: the settings after it, or the error
  /// that ends the parse.
  method ReadItem(cmd: Command, item: string) returns (r: Result<Command, ArgError>)
    ensures r == ApplyArg(cmd, item)
  {
    var arg := Trim(item);
    if |arg| == 0 {
      return Ok(cmd);
    }
    var eq := IndexOf(arg, '=');
    if eq.None? {
      return Err(NoEquals);
    }
    var a := Trim(arg[..eq.value]);
    var b := Trim(arg[eq.value + 1..]);
    if |a| == 0 || |b| == 0 {
      return Err(EmptySide);
    }
    r := SetKey(cmd, a, b);
  }

  /// The `match a` of the argument loop.
  method SetKey(cmd: Command, a: string, b: string) returns (r: Result<Command, ArgError>)
    ensures r == ApplyKey(cmd, a, b)
  {
    var help, printRegs, printMem, n, breakpoint, breakpointTag :=
      cmd.help, cmd.printRegs, cmd.printMem, cmd.n, cmd.breakpoint, cmd.breakpointTag;
    if a == "help" {
      var v := ParseBool(b);
      if v.None? {
        return Err(BadBool);
      }
      help := v.value;
    } else if a == "p" || a == "print" {
      printRegs := b == "regs";
      if StartsWith(b, "mem:") {
        if '+' in b[4..] {
          var start := StringToU32(Trim(b));
          if start.None? {
            return Err(BadNumber);
          }
          var len := StringToU32(Trim(b));
          if len.None? {
            return Err(BadNumber);
          }
          printMem := Some((start.value, len.value));
        } else {
          return Err(BadMemRange);
        }
      }
    } else if a == "n" {
      var v := StringToU32(b);
      if v.None? {
        return Err(BadNumber);
      }
      n := v.value;
    } else if a == "bp" || a == "breakpoint" {
      var v := ParseBool(b);
      if v.None? {
        return Err(BadBool);
      }
      breakpoint := v.value;
    } else if a == "bpt" || a == "breakpoint_tag" {
      breakpointTag := Some(b);
    } else {
      return Err(UnknownKey);
    }
    return Ok(Command(help, printRegs, printMem, n, breakpoint, breakpointTag));
  }

  /// The argument loop of `input_command`: the settings updated item by item, the
  /// first malformed item ending the parse.
  method ParseCommand(buffer: string) returns (r: Result<Command, ArgError>)
    ensures r == ParseCommandLine(buffer)
  {
    var cmd := DEFAULT_COMMAND;
    var items := Split(buffer, ',');
    var k := 0;
    while k < |items|
      invariant 0 <= k <= |items|
      invariant ParseCommandLine(buffer) == ApplyAll(cmd, items[k..])
    {
      assert items[k..][0] == items[k] && items[k..][1..] == items[k + 1..];
      var next := ReadItem(cmd, items[k]);
      if next.Err? {
        return next;
      }
      cmd := next.value;
      k := k + 1;
    }
    return Ok(cmd);
  }

  // ---------------------------------------------------------------------------
  // Properties of the command parser

  /// One character that is not a digit of the radix makes the whole parse fail.
  lemma {:induction false} DigitsRejected(s: string, radix: nat, i: nat)
    requires 2 <= radix <= 36 && i < |s|
    requires DigitValue(s[i]).None? || DigitValue(s[i]).value >= radix
    ensures DigitsValue(s, radix).None?
  {
    if i < |s| - 1 {
      assert s[..|s| - 1][i] == s[i];
      DigitsRejected(s[..|s| - 1], radix, i);
    }
  }

  /// A value that starts with a letter other than a radix digit never parses.
  lemma StartsWithNonDigit(b: string)
    requires |b| > 0 && b[0] == 'm'
    ensures StringToU32(b) == None
  {
    var r := RemoveAll(b, '_');
    assert r[0] == 'm';
    DigitsRejected(r, 10, 0);
  }

  /// `print=mem:start+len` can never succeed: the start and the length are both
  /// parsed from the whole value, which begins with `mem:`.
  lemma MemPrintRejected(cmd: Command, key: string, b: string)
    requires key == "p" || key == "print"
    requires StartsWith(b, "mem:") && Trim(b) == b
    ensures ApplyArg(cmd, key + "=" + b).Err?
  {
    var eq := "=";
    var arg := key + eq + b;
    assert b[0] == 'm';
    TrimIdentity(arg);
    assert arg[|key|] == '=' && '=' !in key;
    var i := IndexOf(arg, '=').value;
    assert i == |key|;
    assert arg[..i] == key && arg[i + 1..] == b;
    TrimIdentity(key);
    assert ApplyArg(cmd, arg) == ApplyKey(cmd, key, b);
    MemKeyRejected(cmd, key, b);
  }

  lemma MemKeyRejected(cmd: Command, key: string, b: string)
    requires key == "p" || key == "print"
    requires StartsWith(b, "mem:") && Trim(b) == b
    ensures ApplyKey(cmd, key, b).Err?
  {
    assert b[0] == 'm';
    StartsWithNonDigit(b);
  }

  /// Items joined with commas.
  function Join(items: seq<string>): string
  {
    if |items| == 0 then [] else if |items| == 1 then items[0] else items[0] + "," + Join(items[1..])
  }

  lemma {:induction false} SplitJoin(items: seq<string>)
    requires |items| >= 1 && forall i :: 0 <= i < |items| ==> ',' !in items[i]
    ensures Split(Join(items), ',') == items
  {
    if |items| > 1 {
      var s := Join(items);
      var head := items[0];
      assert s == head + "," + Join(items[1..]);
      assert s[|head|] == ',' && s[..|head|] == head;
      var i := IndexOf(s, ',').value;
      assert i == |head|;
      assert s[i + 1..] == Join(items[1..]);
      SplitJoin(items[1..]);
    }
  }

  /// A well-formed `key=value` item reaches the key dispatch with both sides intact.
  lemma KeyValueItem(cmd: Command, key: string, value: string)
    requires PlainKey(key) && |value| > 0 && !IsWhitespace(value[0]) && !IsWhitespace(value[|value| - 1])
    ensures ApplyArg(cmd, key + "=" + value) == ApplyKey(cmd, key, value)
  {
    var arg := key + "=" + value;
    TrimIdentity(arg);
    assert arg[|key|] == '=';
    var i := IndexOf(arg, '=').value;
    assert i == |key|;
    assert arg[..i] == key && arg[i + 1..] == value;
    TrimIdentity(key);
    TrimIdentity(value);
  }

  function BoolText(b: bool): string
  {
    if b then "true" else "false"
  }

  /// A tag the command line can carry: nonempty, no comma, no surrounding space.
  predicate PlainTag(t: string)
  {
    |t| > 0 && ',' !in t && !IsWhitespace(t[0]) && !IsWhitespace(t[|t| - 1])
  }

  /// The items that write down a command's settings.
  function RenderItems(cmd: Command): seq<string>
    requires cmd.breakpointTag.Some? ==> PlainTag(cmd.breakpointTag.value)
  {
    ["help=" + BoolText(cmd.help), "p=" + (if cmd.printRegs then "regs" else "off"),
     "n=" + Digits(cmd.n, 10), "bp=" + BoolText(cmd.breakpoint)]
    + match cmd.breakpointTag case None => [] case Some(t) => ["bpt=" + t]
  }

  /// A key the command line accepts as written: nonempty, no '=', no surrounding space.
  predicate PlainKey(key: string)
  {
    |key| > 0 && '=' !in key && !IsWhitespace(key[0]) && !IsWhitespace(key[|key| - 1])
  }

  lemma HelpItem(cmd: Command, v: bool)
    ensures ApplyArg(cmd, "help=" + BoolText(v)) == Ok(cmd.(help := v))
  {
    var value := BoolText(v);
    assert PlainKey("help") by { assert "help"[0] == 'h' && "help"[3] == 'p'; }
    assert PlainTag(value) by { assert value[0] in "tf" && value[|value| - 1] == 'e'; }
    assert "help" + "=" == "help=";
    KeyValueItem(cmd, "help", value);
  }

  lemma PrintItem(cmd: Command, regs: bool)
    ensures ApplyArg(cmd, "p=" + (if regs then "regs" else "off")) == Ok(cmd.(printRegs := regs))
  {
    var value := if regs then "regs" else "off";
    assert PlainKey("p") by { assert "p"[0] == 'p'; }
    assert PlainTag(value) by { assert value[0] in "ro" && value[|value| - 1] in "sf"; }
    assert !StartsWith(value, "mem:") by { assert value[0] != 'm'; }
    assert "p" != "help";
    assert "p" + "=" == "p=";
    KeyValueItem(cmd, "p", value);
  }

  lemma CountItem(cmd: Command, n: u32)
    ensures ApplyArg(cmd, "n=" + Digits(n, 10)) == Ok(cmd.(n := n))
  {
    var digits := Digits(n, 10);
    assert PlainKey("n") by { assert "n"[0] == 'n'; }
    assert PlainTag(digits);
    assert "n" != "help" && "n" != "p" && "n" != "print";
    assert "n" + "=" == "n=";
    KeyValueItem(cmd, "n", digits);
    DecimalRoundTrip(n);
  }

  lemma BreakpointItem(cmd: Command, v: bool)
    ensures ApplyArg(cmd, "bp=" + BoolText(v)) == Ok(cmd.(breakpoint := v))
  {
    var value := BoolText(v);
    assert PlainKey("bp") by { assert "bp"[0] == 'b' && "bp"[1] == 'p'; }
    assert PlainTag(value) by { assert value[0] in "tf" && value[|value| - 1] == 'e'; }
    assert "bp" != "help" && "bp" != "p" && "bp" != "print" && "bp" != "n";
    assert "bp" + "=" == "bp=";
    KeyValueItem(cmd, "bp", value);
  }

  lemma TagItem(cmd: Command, t: string)
    requires PlainTag(t)
    ensures ApplyArg(cmd, "bpt=" + t) == Ok(cmd.(breakpointTag := Some(t)))
  {
    assert PlainKey("bpt") by { assert "bpt"[0] == 'b' && "bpt"[2] == 't'; }
    assert "bpt" + "=" == "bpt=";
    KeyValueItem(cmd, "bpt", t);
    TagKey(cmd, t);
  }

  lemma TagKey(cmd: Command, t: string)
    ensures ApplyKey(cmd, "bpt", t) == Ok(cmd.(breakpointTag := Some(t)))
  {
    assert "bpt" != "help" && "bpt" != "p" && "bpt" != "print" && "bpt" != "n";
    assert "bpt" != "bp" && "bpt" != "breakpoint";
  }

  lemma RenderedItemsSplit(cmd: Command)
    requires cmd.breakpointTag.Some? ==> PlainTag(cmd.breakpointTag.value)
    ensures Split(Join(RenderItems(cmd)), ',') == RenderItems(cmd)
  {
    var items := RenderItems(cmd);
    var digits := Digits(cmd.n, 10);
    assert ',' !in digits;
    NoCommaJoined("help=", BoolText(cmd.help));
    NoCommaJoined("p=", if cmd.printRegs then "regs" else "off");
    NoCommaJoined("n=", digits);
    NoCommaJoined("bp=", BoolText(cmd.breakpoint));
    if cmd.breakpointTag.Some? {
      NoCommaJoined("bpt=", cmd.breakpointTag.value);
    }
    assert forall i :: 0 <= i < |items| ==> ',' !in items[i];
    SplitJoin(items);
  }

  lemma NoCommaJoined(key: string, value: string)
    requires ',' !in key && ',' !in value
    ensures ',' !in key + value
  {
  }

  lemma ApplyAllStep(cmd: Command, items: seq<string>, next: Command)
    requires |items| > 0 && ApplyArg(cmd, items[0]) == Ok(next)
    ensures ApplyAll(cmd, items) == ApplyAll(next, items[1..])
  {
  }

  /// The four items every rendering starts with set help, register printing, the step
  /// count and the breakpoint switch.
  lemma ApplyFirstFour(c: Command, items: seq<string>, cmd: Command)
    requires |items| >= 4
    requires items[0] == "help=" + BoolText(cmd.help)
    requires items[1] == "p=" + (if cmd.printRegs then "regs" else "off")
    requires items[2] == "n=" + Digits(cmd.n, 10)
    requires items[3] == "bp=" + BoolText(cmd.breakpoint)
    ensures ApplyAll(c, items)
         == ApplyAll(c.(help := cmd.help, printRegs := cmd.printRegs, n := cmd.n, breakpoint := cmd.breakpoint), items[4..])
  {
    var c1 := c.(help := cmd.help);
    var c2 := c1.(printRegs := cmd.printRegs);
    var c3 := c2.(n := cmd.n);
    var c4 := c3.(breakpoint := cmd.breakpoint);
    HelpItem(c, cmd.help);
    ApplyAllStep(c, items, c1);
    PrintItem(c1, cmd.printRegs);
    ApplyAllStep(c1, items[1..], c2);
    assert items[1..][1..] == items[2..];
    CountItem(c2, cmd.n);
    ApplyAllStep(c2, items[2..], c3);
    assert items[2..][1..] == items[3..];
    BreakpointItem(c3, cmd.breakpoint);
    ApplyAllStep(c3, items[3..], c4);
    assert items[3..][1..] == items[4..];
  }

  /// Applying the rendered items to the defaults yields the settings they were rendered from.
  lemma ApplyRendered(cmd: Command)
    requires cmd.printMem.None?
    requires cmd.breakpointTag.Some? ==> PlainTag(cmd.breakpointTag.value)
    ensures ApplyAll(DEFAULT_COMMAND, RenderItems(cmd)) == Ok(cmd)
  {
    var items := RenderItems(cmd);
    var c4 := DEFAULT_COMMAND.(help := cmd.help, printRegs := cmd.printRegs, n := cmd.n,
                               breakpoint := cmd.breakpoint);
    ApplyFirstFour(DEFAULT_COMMAND, items, cmd);
    var rest := items[4..];
    match cmd.breakpointTag
    case None =>
      assert rest == [];
      assert c4 == cmd;
    case Some(t) =>
      TagItem(c4, t);
      ApplyAllStep(c4, rest, cmd);
      assert rest[1..] == [];
  }

  /// Every setting without a memory range can be written as a command line, and the
  /// parser reads that line back to exactly those settings.
  lemma CommandRoundTrip(cmd: Command)
    requires cmd.printMem.None?
    requires cmd.breakpointTag.Some? ==> PlainTag(cmd.breakpointTag.value)
    ensures ParseCommandLine(Join(RenderItems(cmd))) == Ok(cmd)
  {
    RenderedItemsSplit(cmd);
    ApplyRendered(cmd);
  }
}
