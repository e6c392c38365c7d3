/// The line reader of the Rust assembler (src/assembler/mod.rs): `instructionize`
/// turns one line's tokens into an instruction, and `parse_file` runs it over
/// every line, keeping the register aliases that `!%` lines declare.
module RsInstructions {
  import opened Wrappers
  import opened Bits
  import opened RsLexer
  import opened RsExpression
  import opened RsParse
  import ThreadSpec

  type Field = ThreadSpec.Field

  /// `Arg`: an operand of a command.
  datatype Arg = Expr(e: Expression) | Register(r: Field) | Stack

  /// `Instruction`: one parsed line.
  datatype Instruction =
    | Variable(name: string, value: Expression)
    | Location(at: Expression)
    | Label(name: string)
    | Command(command: string, args: seq<Arg>)
    | Data(data: RsExpression.Data)

  /// The register aliases: the token after `%` that stands for another.
  type Aliases = map<Token, Token>

  // ---------------------------------------------------------------------------
  // The specification

  /// `assert_ended!(i)`: the instruction `x` is complete when its last part
  /// ends the line. An index past the end is the source's panic.
  function Ended(tokens: seq<Token>, i: nat, x: Instruction, loc: Option<Loc>): (r: Result<Instruction, Error>)
    ensures r.Ok? <==> i == |tokens|
    ensures r.Ok? ==> r.value == x
  {
    if |tokens| < i then Err(Error(IndexPastEnd, loc))
    else if |tokens| == i then Ok(x)
    else Err(Error(SurplusArgument(tokens[i]), loc))
  }

  /// An expression from `start` that must end the line, wrapped by `wrap`.
  function Closing(rev: Revision, tokens: seq<Token>, start: nat, wrap: Expression -> Instruction, loc: Option<Loc>)
    : Result<Instruction, Error>
  {
    var p := Parse(rev, tokens, start, loc);
    if p.Err? then Err(p.error) else Ended(tokens, p.value.1, wrap(p.value.0), loc)
  }

  /// The register a token names after `%`: a decimal 0..=47, or one of the
  /// letters I, B, S, F, C. `regB` is the index of `REG_B`, which the machine
  /// does not define.
  function RegisterOf(reg: Token, regB: Field, loc: Option<Loc>): (r: Result<Field, Error>)
    ensures r.Ok? <==>
      (reg.Ident? && reg.name in {"I", "B", "S", "F", "C"}) ||
      (reg.UnsignedInteger? && reg.radix == 10 && reg.u <= 47)
    ensures reg.UnsignedInteger? && r.Ok? ==> r.value == reg.u
    ensures reg == Ident("I") ==> r == Ok(ThreadSpec.REG_I)
    ensures reg == Ident("B") ==> r == Ok(regB)
    ensures reg == Ident("S") ==> r == Ok(ThreadSpec.REG_S)
    ensures reg == Ident("F") ==> r == Ok(ThreadSpec.REG_F)
    ensures reg == Ident("C") ==> r == Ok(ThreadSpec.REG_C)
    ensures r.Err? ==> r.error == Error(InvalidRegister(reg), loc)
  {
    match reg
    case Ident(name) =>
      if name == "I" then Ok(ThreadSpec.REG_I)
      else if name == "B" then Ok(regB)
      else if name == "S" then Ok(ThreadSpec.REG_S)
      else if name == "F" then Ok(ThreadSpec.REG_F)
      else if name == "C" then Ok(ThreadSpec.REG_C)
      else Err(Error(InvalidRegister(reg), loc))
    case UnsignedInteger(u, radix) =>
      if u <= 47 && radix == 10 then Ok(u) else Err(Error(InvalidRegister(reg), loc))
    case _ => Err(Error(InvalidRegister(reg), loc))
  }

  /// The token a register name stands for once aliases are applied.
  function Dealias(raw: Token, aliases: Aliases): Token
  {
    if raw in aliases then aliases[raw] else raw
  }

  /// The operands of a command from `index` on, after `args`.
  function CommandArgs(rev: Revision, tokens: seq<Token>, index: nat, args: seq<Arg>, aliases: Aliases, regB: Field, loc: Option<Loc>)
    : (r: Result<seq<Arg>, Error>)
    ensures r.Ok? ==> args <= r.value
    decreases Left(tokens, index)
  {
    if index >= |tokens| then Ok(args)
    else if tokens[index] == Control('%') then
      if index + 1 >= |tokens| then Err(Error(MissingToken, loc))
      else
        var reg := RegisterOf(Dealias(tokens[index + 1], aliases), regB, loc);
        if reg.Err? then Err(reg.error)
        else CommandArgs(rev, tokens, index + 2, args + [Register(reg.value)], aliases, regB, loc)
    else if tokens[index] == Control('*') then
      CommandArgs(rev, tokens, index + 1, args + [Stack], aliases, regB, loc)
    else
      var p := Parse(rev, tokens, index, loc);
      if p.Err? then Err(p.error)
      else CommandArgs(rev, tokens, p.value.1, args + [Expr(p.value.0)], aliases, regB, loc)
  }

  /// The result of `instructionize(tokens, reg_aliases, loc)`.
  function Instr(rev: Revision, tokens: seq<Token>, aliases: Aliases, regB: Field, loc: Option<Loc>)
    : (r: Result<Instruction, Error>)
  {
    if |tokens| == 0 then Err(Error(MissingToken, loc))
    else if tokens[0] == Control('$') then VariableLine(rev, tokens, loc)
    else if tokens[0] == Control('@') then Closing(rev, tokens, 1, e => Location(e), loc)
    else if tokens[0] == Control('.') then DataLine(rev, tokens, loc)
    else if tokens[0].Ident? then
      if |tokens| > 1 && tokens[1] == Control(':') then Ended(tokens, 2, Label(tokens[0].name), loc)
      else
        var args := CommandArgs(rev, tokens, 1, [], aliases, regB, loc);
        if args.Err? then Err(args.error) else Ok(Command(tokens[0].name, args.value))
    else Err(Error(InvalidSyntax, loc))
  }

  /// `$ name expr`.
  function VariableLine(rev: Revision, tokens: seq<Token>, loc: Option<Loc>): Result<Instruction, Error>
    requires |tokens| > 0
  {
    if |tokens| < 2 then Err(Error(MissingToken, loc))
    else if !tokens[1].Ident? then Err(Error(WrongToken("Ident", tokens[1]), loc))
    else Closing(rev, tokens, 2, e => Instruction.Variable(tokens[1].name, e), loc)
  }

  /// `.ascii "text"` and `.<kind> expr`.
  function DataLine(rev: Revision, tokens: seq<Token>, loc: Option<Loc>): Result<Instruction, Error>
    requires |tokens| > 0
  {
    if |tokens| < 2 || !tokens[1].Ident? then Err(Error(ExpectedDataType, loc))
    else if tokens[1].name == "ascii" then
      if |tokens| < 3 then Err(Error(MissingToken, loc))
      else if !tokens[2].Ascii? then Err(Error(WrongToken("Ascii", tokens[2]), loc))
      else Ended(tokens, 3, Data(RsExpression.Ascii(tokens[2].text)), loc)
    else
      var kind := KindOf(tokens[1].name);
      if kind.None? then Err(Error(InvalidDataType(tokens[1].name), loc))
      else Closing(rev, tokens, 2, e => Data(Scalar(kind.value, e, None)), loc)
  }

  // ---------------------------------------------------------------------------
  // The program

  /// `instructionize`.
  method Instructionize(rev: Revision, tokens: seq<Token>, aliases: Aliases, regB: Field, loc: Option<Loc>)
    returns (r: Result<Instruction, Error>)
    ensures r == Instr(rev, tokens, aliases, regB, loc)
  {
    if |tokens| == 0 {
      return Err(Error(MissingToken, loc));
    }
    if tokens[0] == Control('$') {
      if |tokens| < 2 {
        return Err(Error(MissingToken, loc));
      }
      if !tokens[1].Ident? {
        return Err(Error(WrongToken("Ident", tokens[1]), loc));
      }
      var p := CollectExpr(rev, tokens, 2, loc);
      if p.Err? {
        return Err(p.error);
      }
      r := AssertEnded(tokens, p.value.1, Instruction.Variable(tokens[1].name, p.value.0), loc);
    } else if tokens[0] == Control('@') {
      var p := CollectExpr(rev, tokens, 1, loc);
      if p.Err? {
        return Err(p.error);
      }
      r := AssertEnded(tokens, p.value.1, Location(p.value.0), loc);
    } else if tokens[0] == Control('.') {
      r := DataDirective(rev, tokens, loc);
    } else if tokens[0].Ident? {
      if |tokens| > 1 && tokens[1] == Control(':') {
        r := AssertEnded(tokens, 2, Label(tokens[0].name), loc);
      } else {
        var args := CollectArgs(rev, tokens, aliases, regB, loc);
        if args.Err? {
          return Err(args.error);
        }
        r := Ok(Command(tokens[0].name, args.value));
      }
    } else {
      r := Err(Error(InvalidSyntax, loc));
    }
  }

  /// `assert_ended!`.
  method AssertEnded(tokens: seq<Token>, i: nat, x: Instruction, loc: Option<Loc>) returns (r: Result<Instruction, Error>)
    ensures r == Ended(tokens, i, x, loc)
  {
    if |tokens| < i {
      return Err(Error(IndexPastEnd, loc));
    }
    if |tokens| == i {
      return Ok(x);
    }
    r := Err(Error(SurplusArgument(tokens[i]), loc));
  }

  /// The `.` arm of `instructionize`.
  method DataDirective(rev: Revision, tokens: seq<Token>, loc: Option<Loc>) returns (r: Result<Instruction, Error>)
    requires |tokens| > 0
    ensures r == DataLine(rev, tokens, loc)
  {
    if |tokens| < 2 || !tokens[1].Ident? {
      return Err(Error(ExpectedDataType, loc));
    }
    var dtype := tokens[1].name;
    if dtype == "ascii" {
      if |tokens| < 3 {
        return Err(Error(MissingToken, loc));
      }
      if !tokens[2].Ascii? {
        return Err(Error(WrongToken("Ascii", tokens[2]), loc));
      }
      r := AssertEnded(tokens, 3, Data(RsExpression.Ascii(tokens[2].text)), loc);
    } else {
      var kind := KindOf(dtype);
      if kind.None? {
        return Err(Error(InvalidDataType(dtype), loc));
      }
      var p := CollectExpr(rev, tokens, 2, loc);
      if p.Err? {
        return Err(p.error);
      }
      r := AssertEnded(tokens, p.value.1, Data(Scalar(kind.value, p.value.0, None)), loc);
    }
  }

  /// The operand loop of a command line: `%` and a register, `*`, or an
  /// expression, until the tokens run out.
  method CollectArgs(rev: Revision, tokens: seq<Token>, aliases: Aliases, regB: Field, loc: Option<Loc>)
    returns (r: Result<seq<Arg>, Error>)
    ensures r == CommandArgs(rev, tokens, 1, [], aliases, regB, loc)
  {
    var args: seq<Arg> := [];
    var index: nat := 1;
    while index < |tokens|
      invariant CommandArgs(rev, tokens, index, args, aliases, regB, loc) == CommandArgs(rev, tokens, 1, [], aliases, regB, loc)
      decreases Left(tokens, index)
    {
      if tokens[index] == Control('%') {
        if index + 1 >= |tokens| {
          return Err(Error(MissingToken, loc));
        }
        var raw := tokens[index + 1];
        var reg := if raw in aliases then aliases[raw] else raw;
        var rg := RegisterOf(reg, regB, loc);
        if rg.Err? {
          return Err(rg.error);
        }
        args := args + [Register(rg.value)];
        index := index + 2;
      } else if tokens[index] == Control('*') {
        index := index + 1;
        args := args + [Stack];
      } else {
        var p := CollectExpr(rev, tokens, index, loc);
        if p.Err? {
          return Err(p.error);
        }
        args := args + [Expr(p.value.0)];
        index := p.value.1;
      }
    }
    r := Ok(args);
  }

  // ---------------------------------------------------------------------------
  // parse_file

  /// What an `!include "name"` line adds: the instructions of the named module,
  /// or the error reading it gave.
  type Include = string -> Result<seq<(Loc, Instruction)>, Error>

  /// `parse_file` from line `k` on, with the aliases declared so far and the
  /// instructions read so far.
  function Lines(rev: Revision, lines: seq<(Loc, seq<Token>)>, k: nat, aliases: Aliases, out: seq<(Loc, Instruction)>,
                 included: Include, regB: Field): (r: Result<seq<(Loc, Instruction)>, Error>)
    requires k <= |lines|
    decreases |lines| - k
  {
    if k == |lines| then Ok(out)
    else
      var loc := lines[k].0;
      var line := lines[k].1;
      if |line| == 0 then Lines(rev, lines, k + 1, aliases, out, included, regB)
      else if line[0] == Control('!') then
        if |line| < 2 then Err(Error(InvalidMacro, Some(loc)))
        else if line[1] == Ident("include") then
          if |line| == 3 && line[2].Ascii? then
            var inc := included(line[2].text);
            if inc.Err? then Err(inc.error) else Lines(rev, lines, k + 1, aliases, out + inc.value, included, regB)
          else Err(Error(InvalidInclude, Some(loc)))
        else if line[1] == Control('%') then
          if |line| != 6 then Err(Error(InvalidAlias, Some(loc)))
          else Lines(rev, lines, k + 1, aliases[line[2] := line[5]], out, included, regB)
        else Err(Error(UnknownMacro(line[1]), Some(loc)))
      else
        var i := Instr(rev, line, aliases, regB, Some(loc));
        if i.Err? then Err(i.error) else Lines(rev, lines, k + 1, aliases, out + [(loc, i.value)], included, regB)
  }

  /// `parse_file` over the tokenized lines of a file (reading the file, and
  /// parsing an included one, are the caller's).
  method ParseFile(rev: Revision, lines: seq<(Loc, seq<Token>)>, included: Include, regB: Field)
    returns (r: Result<seq<(Loc, Instruction)>, Error>)
    ensures r == Lines(rev, lines, 0, map[], [], included, regB)
  {
    var instrs: seq<(Loc, Instruction)> := [];
    var aliases: Aliases := map[];
    for k := 0 to |lines|
      invariant Lines(rev, lines, k, aliases, instrs, included, regB) == Lines(rev, lines, 0, map[], [], included, regB)
    {
      var loc := lines[k].0;
      var line := lines[k].1;
      if |line| == 0 {
        continue;
      }
      if line[0] == Control('!') {
        if |line| < 2 {
          return Err(Error(InvalidMacro, Some(loc)));
        }
        if line[1] == Ident("include") {
          if |line| == 3 && line[2].Ascii? {
            var inc := included(line[2].text);
            if inc.Err? {
              return Err(inc.error);
            }
            instrs := instrs + inc.value;
            continue;
          }
          return Err(Error(InvalidInclude, Some(loc)));
        } else if line[1] == Control('%') {
          if |line| != 6 {
            return Err(Error(InvalidAlias, Some(loc)));
          }
          aliases := aliases[line[2] := line[5]];
          continue;
        } else {
          return Err(Error(UnknownMacro(line[1]), Some(loc)));
        }
      }
      var instr := Instructionize(rev, line, aliases, regB, Some(loc));
      if instr.Err? {
        return Err(instr.error);
      }
      instrs := instrs + [(loc, instr.value)];
    }
    r := Ok(instrs);
  }
}

module RsInstructionsProps {
  import opened Wrappers
  import opened Bits
  import opened RsLexer
  import opened RsExpression
  import opened RsParse
  import opened RsInstructions

  // ---------------------------------------------------------------------------
  // Writing an instruction out, and reading it back

  /// The tokens an operand is written as: `%` and the register in decimal,
  /// `*`, or the expression.
  function ArgTokens(a: Arg): (ts: seq<Token>)
    ensures |ts| > 0
  {
    match a
    case Register(r) => [Control('%'), UnsignedInteger(r, 10)]
    case Stack => [Control('*')]
    case Expr(e) => Render(e)
  }

  /// The operands from the `j`-th on.
  function ArgsTokens(args: seq<Arg>, j: nat): seq<Token>
    requires j <= |args|
    decreases |args| - j
  {
    if j == |args| then [] else ArgTokens(args[j]) + ArgsTokens(args, j + 1)
  }

  /// The tokens of a line holding instruction `i`.
  function LineTokens(i: Instruction): seq<Token>
  {
    match i
    case Variable(n, e) => [Control('$'), Ident(n)] + Render(e)
    case Location(e) => [Control('@')] + Render(e)
    case Label(n) => [Ident(n), Control(':')]
    case Command(c, args) => [Ident(c)] + ArgsTokens(args, 0)
    case Data(d) =>
      (match d
       case Ascii(s) => [Control('.'), Ident("ascii"), Token.Ascii(s)]
       case Scalar(k, e, _) => [Control('.'), Ident(KindName(k))] + Render(e))
  }

  /// Operand `j` can be written so that it reads back: a register is one of
  /// 0..=47, an expression is followed by no parenthesised operation (which
  /// would make a call of it).
  predicate ReadableArg(args: seq<Arg>, j: nat)
    requires j < |args|
  {
    match args[j]
    case Register(r) => r <= 47
    case Stack => true
    case Expr(e) => WellFormed(e) && (j + 1 < |args| ==> !(args[j + 1].Expr? && args[j + 1].e.Binary?))
  }

  /// Every operand can be written so that it reads back.
  predicate AllReadable(args: seq<Arg>)
  {
    forall j | 0 <= j < |args| :: ReadableArg(args, j)
  }

  /// The instructions `instructionize` can produce and read back.
  predicate Readable(i: Instruction)
  {
    match i
    case Variable(_, e) => WellFormed(e)
    case Location(e) => WellFormed(e)
    case Label(_) => true
    case Command(_, args) => AllReadable(args)
    case Data(d) => d.Scalar? ==> WellFormed(d.expr) && d.slot.None?
  }

  /// The first token of a written expression.
  lemma RenderFirst(e: Expression)
    ensures Render(e)[0] != Control(':') && Render(e)[0] != Control('%') && Render(e)[0] != Control('*')
    ensures Render(e)[0] == Control('(') <==> e.Binary?
  {
  }

  /// The operands from the `j`-th on start with the `j`-th.
  lemma ArgsFirst(args: seq<Arg>, j: nat)
    requires j < |args|
    ensures |ArgsTokens(args, j)| > 0 && ArgsTokens(args, j)[0] == ArgTokens(args[j])[0]
  {
  }

  /// A written expression at `s` that ends the line reads back and ends it.
  lemma ClosingRead(tokens: seq<Token>, s: nat, e: Expression, wrap: Expression -> Instruction, loc: Option<Loc>)
    requires WellFormed(e) && s + |Render(e)| == |tokens| && tokens[s..] == Render(e)
    ensures Closing(Intended, tokens, s, wrap, loc) == Ok(wrap(e))
  {
    assert tokens[s..s + |Render(e)|] == tokens[s..];
    assert WrittenAt(tokens, s, Render(e));
    ParseRender(e, tokens, s, loc);
  }

  /// The operands from the `j`-th on stand one after the other from `s` to the
  /// end of `tokens`.
  ghost predicate ArgsWritten(tokens: seq<Token>, s: nat, args: seq<Arg>, j: nat)
    requires j <= |args|
    decreases |args| - j, 1
  {
    if j == |args| then s == |tokens| else ArgWritten(tokens, s, args, j)
  }

  /// Operand `j` stands at `s`, the later ones after it.
  ghost predicate ArgWritten(tokens: seq<Token>, s: nat, args: seq<Arg>, j: nat)
    requires j < |args|
    decreases |args| - j, 0
  {
    WrittenAt(tokens, s, ArgTokens(args[j])) && ArgsWritten(tokens, s + |ArgTokens(args[j])|, args, j + 1)
  }

  /// The written operands from the `j`-th on stand one after the other.
  lemma {:induction false} ArgsWrittenSplit(tokens: seq<Token>, s: nat, args: seq<Arg>, j: nat)
    requires j <= |args| && WrittenAt(tokens, s, ArgsTokens(args, j)) && s + |ArgsTokens(args, j)| == |tokens|
    ensures ArgsWritten(tokens, s, args, j)
    decreases |args| - j
  {
    if j < |args| {
      var a, rest := ArgTokens(args[j]), ArgsTokens(args, j + 1);
      assert ArgsTokens(args, j) == a + rest;
      WrittenSplit(tokens, s, a, rest);
      ArgsWrittenSplit(tokens, s + |a|, args, j + 1);
      assert ArgWritten(tokens, s, args, j);
    }
  }

  /// The operands from the `j`-th on, written at `s` up to the end of the
  /// line, read back (no aliases declared).
  lemma {:induction false} ReadArgs(args: seq<Arg>, j: nat, tokens: seq<Token>, s: nat, done: seq<Arg>, regB: Field,
                                    loc: Option<Loc>)
    requires j <= |args| && AllReadable(args) && ArgsWritten(tokens, s, args, j)
    ensures CommandArgs(Intended, tokens, s, done, map[], regB, loc) == Ok(done + args[j..])
    decreases |args| - j
  {
    if j == |args| {
      assert done + args[j..] == done;
    } else {
      var n := s + |ArgTokens(args[j])|;
      assert ArgWritten(tokens, s, args, j);
      ReadArg(args, j, tokens, s, done, regB, loc);
      ReadArgs(args, j + 1, tokens, n, done + [args[j]], regB, loc);
      assert done + [args[j]] + args[j + 1..] == done + args[j..];
    }
  }

  /// Reading operand `j` moves past its tokens and adds it to the operands.
  lemma ReadArg(args: seq<Arg>, j: nat, tokens: seq<Token>, s: nat, done: seq<Arg>, regB: Field, loc: Option<Loc>)
    requires j < |args| && AllReadable(args) && ArgsWritten(tokens, s, args, j)
    ensures CommandArgs(Intended, tokens, s, done, map[], regB, loc)
      == CommandArgs(Intended, tokens, s + |ArgTokens(args[j])|, done + [args[j]], map[], regB, loc)
  {
    var a := ArgTokens(args[j]);
    var n := s + |a|;
    assert ArgWritten(tokens, s, args, j);
    assert WrittenAt(tokens, s, a) && ArgsWritten(tokens, n, args, j + 1);
    assert ReadableArg(args, j);
    WrittenToken(tokens, s, a, 0);
    match args[j]
    case Register(r) =>
      WrittenToken(tokens, s, a, 1);
      ReadRegister(tokens, s, r, done, regB, loc);
    case Stack =>
      ReadStack(tokens, s, done, regB, loc);
    case Expr(e) =>
      assert NoCallAt(tokens, n) by {
        if j + 1 < |args| {
          assert ArgWritten(tokens, n, args, j + 1);
          assert WrittenAt(tokens, n, ArgTokens(args[j + 1]));
          WrittenToken(tokens, n, ArgTokens(args[j + 1]), 0);
          if args[j + 1].Expr? {
            RenderFirst(args[j + 1].e);
          }
        } else {
          assert n == |tokens|;
        }
      }
      ReadExpr(tokens, s, e, done, regB, loc);
  }

  /// A register operand `% r` is read as register `r`.
  lemma ReadRegister(tokens: seq<Token>, s: nat, r: Field, done: seq<Arg>, regB: Field, loc: Option<Loc>)
    requires s + 1 < |tokens| && tokens[s] == Control('%') && tokens[s + 1] == UnsignedInteger(r, 10) && r <= 47
    ensures CommandArgs(Intended, tokens, s, done, map[], regB, loc)
      == CommandArgs(Intended, tokens, s + 2, done + [Register(r)], map[], regB, loc)
  {
    assert Dealias(tokens[s + 1], map[]) == UnsignedInteger(r, 10);
  }

  /// A stack operand `*` is read as the stack.
  lemma ReadStack(tokens: seq<Token>, s: nat, done: seq<Arg>, regB: Field, loc: Option<Loc>)
    requires s < |tokens| && tokens[s] == Control('*')
    ensures CommandArgs(Intended, tokens, s, done, map[], regB, loc)
      == CommandArgs(Intended, tokens, s + 1, done + [Stack], map[], regB, loc)
  {
  }

  /// A written expression not followed by `(` is read as itself.
  lemma ReadExpr(tokens: seq<Token>, s: nat, e: Expression, done: seq<Arg>, regB: Field, loc: Option<Loc>)
    requires WellFormed(e) && WrittenAt(tokens, s, Render(e)) && NoCallAt(tokens, s + |Render(e)|)
    ensures CommandArgs(Intended, tokens, s, done, map[], regB, loc)
      == CommandArgs(Intended, tokens, s + |Render(e)|, done + [Expr(e)], map[], regB, loc)
  {
    WrittenToken(tokens, s, Render(e), 0);
    RenderFirst(e);
    ParseRender(e, tokens, s, loc);
  }

  /// Every readable instruction, written out as a line, is read back as
  /// itself by `instructionize` (with `collect_expr` returning the index just
  /// past a call).
  lemma LineRoundTrip(i: Instruction, regB: Field, loc: Option<Loc>)
    requires Readable(i)
    ensures Instr(Intended, LineTokens(i), map[], regB, loc) == Ok(i)
  {
    var ts := LineTokens(i);
    match i
    case Variable(n, e) =>
      assert ts[2..] == Render(e);
      ClosingRead(ts, 2, e, x => Instruction.Variable(n, x), loc);
    case Location(e) =>
      assert ts[1..] == Render(e);
      ClosingRead(ts, 1, e, x => Location(x), loc);
    case Label(n) =>
    case Command(c, args) => CommandRoundTrip(c, args, regB, loc);
    case Data(d) =>
      match d
      case Ascii(s) =>
      case Scalar(k, e, _) => ScalarRoundTrip(k, e, regB, loc);
  }

  /// A command line reads back as the command.
  lemma CommandRoundTrip(c: string, args: seq<Arg>, regB: Field, loc: Option<Loc>)
    requires AllReadable(args)
    ensures Instr(Intended, LineTokens(Command(c, args)), map[], regB, loc) == Ok(Command(c, args))
  {
    var ts := LineTokens(Command(c, args));
    var rest := ArgsTokens(args, 0);
    assert ts[1..] == rest;
    if |args| > 0 {
      ArgsFirst(args, 0);
      match args[0]
      case Expr(e) => RenderFirst(e);
      case _ =>
    }
    assert WrittenAt(ts, 1, rest);
    ArgsWrittenSplit(ts, 1, args, 0);
    ReadArgs(args, 0, ts, 1, [], regB, loc);
    assert [] + args[0..] == args;
  }

  /// A numeric data line reads back as the directive with no value yet.
  lemma ScalarRoundTrip(k: Kind, e: Expression, regB: Field, loc: Option<Loc>)
    requires WellFormed(e)
    ensures Instr(Intended, LineTokens(Data(Scalar(k, e, None))), map[], regB, loc) == Ok(Data(Scalar(k, e, None)))
  {
    var ts := LineTokens(Data(Scalar(k, e, None)));
    KindNames(k, "ascii");
    assert KindName(k) != "ascii" by {
      assert KindName(k)[0] != 'a';
    }
    assert ts[2..] == Render(e);
    ClosingRead(ts, 2, e, x => Data(Scalar(k, x, None)), loc);
  }

  // ---------------------------------------------------------------------------
  // The index after a call, as written

  /// As written, `collect_expr` returns the index two past a call's `)`: a
  /// variable line whose value is a call then ends past the line, and
  /// `assert_ended!` panics, where the intended reading binds the call.
  lemma CallValuePanics(n: string, f: string, u: u32, aliases: Aliases, regB: Field, loc: Option<Loc>)
    ensures var tokens := [Control('$'), Ident(n), Ident(f), Control('('), UnsignedInteger(u, 10), Control(')')];
      && Instr(AsWritten, tokens, aliases, regB, loc) == Err(Error(IndexPastEnd, loc))
      && Instr(Intended, tokens, aliases, regB, loc) == Ok(Instruction.Variable(n, Call(f, [Literal(Unsigned(u))])))
  {
    var tokens := [Control('$'), Ident(n), Ident(f), Control('('), UnsignedInteger(u, 10), Control(')')];
    ParseLiteralStep(AsWritten, tokens, 4, Unsigned(u), loc);
    ArgsLastStep(AsWritten, tokens, f, 4, [], Literal(Unsigned(u)), 5, loc);
    assert [] + [Literal(Unsigned(u))] == [Literal(Unsigned(u))];
    ParseCallStep(AsWritten, tokens, 2, f, loc);
    assert Parse(AsWritten, tokens, 2, loc) == Ok((Call(f, [Literal(Unsigned(u))]), 7));
    var v := Instruction.Variable(n, Call(f, [Literal(Unsigned(u))]));
    assert RenderArgs(Call(f, [Literal(Unsigned(u))]), 0) == [UnsignedInteger(u, 10)];
    assert LineTokens(v) == tokens;
    LineRoundTrip(v, regB, loc);
    assert Instr(Intended, tokens, aliases, regB, loc) == Instr(Intended, tokens, map[], regB, loc);
  }

  // ---------------------------------------------------------------------------
  // parse_file

  /// An alias line `!%a = %r` makes `%a` in a later command stand for
  /// register `r`, and produces no instruction of its own.
  lemma AliasNamesRegister(rev: Revision, a: string, c: string, r: u32, l1: Loc, l2: Loc, included: Include, regB: Field)
    requires r <= 47
    ensures var alias := [Control('!'), Control('%'), Ident(a), Control('='), Control('%'), UnsignedInteger(r, 10)];
      var use := [Ident(c), Control('%'), Ident(a)];
      Lines(rev, [(l1, alias), (l2, use)], 0, map[], [], included, regB) == Ok([(l2, Command(c, [Register(r)]))])
  {
    var alias := [Control('!'), Control('%'), Ident(a), Control('='), Control('%'), UnsignedInteger(r, 10)];
    var use := [Ident(c), Control('%'), Ident(a)];
    var aliases := map[Ident(a) := UnsignedInteger(r, 10)];
    assert Dealias(Ident(a), aliases) == UnsignedInteger(r, 10);
    assert [] + [Register(r)] == [Register(r)];
    assert [] + [(l2, Command(c, [Register(r)]))] == [(l2, Command(c, [Register(r)]))];
    assert CommandArgs(rev, use, 3, [Register(r)], aliases, regB, Some(l2)) == Ok([Register(r)]);
    assert CommandArgs(rev, use, 1, [], aliases, regB, Some(l2)) == Ok([Register(r)]);
    assert Instr(rev, use, aliases, regB, Some(l2)) == Ok(Command(c, [Register(r)]));
    var ls := [(l1, alias), (l2, use)];
    assert Lines(rev, ls, 2, aliases, [(l2, Command(c, [Register(r)]))], included, regB) == Ok([(l2, Command(c, [Register(r)]))]);
    assert Lines(rev, ls, 1, aliases, [], included, regB) == Ok([(l2, Command(c, [Register(r)]))]);
    assert map[][Ident(a) := UnsignedInteger(r, 10)] == aliases;
  }

  /// An alias line must have exactly six tokens.
  lemma AliasArity(rev: Revision, line: seq<Token>, l: Loc, rest: seq<(Loc, seq<Token>)>, aliases: Aliases,
                   out: seq<(Loc, Instruction)>, included: Include, regB: Field)
    requires |line| >= 2 && line[0] == Control('!') && line[1] == Control('%')
    ensures |line| != 6 ==> Lines(rev, [(l, line)] + rest, 0, aliases, out, included, regB) == Err(Error(InvalidAlias, Some(l)))
    ensures |line| == 6 ==>
      (Lines(rev, [(l, line)] + rest, 0, aliases, out, included, regB)
       == Lines(rev, [(l, line)] + rest, 1, aliases[line[2] := line[5]], out, included, regB))
  {
  }
}
