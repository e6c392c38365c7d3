/// `assemble` of the Rust assembler (src/assembler/mod.rs): two passes over the
/// parsed instructions. The first lays the program out (it records each label's
/// address and checks the `@` locations); the second emits the bytes: one
/// instruction word per command followed by its literal operands, zero padding
/// up to each location, and the bytes of every data directive.
module RsAssembler {
  import opened Wrappers
  import opened Bits
  import opened RsLexer
  import opened RsExpression
  import opened RsInstructions
  import ThreadSpec
  import Utf8

  /// The variables and labels known so far.
  type Vars = map<string, Value>

  /// `Expression::eval` with the variables (and the expression functions) in
  /// scope and the position to report errors at. The evaluator itself is not
  /// part of this model, so every operation takes it as a parameter.
  type Eval = (Expression, Vars, Option<Loc>) -> Result<Value, Error>

  /// `instr_name_id_map()`: mnemonic to opcode.
  type OpTable = map<string, u32>

  type Program = seq<(Loc, Instruction)>

  /// The state of the first pass: the variables and the current address.
  datatype Layout = Layout(vars: Vars, addr: u32)

  /// The state of the second pass: the variables and the code emitted so far.
  datatype Image = Image(vars: Vars, code: seq<u8>)

  // ---------------------------------------------------------------------------
  // The first pass

  /// The number of expression operands among `args`.
  function ExprCount(args: seq<Arg>): (n: nat)
    ensures n <= |args|
  {
    if |args| == 0 then 0
    else ExprCount(args[..|args| - 1]) + (if args[|args| - 1].Expr? then 1 else 0)
  }

  /// A prefix has no more expression operands than the whole.
  lemma {:induction false} ExprCountPrefix(args: seq<Arg>, j: nat)
    requires j <= |args|
    ensures ExprCount(args[..j]) <= ExprCount(args)
    decreases |args|
  {
    if j < |args| {
      var init := args[..|args| - 1];
      assert args[..j] == init[..j];
      ExprCountPrefix(init, j);
    } else {
      assert args[..j] == args;
    }
  }

  /// The bytes the first pass counts for `i`: a command word and one word per
  /// expression operand, a string's byte length truncated to 32 bits
  /// (`s.len() as u32`), a scalar's width. Other instructions take no room.
  function Size(i: Instruction): nat
  {
    match i
    case Command(_, args) => 4 + 4 * ExprCount(args)
    case Data(d) =>
      (match d
       case Ascii(s) => Utf8.Len(s) % TWO32
       case Scalar(k, _, _) => Width(k))
    case _ => 0
  }

  /// Moving the address on by `n`; passing 2^32 is the overflow panic of the
  /// `u32` additions.
  function Advance(l: Layout, n: nat): (r: Result<Layout, Error>)
    ensures r.Ok? <==> l.addr + n < TWO32
    ensures r.Ok? ==> r.value == l.(addr := l.addr + n)
  {
    if l.addr + n < TWO32 then Ok(l.(addr := l.addr + n)) else Err(Error(AddressOverflow, None))
  }

  /// One instruction of the first pass. A variable whose expression cannot be
  /// evaluated yet is skipped; a label takes the current address; a location
  /// must be an unsigned integer not behind the current address, and becomes it.
  function Step1(l: Layout, loc: Loc, i: Instruction, eval: Eval): Result<Layout, Error>
  {
    match i
    case Variable(n, e) =>
      var v := eval(e, l.vars, Some(loc));
      if v.Ok? then Ok(l.(vars := l.vars[n := v.value])) else Ok(l)
    case Location(e) =>
      var v := eval(e, l.vars, Some(loc));
      if v.Err? then Err(v.error)
      else if !v.value.Unsigned? then Err(Error(LocationNotUnsigned(ValueKind(v.value)), Some(loc)))
      else if v.value.u < l.addr then Err(Error(LocationBehind(v.value.u, l.addr), Some(loc)))
      else Ok(l.(addr := v.value.u))
    case Label(n) => Ok(l.(vars := l.vars[n := Unsigned(l.addr)]))
    case _ => Advance(l, Size(i))
  }

  /// The first pass over the first `k` instructions.
  function Run1(p: Program, k: nat, eval: Eval): Result<Layout, Error>
    requires k <= |p|
  {
    if k == 0 then Ok(Layout(map[], 0))
    else
      var r := Run1(p, k - 1, eval);
      if r.Err? then r else Step1(r.value, p[k - 1].0, p[k - 1].1, eval)
  }

  /// Once the first pass has failed it stays failed.
  lemma {:induction false} Run1Stays(p: Program, j: nat, k: nat, eval: Eval)
    requires j <= k <= |p| && Run1(p, j, eval).Err?
    ensures Run1(p, k, eval) == Run1(p, j, eval)
    decreases k
  {
    if j < k {
      Run1Stays(p, j, k - 1, eval);
    }
  }

  /// The first pass's count for a command: 4, then 4 per expression operand.
  method CountCommand(l: Layout, args: seq<Arg>) returns (r: Result<Layout, Error>)
    ensures r == Advance(l, 4 + 4 * ExprCount(args))
  {
    if l.addr + 4 >= TWO32 {
      return Err(Error(AddressOverflow, None));
    }
    var addr: u32 := l.addr + 4;
    for j := 0 to |args|
      invariant addr == l.addr + 4 + 4 * ExprCount(args[..j])
    {
      assert args[..j + 1][..j] == args[..j];
      if args[j].Expr? {
        if addr + 4 >= TWO32 {
          assert args[..j + 1] == args[..j] + [args[j]];
          ExprCountPrefix(args, j + 1);
          return Err(Error(AddressOverflow, None));
        }
        addr := addr + 4;
      }
    }
    assert args[..|args|] == args;
    return Ok(l.(addr := addr));
  }

  method FirstPass(p: Program, eval: Eval) returns (r: Result<Layout, Error>)
    ensures r == Run1(p, |p|, eval)
  {
    var l := Layout(map[], 0);
    for k := 0 to |p|
      invariant Run1(p, k, eval) == Ok(l)
    {
      var (loc, i) := p[k];
      match i {
        case Variable(n, e) =>
          var v := eval(e, l.vars, Some(loc));
          if v.Ok? {
            l := l.(vars := l.vars[n := v.value]);
          }
        case Location(e) =>
          var v := eval(e, l.vars, Some(loc));
          if v.Err? {
            Run1Stays(p, k + 1, |p|, eval);
            return Err(v.error);
          }
          if !v.value.Unsigned? {
            Run1Stays(p, k + 1, |p|, eval);
            return Err(Error(LocationNotUnsigned(ValueKind(v.value)), Some(loc)));
          }
          if v.value.u < l.addr {
            Run1Stays(p, k + 1, |p|, eval);
            return Err(Error(LocationBehind(v.value.u, l.addr), Some(loc)));
          }
          l := l.(addr := v.value.u);
        case Label(n) =>
          l := l.(vars := l.vars[n := Unsigned(l.addr)]);
        case Command(_, args) =>
          var c := CountCommand(l, args);
          if c.Err? {
            Run1Stays(p, k + 1, |p|, eval);
            return c;
          }
          l := c.value;
        case Data(_) =>
          var a := Advance(l, Size(i));
          if a.Err? {
            Run1Stays(p, k + 1, |p|, eval);
            return a;
          }
          l := a.value;
      }
    }
    return Ok(l);
  }

  // ---------------------------------------------------------------------------
  // The instruction word

  /// The operand field of an argument: 0x7F for a literal word, the register,
  /// or 0x7E for the stack.
  function ArgField(a: Arg): ThreadSpec.Field
  {
    match a
    case Expr(_) => 0x7F
    case Register(r) => r
    case Stack => 0x7E
  }

  function Fields(args: seq<Arg>): (fs: seq<ThreadSpec.Field>)
    ensures |fs| == |args|
  {
    seq(|args|, j requires 0 <= j < |args| => ArgField(args[j]))
  }

  /// `command << 7 | f` on a `u32`: the bits shifted past the top are lost
  /// (only the low 25 bits survive), and the field fills the seven low bits
  /// the shift cleared.
  function Shift(w: u32, f: ThreadSpec.Field): (r: u32)
  {
    (w % 0x200_0000) * 0x80 + f
  }

  /// `Shift` is the wrapping `u32` shift by seven with the field or-ed in: the
  /// field lands in the cleared bits, so `|` adds it.
  lemma ShiftIsShl(w: u32, f: ThreadSpec.Field)
    ensures Shift(w, f) == (w * 0x80) % TWO32 + f
    ensures Shift(w, f) % 0x80 == f && Shift(w, f) / 0x80 == w % 0x200_0000
  {
    assert w * 0x80 == (w / 0x200_0000) * TWO32 + (w % 0x200_0000) * 0x80;
  }

  /// The opcode with every field shifted in, in order.
  function Shifted(op: u32, fs: seq<ThreadSpec.Field>): u32
  {
    if |fs| == 0 then op else Shift(Shifted(op, fs[..|fs| - 1]), fs[|fs| - 1])
  }

  /// `2^(7 * (3 - n))`: the final shift that moves the fields of `n` operands
  /// to the top of the 21 operand bits.
  function Scale(n: nat): nat
    requires n <= 3
  {
    if n == 0 then 0x20_0000 else if n == 1 then 0x4000 else if n == 2 then 0x80 else 1
  }

  /// The instruction word of a command with opcode `op` and operand fields `fs`.
  function Leading(op: u32, fs: seq<ThreadSpec.Field>): u32
    requires |fs| <= 3
  {
    (Shifted(op, fs) * Scale(|fs|)) % TWO32
  }

  /// The field of operand slot `j`; a missing operand leaves 0.
  function Slot(fs: seq<ThreadSpec.Field>, j: nat): ThreadSpec.Field
  {
    if j < |fs| then fs[j] else 0
  }

  /// Shifting a word below 2^25 loses nothing.
  lemma ShiftSmall(w: u32, f: ThreadSpec.Field)
    requires w < 0x200_0000
    ensures Shift(w, f) == w * 0x80 + f
  {
    assert w % 0x200_0000 == w;
  }

  /// For an opcode below 2^11 nothing is shifted out: the fields follow the
  /// opcode, seven bits each.
  lemma ShiftedFields(op: u32, fs: seq<ThreadSpec.Field>)
    requires op < 0x800 && |fs| <= 3
    ensures var w := ThreadSpec.JoinInstr(op, Slot(fs, 0), Slot(fs, 1), Slot(fs, 2));
      && (|fs| == 0 ==> Shifted(op, fs) * 0x20_0000 == w)
      && (|fs| == 1 ==> Shifted(op, fs) * 0x4000 == w)
      && (|fs| == 2 ==> Shifted(op, fs) * 0x80 == w)
      && (|fs| == 3 ==> Shifted(op, fs) == w)
  {
    var a: int, b: int, c: int := Slot(fs, 0), Slot(fs, 1), Slot(fs, 2);
    var w := ThreadSpec.JoinInstr(op, a, b, c);
    assert fs[..0] == [];
    if |fs| == 0 {
      assert w == op * 0x20_0000;
    } else {
      assert fs[..1][..0] == [];
      ShiftSmall(op, a);
      var s1 := op * 0x80 + a;
      assert Shifted(op, fs[..1]) == s1;
      if |fs| == 1 {
        assert fs[..1] == fs;
        assert w == s1 * 0x4000;
      } else {
        assert fs[..2][..1] == fs[..1];
        ShiftSmall(s1, b);
        var s2 := s1 * 0x80 + b;
        assert Shifted(op, fs[..2]) == s2;
        if |fs| == 2 {
          assert fs[..2] == fs;
          assert w == s2 * 0x80;
        } else {
          assert fs[..3][..2] == fs[..2];
          assert fs[..3] == fs;
          ShiftSmall(s2, c);
          assert w == s2 * 0x80 + c;
        }
      }
    }
  }

  /// For any opcode below 2^11 the instruction word is the layout the VM
  /// decodes: the opcode in the top eleven bits and the operand fields below,
  /// first operand first.
  lemma LeadingJoins(op: u32, fs: seq<ThreadSpec.Field>)
    requires op < 0x800 && |fs| <= 3
    ensures Leading(op, fs) == ThreadSpec.JoinInstr(op, Slot(fs, 0), Slot(fs, 1), Slot(fs, 2))
  {
    ShiftedFields(op, fs);
    var sh: int := Shifted(op, fs);
    var w: int := ThreadSpec.JoinInstr(op, Slot(fs, 0), Slot(fs, 1), Slot(fs, 2));
    assert w % TWO32 == w;
    if |fs| == 0 {
      assert Leading(op, fs) == (sh * 0x20_0000) % TWO32;
    } else if |fs| == 1 {
      assert Leading(op, fs) == (sh * 0x4000) % TWO32;
    } else if |fs| == 2 {
      assert Leading(op, fs) == (sh * 0x80) % TWO32;
    } else {
      assert Leading(op, fs) == sh % TWO32;
    }
  }

  /// The VM splits the instruction word back into the opcode and the fields.
  lemma LeadingSplits(op: u32, fs: seq<ThreadSpec.Field>)
    requires op < 0x800 && |fs| <= 3
    ensures ThreadSpec.SplitInstr(Leading(op, fs)) == (op, Slot(fs, 0), Slot(fs, 1), Slot(fs, 2))
  {
    LeadingJoins(op, fs);
    ThreadSpec.SplitJoin(op, Slot(fs, 0), Slot(fs, 1), Slot(fs, 2));
  }

  // ---------------------------------------------------------------------------
  // The second pass

  /// The four bytes of a literal operand, least significant first; a signed
  /// value in two's complement, a float by its bits.
  function ValueBytes(v: Value): (b: seq<u8>)
    ensures |b| == 4
  {
    match v
    case Unsigned(u) => LeBytes(u)
    case Signed(i) => LeBytes(if i < 0 then i + TWO32 else i)
    case Float32(f) => LeBytes(f)
  }

  /// The word the VM reads back from a literal operand is the value modulo 2^32.
  lemma ValueBytesRead(v: Value)
    ensures var b := ValueBytes(v); FromLe(b[0], b[1], b[2], b[3]) == Number(v) % TWO32
  {
    match v
    case Unsigned(u) => LeRoundTrip(u);
    case Signed(i) => LeRoundTrip(if i < 0 then i + TWO32 else i);
    case Float32(f) => LeRoundTrip(f);
  }

  function ValuesBytes(vs: seq<Value>): (b: seq<u8>)
    ensures |b| == 4 * |vs|
  {
    if |vs| == 0 then [] else ValuesBytes(vs[..|vs| - 1]) + ValueBytes(vs[|vs| - 1])
  }

  /// The values of the first `k` operands' expressions, in order; the first
  /// failing evaluation is the error.
  function Lits(args: seq<Arg>, k: nat, vars: Vars, eval: Eval, loc: Loc): Result<seq<Value>, Error>
    requires k <= |args|
  {
    if k == 0 then Ok([])
    else
      var r := Lits(args, k - 1, vars, eval, loc);
      if r.Err? then r
      else if args[k - 1].Expr? then
        var v := eval(args[k - 1].e, vars, Some(loc));
        if v.Err? then Err(v.error) else Ok(r.value + [v.value])
      else r
  }

  /// Once an operand fails to evaluate, the operands fail with its error.
  lemma {:induction false} LitsStay(args: seq<Arg>, j: nat, k: nat, vars: Vars, eval: Eval, loc: Loc)
    requires j <= k <= |args| && Lits(args, j, vars, eval, loc).Err?
    ensures Lits(args, k, vars, eval, loc) == Lits(args, j, vars, eval, loc)
    decreases k
  {
    if j < k {
      LitsStay(args, j, k - 1, vars, eval, loc);
    }
  }

  /// There is one value per expression operand.
  lemma {:induction false} LitsCount(args: seq<Arg>, k: nat, vars: Vars, eval: Eval, loc: Loc)
    requires k <= |args|
    ensures Lits(args, k, vars, eval, loc).Ok? ==> |Lits(args, k, vars, eval, loc).value| == ExprCount(args[..k])
  {
    if k > 0 {
      LitsCount(args, k - 1, vars, eval, loc);
      assert args[..k][..k - 1] == args[..k - 1];
    }
  }

  /// A command: an unknown mnemonic is the `expect` panic; the operands are
  /// evaluated first, then more than three operands is the panic of `3 -
  /// args.len()`; the bytes are the instruction word and the literal words.
  function CommandStep(img: Image, loc: Loc, cmd: string, args: seq<Arg>, eval: Eval, ops: OpTable)
    : Result<Image, Error>
  {
    if cmd !in ops then Err(Error(UnknownCommand(cmd), None))
    else
      var vs := Lits(args, |args|, img.vars, eval, loc);
      if vs.Err? then Err(vs.error)
      else if |args| > 3 then Err(Error(TooManyArguments(|args|), None))
      else Ok(img.(code := img.code + LeBytes(Leading(ops[cmd], Fields(args))) + ValuesBytes(vs.value)))
  }

  function Zeros(n: nat): (z: seq<u8>)
    ensures |z| == n && forall j :: 0 <= j < n ==> z[j] == 0
  {
    seq(n, _ => 0)
  }

  /// A numeric data directive: the value is copied into the directive's type
  /// (`Value::copy_into`) and written in that type's width.
  function ScalarStep(img: Image, loc: Loc, k: Kind, e: Expression, eval: Eval): Result<Image, Error>
  {
    var v := eval(e, img.vars, Some(loc));
    if v.Err? then Err(v.error)
    else
      var d := CopyInto(v.value, Scalar(k, e, None), Some(loc));
      if d.Err? then Err(d.error)
      else Ok(img.(code := img.code + ScalarBytes(k, d.value.slot.value)))
  }

  /// One instruction of the second pass. Variables are evaluated again (an
  /// error now stops the assembly), a location pads the code with zeros up to
  /// it, labels emit nothing.
  function Step2(img: Image, loc: Loc, i: Instruction, eval: Eval, ops: OpTable): Result<Image, Error>
  {
    match i
    case Variable(n, e) =>
      var v := eval(e, img.vars, Some(loc));
      if v.Err? then Err(v.error) else Ok(img.(vars := img.vars[n := v.value]))
    case Location(e) =>
      var v := eval(e, img.vars, Some(loc));
      if v.Err? then Err(v.error)
      else if !v.value.Unsigned? then Err(Error(LocationNotUnsigned(ValueKind(v.value)), None))
      else if v.value.u < |img.code| then Err(Error(CodePastLocation(v.value.u), None))
      else Ok(img.(code := img.code + Zeros(v.value.u - |img.code|)))
    case Label(_) => Ok(img)
    case Command(cmd, args) => CommandStep(img, loc, cmd, args, eval, ops)
    case Data(d) =>
      (match d
       case Ascii(s) => Ok(img.(code := img.code + Utf8.Encode(s)))
       case Scalar(k, e, _) => ScalarStep(img, loc, k, e, eval))
  }

  /// The second pass over the first `k` instructions, starting from the
  /// variables the first pass left.
  function Run2(p: Program, k: nat, vars: Vars, eval: Eval, ops: OpTable): Result<Image, Error>
    requires k <= |p|
  {
    if k == 0 then Ok(Image(vars, []))
    else
      var r := Run2(p, k - 1, vars, eval, ops);
      if r.Err? then r else Step2(r.value, p[k - 1].0, p[k - 1].1, eval, ops)
  }

  /// Once the second pass has failed it stays failed.
  lemma {:induction false} Run2Stays(p: Program, j: nat, k: nat, vars: Vars, eval: Eval, ops: OpTable)
    requires j <= k <= |p| && Run2(p, j, vars, eval, ops).Err?
    ensures Run2(p, k, vars, eval, ops) == Run2(p, j, vars, eval, ops)
    decreases k
  {
    if j < k {
      Run2Stays(p, j, k - 1, vars, eval, ops);
    }
  }

  /// The whole of `assemble` after parsing: the bytes written to the output.
  function Assembled(p: Program, eval: Eval, ops: OpTable): Result<seq<u8>, Error>
  {
    var l := Run1(p, |p|, eval);
    if l.Err? then Err(l.error)
    else
      var img := Run2(p, |p|, l.value.vars, eval, ops);
      if img.Err? then Err(img.error) else Ok(img.value.code)
  }

  method EncodeCommand(img: Image, loc: Loc, cmd: string, args: seq<Arg>, eval: Eval, ops: OpTable)
    returns (r: Result<Image, Error>)
    ensures r == CommandStep(img, loc, cmd, args, eval, ops)
  {
    if cmd !in ops {
      return Err(Error(UnknownCommand(cmd), None));
    }
    var command := ops[cmd];
    var lits: seq<Value> := [];
    for j := 0 to |args|
      invariant Lits(args, j, img.vars, eval, loc) == Ok(lits)
      invariant command == Shifted(ops[cmd], Fields(args)[..j])
    {
      assert Fields(args)[..j + 1][..j] == Fields(args)[..j];
      match args[j] {
        case Expr(e) =>
          var v := eval(e, img.vars, Some(loc));
          if v.Err? {
            LitsStay(args, j + 1, |args|, img.vars, eval, loc);
            return Err(v.error);
          }
          command := Shift(command, 0x7F);
          lits := lits + [v.value];
        case Register(reg) =>
          command := Shift(command, reg);
        case Stack =>
          command := Shift(command, 0x7E);
      }
    }
    if |args| > 3 {
      return Err(Error(TooManyArguments(|args|), None));
    }
    assert Fields(args)[..|args|] == Fields(args);
    command := (command * Scale(|args|)) % TWO32;
    return Ok(img.(code := img.code + LeBytes(command) + ValuesBytes(lits)));
  }

  method SecondPass(p: Program, vars: Vars, eval: Eval, ops: OpTable) returns (r: Result<Image, Error>)
    ensures r == Run2(p, |p|, vars, eval, ops)
  {
    var img := Image(vars, []);
    for k := 0 to |p|
      invariant Run2(p, k, vars, eval, ops) == Ok(img)
    {
      var (loc, i) := p[k];
      match i {
        case Variable(n, e) =>
          var v := eval(e, img.vars, Some(loc));
          if v.Err? {
            Run2Stays(p, k + 1, |p|, vars, eval, ops);
            return Err(v.error);
          }
          img := img.(vars := img.vars[n := v.value]);
        case Location(e) =>
          var v := eval(e, img.vars, Some(loc));
          if v.Err? {
            Run2Stays(p, k + 1, |p|, vars, eval, ops);
            return Err(v.error);
          }
          if !v.value.Unsigned? {
            Run2Stays(p, k + 1, |p|, vars, eval, ops);
            return Err(Error(LocationNotUnsigned(ValueKind(v.value)), None));
          }
          var l := v.value.u;
          if l < |img.code| {
            Run2Stays(p, k + 1, |p|, vars, eval, ops);
            return Err(Error(CodePastLocation(l), None));
          }
          var code := img.code;
          ghost var start := |code|;
          while |code| < l
            invariant start <= |code| <= l
            invariant code == img.code + Zeros(|code| - start)
            decreases l - |code|
          {
            code := code + [0];
          }
          img := img.(code := code);
        case Label(_) =>
        case Command(cmd, args) =>
          var c := EncodeCommand(img, loc, cmd, args, eval, ops);
          if c.Err? {
            Run2Stays(p, k + 1, |p|, vars, eval, ops);
            return c;
          }
          img := c.value;
        case Data(d) =>
          var s := Step2(img, loc, i, eval, ops);
          if s.Err? {
            Run2Stays(p, k + 1, |p|, vars, eval, ops);
            return s;
          }
          img := s.value;
      }
    }
    return Ok(img);
  }

  /// `assemble` once the file is parsed: the layout pass, then the emitting
  /// pass with the variables and labels the first left.
  method Assemble(p: Program, eval: Eval, ops: OpTable) returns (r: Result<seq<u8>, Error>)
    ensures r == Assembled(p, eval, ops)
  {
    var l := FirstPass(p, eval);
    if l.Err? {
      return Err(l.error);
    }
    var img := SecondPass(p, l.value.vars, eval, ops);
    if img.Err? {
      return Err(img.error);
    }
    return Ok(img.value.code);
  }

  // ---------------------------------------------------------------------------
  // What the passes promise

  /// Every `@` location names a fixed address: its expression evaluates the
  /// same whatever the variables.
  ghost predicate FixedLocations(p: Program, eval: Eval)
  {
    forall k, v: Vars :: 0 <= k < |p| && p[k].1.Location? ==>
      eval(p[k].1.at, v, Some(p[k].0)) == eval(p[k].1.at, map[], Some(p[k].0))
  }

  /// Every string directive is shorter than 2^32 bytes.
  predicate ShortStrings(p: Program)
  {
    forall k :: 0 <= k < |p| && p[k].1.Data? && p[k].1.data.Ascii? ==> Utf8.Len(p[k].1.data.text) < TWO32
  }

  /// Instruction `i` (re)defines the name `n`.
  predicate Defines(i: Instruction, n: string)
  {
    (i.Variable? || i.Label?) && i.name == n
  }

  /// A prefix of a successful first pass succeeds, at an address no higher.
  lemma {:induction false} Run1Prefix(p: Program, j: nat, k: nat, eval: Eval)
    requires j <= k <= |p| && Run1(p, k, eval).Ok?
    ensures Run1(p, j, eval).Ok? && Run1(p, j, eval).value.addr <= Run1(p, k, eval).value.addr
    decreases k
  {
    if j < k {
      Run1Prefix(p, j, k - 1, eval);
    }
  }

  /// A prefix of a successful second pass succeeds, with a prefix of its code.
  lemma {:induction false} Run2Prefix(p: Program, j: nat, k: nat, vars: Vars, eval: Eval, ops: OpTable)
    requires j <= k <= |p| && Run2(p, k, vars, eval, ops).Ok?
    ensures Run2(p, j, vars, eval, ops).Ok?
    ensures Run2(p, j, vars, eval, ops).value.code <= Run2(p, k, vars, eval, ops).value.code
    decreases k
  {
    if j < k {
      Run2Prefix(p, j, k - 1, vars, eval, ops);
    }
  }

  /// One instruction moves the first pass's address by as many bytes as the
  /// second pass emits for it.
  lemma StepSizes(l: Layout, img: Image, loc: Loc, i: Instruction, eval: Eval, ops: OpTable)
    requires l.addr == |img.code|
    requires Step1(l, loc, i, eval).Ok? && Step2(img, loc, i, eval, ops).Ok?
    requires i.Location? ==> eval(i.at, l.vars, Some(loc)) == eval(i.at, img.vars, Some(loc))
    requires i.Data? && i.data.Ascii? ==> Utf8.Len(i.data.text) < TWO32
    ensures Step1(l, loc, i, eval).value.addr == |Step2(img, loc, i, eval, ops).value.code|
  {
    match i
    case Command(cmd, args) =>
      LitsCount(args, |args|, img.vars, eval, loc);
      assert args[..|args|] == args;
    case Data(d) =>
      if d.Ascii? {
        Utf8.EncodeLength(d.text);
      }
    case _ =>
  }

  /// With fixed locations (and strings of sane length), wherever both passes
  /// have got to, the first pass's address is the length of the code the
  /// second has emitted: the layout the labels were given is the layout
  /// written.
  lemma {:induction false} LayoutMatchesCode(p: Program, k: nat, vars: Vars, eval: Eval, ops: OpTable)
    requires k <= |p| && FixedLocations(p, eval) && ShortStrings(p)
    requires Run1(p, k, eval).Ok? && Run2(p, k, vars, eval, ops).Ok?
    ensures Run1(p, k, eval).value.addr == |Run2(p, k, vars, eval, ops).value.code|
  {
    if k > 0 {
      LayoutMatchesCode(p, k - 1, vars, eval, ops);
      var l, img := Run1(p, k - 1, eval).value, Run2(p, k - 1, vars, eval, ops).value;
      var (loc, i) := p[k - 1];
      if i.Location? {
        assert eval(i.at, l.vars, Some(loc)) == eval(i.at, map[], Some(loc)) == eval(i.at, img.vars, Some(loc));
      }
      StepSizes(l, img, loc, i, eval, ops);
    }
  }

  /// A name no later instruction defines keeps its value to the end of the
  /// first pass.
  lemma {:induction false} NameKept(p: Program, j: nat, k: nat, n: string, eval: Eval)
    requires j <= k <= |p| && Run1(p, k, eval).Ok?
    requires forall m :: j <= m < k ==> !Defines(p[m].1, n)
    requires Run1(p, j, eval).Ok? && n in Run1(p, j, eval).value.vars
    ensures n in Run1(p, k, eval).value.vars
    ensures Run1(p, k, eval).value.vars[n] == Run1(p, j, eval).value.vars[n]
    decreases k
  {
    if j < k {
      Run1Prefix(p, k - 1, k, eval);
      NameKept(p, j, k - 1, n, eval);
      assert !Defines(p[k - 1].1, n);
    }
  }

  /// A label that nothing later redefines ends the first pass holding the
  /// offset in the output at which the bytes after it start.
  lemma LabelMarksCode(p: Program, k: nat, vars: Vars, eval: Eval, ops: OpTable)
    requires k < |p| && p[k].1.Label? && FixedLocations(p, eval) && ShortStrings(p)
    requires forall m :: k < m < |p| ==> !Defines(p[m].1, p[k].1.name)
    requires Run1(p, |p|, eval).Ok? && Run2(p, k, vars, eval, ops).Ok?
    ensures p[k].1.name in Run1(p, |p|, eval).value.vars
    ensures var v := Run1(p, |p|, eval).value.vars[p[k].1.name];
      v.Unsigned? && v.u == |Run2(p, k, vars, eval, ops).value.code|
  {
    Run1Prefix(p, k + 1, |p|, eval);
    LayoutMatchesCode(p, k, vars, eval, ops);
    NameKept(p, k + 1, |p|, p[k].1.name, eval);
  }

  /// The first four bytes a command emits are the instruction word the VM
  /// splits back into the command's opcode and its operand fields.
  lemma CommandDecodes(p: Program, k: nat, vars: Vars, eval: Eval, ops: OpTable)
    requires k < |p| && p[k].1.Command? && Run2(p, k + 1, vars, eval, ops).Ok?
    requires p[k].1.command in ops && ops[p[k].1.command] < 0x800
    ensures var c, o := Run2(p, k + 1, vars, eval, ops).value.code, |Run2(p, k, vars, eval, ops).value.code|;
      var fs := Fields(p[k].1.args);
      o + 4 <= |c| && ThreadSpec.SplitInstr(FromLe(c[o], c[o + 1], c[o + 2], c[o + 3]))
        == (ops[p[k].1.command], Slot(fs, 0), Slot(fs, 1), Slot(fs, 2))
  {
    var img := Run2(p, k, vars, eval, ops).value;
    var args := p[k].1.args;
    var w := Leading(ops[p[k].1.command], Fields(args));
    var c := Run2(p, k + 1, vars, eval, ops).value.code;
    var o := |img.code|;
    assert c[o..o + 4] == LeBytes(w);
    LeRoundTrip(w);
    LeadingSplits(ops[p[k].1.command], Fields(args));
  }
}
