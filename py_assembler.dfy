/// The section-based assembler (assembler.py): `#name expr` binds a macro
/// variable, `~addr` opens a section at an address, every other line is an
/// instruction whose operands are evaluated on the spot; markers (`$`) are
/// resolved to addresses when their section closes, sections are sorted by address
/// and their entries written out as 32-bit words.
module PyAssembler {
  import opened Wrappers
  import opened Bits
  import opened PyText
  import opened PyNumber
  import opened Numerals
  import ThreadSpec
  import Disassembler
  import Text

  /// The lowest address a section may start at.
  const START_ADDR: int := 0x22000

  /// Why assembly stops. The first four are the script's own error messages and
  /// carry the zero-based index of the line (the message prints it plus one); the
  /// others are exceptions raised by Python or by the classes below.
  datatype Fault =
    | NoSuchVariable(line: nat, name: string)
    | NotUint(line: nat)
    | BelowStart(line: nat)
    | EvalFailed(line: nat)
    | MissingSpace
    | EmptyOperand
    | BadLiteral
    | NegativeUint
    | ZeroDivision
    | HereOutsideSection
    | NoSection
    | BadArgument(arg: string)
    | RegisterTooHigh(arg: string)
    | WordOverflow
    | ValueOverflow
    | Unresolved
    | NotEmittable

  // ---------------------------------------------------------------------------
  // The value classes

  /// Python's `a // b` on integers: the quotient rounded towards minus infinity.
  function FloorDiv(a: int, b: int): int
    requires b != 0
  {
    if b > 0 then a / b else (-a) / (-b)
  }

  /// The floor quotient is the largest `q` with `q * b <= a` (for a positive
  /// divisor; the inequalities turn round for a negative one).
  lemma FloorDivBounds(a: int, b: int)
    requires b != 0
    ensures var q := FloorDiv(a, b);
      if b > 0 then q * b <= a < q * b + b else q * b >= a > q * b + b
  {
    var q := FloorDiv(a, b);
    if b > 0 {
      assert a == q * b + a % b;
    } else {
      assert -a == q * (-b) + (-a) % (-b);
    }
  }

  /// `uint`: a mutable unsigned number. Every arithmetic operator changes the
  /// object itself and returns it, raising when the new value is negative (the
  /// value has changed by then).
  class Uint {
    var value: int

    constructor (v: int)
      ensures value == v
    {
      value := v;
    }

    method Add(other: int) returns (r: Result<Uint, Fault>)
      modifies this
      ensures value == old(value) + other
      ensures r == if value < 0 then Err(NegativeUint) else Ok(this)
    {
      value := value + other;
      r := if value < 0 then Err(NegativeUint) else Ok(this);
    }

    method Sub(other: int) returns (r: Result<Uint, Fault>)
      modifies this
      ensures value == old(value) - other
      ensures r == if value < 0 then Err(NegativeUint) else Ok(this)
    {
      value := value - other;
      r := if value < 0 then Err(NegativeUint) else Ok(this);
    }

    method Mul(other: int) returns (r: Result<Uint, Fault>)
      modifies this
      ensures value == old(value) * other
      ensures r == if value < 0 then Err(NegativeUint) else Ok(this)
    {
      value := value * other;
      r := if value < 0 then Err(NegativeUint) else Ok(this);
    }

    /// Division by zero raises before the value changes.
    method FloorDivide(other: int) returns (r: Result<Uint, Fault>)
      modifies this
      ensures other == 0 ==> value == old(value) && r == Err(ZeroDivision)
      ensures other != 0 ==> value == FloorDiv(old(value), other)
      ensures other != 0 ==> r == if value < 0 then Err(NegativeUint) else Ok(this)
    {
      if other == 0 {
        return Err(ZeroDivision);
      }
      value := FloorDiv(value, other);
      r := if value < 0 then Err(NegativeUint) else Ok(this);
    }
  }

  /// `Here`: a marker for the address of the point in a section where it was
  /// created, plus an offset that `+` and `-` shift in place. `resolved` is set
  /// when the section closes. Markers are only made by `Assembler.NewHere`, which
  /// also records them in the current section.
  class Here {
    var offset: int
    var resolved: Option<Uint>

    constructor ()
      ensures offset == 0 && resolved == None
    {
      offset := 0;
      resolved := None;
    }

    method Add(other: int) returns (r: Here)
      modifies this
      ensures offset == old(offset) + other && resolved == old(resolved) && r == this
    {
      offset := offset + other;
      r := this;
    }

    method Sub(other: int) returns (r: Here)
      modifies this
      ensures offset == old(offset) - other && resolved == old(resolved) && r == this
    {
      offset := offset - other;
      r := this;
    }
  }

  /// What an operand or a macro variable can hold: a Python int or str, a `uint`,
  /// a marker, the stack operand `!`, one of the two classes the variables start
  /// with, or any other Python object.
  datatype Obj =
    | IntObj(i: int)
    | StrObj(s: string)
    | UintObj(u: Uint)
    | HereObj(h: Here)
    | StackObj
    | ClassObj(name: string)
    | OtherObj

  /// One entry of a section: a marker's position, an instruction (its mnemonic
  /// and the register operands collected into it), or an operand that is written
  /// as a word of its own.
  datatype Entry =
    | Location(here: Here)
    | Command(mnemonic: string, args: seq<string>)
    | Operand(obj: Obj)

  /// A section: its start address and its entries.
  class Section {
    var addr: Uint
    var instructions: seq<Entry>

    constructor (addr: Uint)
      ensures this.addr == addr && instructions == []
    {
      this.addr := addr;
      instructions := [];
    }

    /// Laying out an instruction here: the command first, then each operand,
    /// a text joining the command and anything else following as an entry of
    /// its own.
    method LayOut(mnemonic: string, objs: seq<Obj>)
      modifies this
      ensures addr == old(addr) && instructions == old(instructions) + Layout(mnemonic, objs)
    {
      ghost var before := instructions;
      var idx := |instructions|;
      var texts: seq<string> := [];
      instructions := instructions + [Command(mnemonic, texts)];
      var k := 0;
      while k < |objs|
        invariant k <= |objs| && idx == |before| && texts == TextsOf(objs[..k])
        invariant addr == old(addr) && instructions == before + Layout(mnemonic, objs[..k])
      {
        LayoutSnoc(mnemonic, objs[..k], objs[k]);
        assert objs[..k + 1] == objs[..k] + [objs[k]];
        if objs[k].StrObj? {
          texts := texts + [objs[k].s];
          instructions := instructions[idx := Command(mnemonic, texts)];
        } else {
          instructions := instructions + [Operand(objs[k])];
        }
        k := k + 1;
      }
      assert objs[..k] == objs;
    }
  }

  // ---------------------------------------------------------------------------
  // Operands

  /// The shapes `eval_var` tells apart, looked at after stripping; a number
  /// carries what `int(.., base=0)` makes of its text (`None` where it raises).
  datatype Form =
    | StackForm
    | EmptyForm
    | TextForm(text: string)
    | VariableForm(name: string)
    | UintForm(value: Option<int>)
    | IntForm(value: Option<int>)

  /// `isnumeric` for one character, on the ASCII digits.
  predicate IsDigit(c: char)
  {
    '0' <= c <= '9'
  }

  /// How `eval_var` reads an operand: `!` is the stack, `%..` stays text, `@name`
  /// is a variable, a trailing `u` or a second character that is not a digit
  /// (as in `0x..`) makes a `uint`, and anything else is a plain int.
  function Classify(raw: string): (f: Form)
    ensures f.TextForm? ==> |f.text| > 0 && f.text[0] == '%'
  {
    FormOf(Strip(raw))
  }

  /// The form of an operand that is already stripped.
  function FormOf(v: string): (f: Form)
    ensures f.TextForm? ==> |f.text| > 0 && f.text[0] == '%'
  {
    if v == "!" then StackForm
    else if |v| == 0 then EmptyForm
    else if v[0] == '%' then TextForm(v)
    else if v[0] == '@' then VariableForm(v[1..])
    else if v[|v| - 1] == 'u' then UintForm(PyInt(v[..|v| - 1]))
    else if |v| > 2 && !IsDigit(v[1]) then UintForm(PyInt(v))
    else IntForm(PyInt(v))
  }

  /// Surrounding whitespace does not change what an operand is.
  lemma ClassifyStripped(raw: string)
    ensures Classify(Strip(raw)) == Classify(raw)
  {
    StripIdempotent(raw);
  }

  /// A prefixed literal (`0x..`, `0o..`, `0b..`) is a `uint` of its value: the
  /// literal rewriting of a `#` line relies on this.
  lemma PrefixedIsUint(m: string)
    requires IsLiteral(m)
    ensures Classify(m) == UintForm(Some(LiteralValue(m)))
  {
    assert PatternDigit(m[1], m[|m| - 1]);
    StripPlain(m);
    LiteralReads(m);
  }

  /// Decimal digits are a plain int.
  lemma DecimalIsInt(ds: string)
    requires |ds| > 0 && forall j :: 0 <= j < |ds| ==> IsDigit(ds[j])
    ensures Classify(ds) == IntForm(PyInt(ds))
  {
    assert IsDigit(ds[0]) && IsDigit(ds[|ds| - 1]);
    StripPlain(ds);
    assert |ds| > 2 ==> IsDigit(ds[1]);
  }

  /// Decimal digits followed by `u` are a `uint`.
  lemma DecimalUIsUint(ds: string)
    requires |ds| > 0 && forall j :: 0 <= j < |ds| ==> IsDigit(ds[j])
    ensures Classify(ds + "u") == UintForm(PyInt(ds))
  {
    var w := ds + "u";
    assert w[0] == ds[0] && IsDigit(w[0]) && w[|w| - 1] == 'u';
    StripPlain(w);
    assert w[..|w| - 1] == ds;
  }

  // ---------------------------------------------------------------------------
  // Markers and resolution

  /// How many of the first `c` entries are markers.
  function MarkersBefore(es: seq<Entry>, c: nat): (d: nat)
    requires c <= |es|
    ensures d <= c
  {
    if c == 0 then 0 else MarkersBefore(es, c - 1) + (if es[c - 1].Location? then 1 else 0)
  }

  /// The address the marker at position `c` stands for: the section's address
  /// plus the number of entries before it that are not markers.
  function MarkerAddress(addr: int, es: seq<Entry>, c: nat): int
    requires c <= |es|
  {
    addr + c - MarkersBefore(es, c)
  }

  /// A later marker never stands for a lower address, and one with a non-marker
  /// entry between them stands for a higher one.
  lemma {:induction false} MarkerAddressMonotone(addr: int, es: seq<Entry>, j: nat, k: nat)
    requires j <= k <= |es|
    ensures MarkerAddress(addr, es, j) <= MarkerAddress(addr, es, k)
    ensures (exists m :: j <= m < k && !es[m].Location?) ==> MarkerAddress(addr, es, j) < MarkerAddress(addr, es, k)
    decreases k - j
  {
    if j < k {
      MarkerAddressMonotone(addr, es, j, k - 1);
      if exists m :: j <= m < k && !es[m].Location? {
        var m :| j <= m < k && !es[m].Location?;
        if m < k - 1 {
          assert MarkerAddress(addr, es, j) < MarkerAddress(addr, es, k - 1);
        }
      }
    }
  }

  /// No marker is recorded twice.
  predicate DistinctMarkers(es: seq<Entry>)
  {
    forall i, j :: 0 <= i < j < |es| && es[i].Location? && es[j].Location? ==> es[i].here != es[j].here
  }

  function MarkersOf(es: seq<Entry>): set<Here>
  {
    set e | e in es && e.Location? :: e.here
  }

  /// The total that `resolve` as written adds to the section's address: each
  /// marker adds the number of non-marker entries before it.
  function AliasShift(es: seq<Entry>, c: nat): int
    requires c <= |es|
  {
    if c == 0 then 0
    else AliasShift(es, c - 1) + (if es[c - 1].Location? then (c - 1) - MarkersBefore(es, c - 1) else 0)
  }

  /// `resolve` as written: `section.addr + c - d` changes the section's own
  /// `uint` in place and hands that same object to every marker, so after the
  /// loop all markers read one value, the address shifted by `AliasShift`.
  method ResolveAsWritten(s: Section) returns (r: Result<(), Fault>)
    modifies s.addr, MarkersOf(s.instructions)
    ensures old(s.addr.value) >= 0 ==> r.Ok?
    ensures r.Ok? ==> s.addr.value == old(s.addr.value) + AliasShift(s.instructions, |s.instructions|)
    ensures r.Ok? ==> forall k :: 0 <= k < |s.instructions| && s.instructions[k].Location? ==>
      s.instructions[k].here.resolved == Some(s.addr)
  {
    var es := s.instructions;
    var u := s.addr;
    var d := 0;
    var c := 0;
    while c < |es|
      invariant c <= |es| && d == MarkersBefore(es, c)
      invariant u.value == old(u.value) + AliasShift(es, c)
      invariant forall k :: 0 <= k < c && es[k].Location? ==> es[k].here.resolved == Some(u)
      invariant AliasShift(es, c) >= 0
    {
      if es[c].Location? {
        var r1 := u.Add(c);
        if r1.Err? {
          return Err(NegativeUint);
        }
        var r2 := u.Sub(d);
        if r2.Err? {
          return Err(NegativeUint);
        }
        es[c].here.resolved := Some(u);
        d := d + 1;
      }
      c := c + 1;
    }
    return Ok(());
  }

  /// `resolve` as intended: every marker gets a `uint` of its own holding
  /// `MarkerAddress`; the section's address does not change.
  method Resolve(s: Section)
    requires DistinctMarkers(s.instructions)
    modifies MarkersOf(s.instructions)
    ensures Resolved(s)
    ensures forall k :: 0 <= k < |s.instructions| && s.instructions[k].Location? ==>
      var h := s.instructions[k].here;
      fresh(h.resolved.value) && h.offset == old(h.offset)
  {
    var es := s.instructions;
    var d := 0;
    var c := 0;
    while c < |es|
      invariant c <= |es| && d == MarkersBefore(es, c)
      invariant forall k :: 0 <= k < c && es[k].Location? ==>
        var h := es[k].here;
        h.resolved.Some? && fresh(h.resolved.value) && h.resolved.value.value == MarkerAddress(s.addr.value, es, k)
      invariant forall k :: 0 <= k < |es| && es[k].Location? ==> es[k].here.offset == old(es[k].here.offset)
    {
      if es[c].Location? {
        var u := new Uint(s.addr.value + c - d);
        es[c].here.resolved := Some(u);
        d := d + 1;
      }
      c := c + 1;
    }
  }

  /// A section at 0x22000 holding a marker, an instruction and a second marker.
  /// As written, both markers end up reading 0x22001 (the second's value), and
  /// the section itself moves to 0x22001; as intended they stand for 0x22000 and
  /// 0x22001.
  lemma AliasedMarkers(h1: Here, h2: Here, mnemonic: string)
    ensures var es := [Location(h1), Command(mnemonic, []), Location(h2)];
      && AliasShift(es, 3) == 1
      && MarkerAddress(START_ADDR, es, 0) == START_ADDR
      && MarkerAddress(START_ADDR, es, 2) == START_ADDR + 1
  {
    var es := [Location(h1), Command(mnemonic, []), Location(h2)];
    assert MarkersBefore(es, 1) == 1 && MarkersBefore(es, 2) == 1;
    assert AliasShift(es, 1) == 0 && AliasShift(es, 2) == 0;
    assert AliasShift(es, 3) == AliasShift(es, 2) + 1;
  }

  // ---------------------------------------------------------------------------
  // Operand evaluation

  /// The fault `eval_var` stops with for an operand of form `f`, if any: an
  /// empty operand, an unknown variable, or a number `int(.., base=0)` refuses.
  function OperandFault(f: Form, vars: map<string, Obj>, line: nat): (r: Option<Fault>)
    ensures r.Some? ==> r.value == EmptyOperand || r.value == BadLiteral || r.value.NoSuchVariable?
  {
    match f
    case EmptyForm => Some(EmptyOperand)
    case VariableForm(n) => if n in vars then None else Some(NoSuchVariable(line, n))
    case UintForm(v) => if v.Some? then None else Some(BadLiteral)
    case IntForm(v) => if v.Some? then None else Some(BadLiteral)
    case _ => None
  }

  /// `o` is what `eval_var` gives for an operand of form `f` with the variables
  /// `vars` (a `uint` it makes is a new object, which the evaluating method
  /// states).
  predicate Denotes(f: Form, vars: map<string, Obj>, o: Obj)
    reads if o.UintObj? then {o.u} else {}
  {
    match f
    case StackForm => o == StackObj
    case EmptyForm => false
    case TextForm(t) => o == StrObj(t)
    case VariableForm(n) => n in vars && o == vars[n]
    case UintForm(v) => v.Some? && o.UintObj? && o.u.value == v.value
    case IntForm(v) => v.Some? && o == IntObj(v.value)
  }

  /// Each object is what the operand of the same position denotes.
  predicate AllDenote(forms: seq<Form>, vars: map<string, Obj>, objs: seq<Obj>)
    reads set o | o in objs && o.UintObj? :: o.u
  {
    |objs| == |forms| && forall k :: 0 <= k < |forms| ==> Denotes(forms[k], vars, objs[k])
  }

  /// The form of each operand.
  function Forms(raws: seq<string>): (fs: seq<Form>)
    ensures |fs| == |raws| && forall k :: 0 <= k < |raws| ==> fs[k] == Classify(raws[k])
  {
    seq(|raws|, k requires 0 <= k < |raws| => Classify(raws[k]))
  }

  /// The fault of each operand, in order.
  function Faults(forms: seq<Form>, vars: map<string, Obj>, line: nat): (fs: seq<Option<Fault>>)
    ensures |fs| == |forms| && forall k :: 0 <= k < |forms| ==> fs[k] == OperandFault(forms[k], vars, line)
  {
    seq(|forms|, k requires 0 <= k < |forms| => OperandFault(forms[k], vars, line))
  }

  /// The first fault among several operands.
  function FirstFault(forms: seq<Form>, vars: map<string, Obj>, line: nat): Option<Fault>
  {
    FirstSome(Faults(forms, vars, line))
  }

  /// The first present value of a sequence of options.
  function FirstSome<T>(xs: seq<Option<T>>): Option<T>
  {
    if |xs| == 0 then None else if xs[0].Some? then xs[0] else FirstSome(xs[1..])
  }

  /// The search finds nothing exactly when every option is empty, and otherwise
  /// the value of the first one that is not.
  lemma {:induction false} FirstSomeFound<T>(xs: seq<Option<T>>)
    ensures FirstSome(xs).None? <==> forall k :: 0 <= k < |xs| ==> xs[k].None?
    ensures FirstSome(xs).Some? ==>
      exists k :: 0 <= k < |xs| && xs[k] == FirstSome(xs) && forall j :: 0 <= j < k ==> xs[j].None?
  {
    if |xs| > 0 && xs[0].None? {
      FirstSomeFound(xs[1..]);
      if FirstSome(xs).Some? {
        var k :| 0 <= k < |xs[1..]| && xs[1..][k] == FirstSome(xs) && forall j :: 0 <= j < k ==> xs[1..][j].None?;
        assert forall j :: 0 <= j < k + 1 ==> xs[j].None? by {
          forall j | 0 <= j < k + 1
            ensures xs[j].None?
          {
            if j > 0 {
              assert xs[j] == xs[1..][j - 1];
            }
          }
        }
      }
    }
  }

  /// An operand that denotes a `uint`: a literal one, or a variable holding one.
  predicate IsUintOperand(f: Form, vars: map<string, Obj>)
  {
    f.UintForm? || (f.VariableForm? && f.name in vars && vars[f.name].UintObj?)
  }

  // ---------------------------------------------------------------------------
  // Lines

  /// `#name expr` split at its first space into the name and the expression;
  /// `None` where the line has no space (the unpacking raises).
  function DefinitionParts(line: string): (r: Option<(string, string)>)
    requires |line| > 0
    ensures r.None? <==> ' ' !in line[1..]
    ensures r.Some? ==> ' ' !in r.value.0 && line[1..] == r.value.0 + " " + r.value.1
  {
    var rest := line[1..];
    match Text.IndexOf(rest, ' ')
    case None => None
    case Some(p) =>
      assert rest == rest[..p] + " " + rest[p + 1..];
      Some((rest[..p], rest[p + 1..]))
  }

  /// The text handed to `eval`: each `$` becomes a call `Here()`, and each
  /// prefixed literal becomes the `uint` it stands for.
  function Expanded(expr: string): (t: string)
  {
    RewriteLiteralsIntended(Replace(expr, '$', "Here()"))
  }

  /// What evaluating a `#` expression produces, as far as the assembler can see:
  /// it raises, or it makes `markers` new markers (`Here()` calls, in order)
  /// and yields a value.
  datatype Outcome = Raises | Yields(markers: nat, value: Yield)

  /// The value an expression yields: a plain int or str, a new `uint`, the
  /// `index`-th marker it made shifted by `shift`, the object a variable holds,
  /// that object with `delta` added (which changes a `uint` or a marker in
  /// place), or any other Python object.
  datatype Yield =
    | Number(n: int)
    | Text(t: string)
    | NewUint(v: int)
    | Marker(index: nat, shift: int)
    | Bound(name: string)
    | Shifted(name: string, delta: int)
    | Other

  /// Python's `eval` of an expression under the variables with the given names.
  type Evaluator = (string, set<string>) -> Outcome

  /// The instruction an instruction line lays out: the text operands (`%..`)
  /// join the command, every other operand follows it as an entry of its own.
  function Layout(mnemonic: string, objs: seq<Obj>): (es: seq<Entry>)
  {
    [Command(mnemonic, TextsOf(objs))] + OperandsOf(objs)
  }

  function TextsOf(objs: seq<Obj>): seq<string>
  {
    if |objs| == 0 then []
    else (if objs[0].StrObj? then [objs[0].s] else []) + TextsOf(objs[1..])
  }

  function OperandsOf(objs: seq<Obj>): (es: seq<Entry>)
    ensures forall e :: e in es ==> e.Operand? && !e.obj.StrObj?
  {
    if |objs| == 0 then []
    else (if objs[0].StrObj? then [] else [Operand(objs[0])]) + OperandsOf(objs[1..])
  }

  /// Every operand lands in exactly one place, so the entries after the command
  /// and the texts in it add up to the operands.
  lemma {:induction false} LayoutKeepsOperands(objs: seq<Obj>)
    ensures |TextsOf(objs)| + |OperandsOf(objs)| == |objs|
    ensures forall o :: o in objs && !o.StrObj? ==> Operand(o) in OperandsOf(objs)
    ensures forall t :: t in TextsOf(objs) ==> StrObj(t) in objs
  {
    if |objs| > 0 {
      LayoutKeepsOperands(objs[1..]);
    }
  }

  /// Objects held somewhere in `R`.
  predicate ObjIn(o: Obj, R: set<object>)
  {
    (o.UintObj? ==> o.u in R) && (o.HereObj? ==> o.h in R)
  }

  /// An entry whose marker, if it is one, is in `R`.
  predicate EntryIn(e: Entry, R: set<object>)
  {
    e.Location? ==> e.here in R
  }

  /// `o` is the value a definition binds for the yield `y`, with the variables
  /// `vars` as they were (a new `uint` or marker is a new object, which the
  /// defining method states).
  predicate Binds(y: Yield, vars: map<string, Obj>, o: Obj)
    reads if o.UintObj? then {o.u} else if o.HereObj? then {o.h} else {}
  {
    match y
    case Number(n) => o == IntObj(n)
    case Text(t) => o == StrObj(t)
    case NewUint(v) => o.UintObj? && o.u.value == v
    case Marker(_, d) => o.HereObj? && o.h.offset == d && o.h.resolved.None?
    case Bound(n) => n in vars && o == vars[n]
    case Shifted(n, d) => n in vars && o == (if vars[n].IntObj? then IntObj(vars[n].i + d) else vars[n])
    case Other => o == OtherObj
  }

  function Locations(hs: seq<Here>): (es: seq<Entry>)
    ensures |es| == |hs| && forall j :: 0 <= j < |hs| ==> es[j] == Location(hs[j])
  {
    seq(|hs|, j requires 0 <= j < |hs| => Location(hs[j]))
  }

  /// The value of an operand that denotes a `uint` (the variable's object holds
  /// it, or the literal does).
  function UintOperandValue(f: Form, vars: map<string, Obj>): int
    requires IsUintOperand(f, vars)
    reads if f.VariableForm? then {vars[f.name].u} else {}
  {
    if f.VariableForm? then vars[f.name].u.value else if f.value.Some? then f.value.value else 0
  }

  /// What an operand denotes is a `uint` exactly when the operand is one.
  lemma DenotesUint(f: Form, vars: map<string, Obj>, o: Obj)
    requires Denotes(f, vars, o)
    ensures o.UintObj? <==> IsUintOperand(f, vars)
    ensures o.UintObj? ==> o.u.value == UintOperandValue(f, vars)
  {
  }

  /// The `uint`s the markers among `es` have been resolved to.
  function AddressesOf(es: seq<Entry>): set<object>
    reads MarkersOf(es)
  {
    set e | e in es && e.Location? && e.here.resolved.Some? :: e.here.resolved.value
  }

  /// The marker at each position holds its intended address.
  ghost predicate Resolved(s: Section)
    reads s, s.addr, MarkersOf(s.instructions), AddressesOf(s.instructions)
  {
    forall k :: 0 <= k < |s.instructions| && s.instructions[k].Location? ==>
      var h := s.instructions[k].here;
      h.resolved.Some? && h.resolved.value.value == MarkerAddress(s.addr.value, s.instructions, k)
  }

  /// Adding one operand to an instruction: a text joins the command, anything
  /// else becomes the last entry.
  lemma LayoutSnoc(m: string, objs: seq<Obj>, o: Obj)
    ensures TextsOf(objs + [o]) == TextsOf(objs) + (if o.StrObj? then [o.s] else [])
    ensures OperandsOf(objs + [o]) == OperandsOf(objs) + (if o.StrObj? then [] else [Operand(o)])
    ensures Layout(m, objs + [o]) == Layout(m, objs)[0 := Command(m, TextsOf(objs + [o]))] + (if o.StrObj? then [] else [Operand(o)])
  {
    TextsSnoc(objs, o);
    OperandsSnoc(objs, o);
  }

  lemma {:induction false} TextsSnoc(objs: seq<Obj>, o: Obj)
    ensures TextsOf(objs + [o]) == TextsOf(objs) + (if o.StrObj? then [o.s] else [])
  {
    if |objs| > 0 {
      assert (objs + [o])[1..] == objs[1..] + [o];
      TextsSnoc(objs[1..], o);
    } else {
      assert objs + [o] == [o];
    }
  }

  lemma {:induction false} OperandsSnoc(objs: seq<Obj>, o: Obj)
    ensures OperandsOf(objs + [o]) == OperandsOf(objs) + (if o.StrObj? then [] else [Operand(o)])
  {
    if |objs| > 0 {
      assert (objs + [o])[1..] == objs[1..] + [o];
      OperandsSnoc(objs[1..], o);
    } else {
      assert objs + [o] == [o];
    }
  }

  /// Entries without markers added to a section keep its markers distinct.
  lemma DistinctAppend(es: seq<Entry>, more: seq<Entry>)
    requires DistinctMarkers(es) && forall e :: e in more ==> !e.Location?
    ensures DistinctMarkers(es + more)
  {
    assert forall j :: |es| <= j < |es + more| ==> (es + more)[j] == more[j - |es|];
  }

  /// The search over options stops at the first one present.
  lemma FirstSomeAt<T>(xs: seq<Option<T>>, k: nat)
    requires k < |xs| && xs[k].Some? && forall j :: 0 <= j < k ==> xs[j].None?
    ensures FirstSome(xs) == xs[k]
  {
    if k > 0 {
      FirstSomeAt(xs[1..], k - 1);
    }
  }

  /// The assembler's state: the macro variables, the sections in the order they
  /// were opened, and the section lines are added to.
  class Assembler {
    var vars: map<string, Obj>
    var sections: seq<Section>
    var current: Option<Section>
    ghost var Repr: set<object>

    ghost predicate Valid()
      reads this, sections
    {
      && (current.Some? ==> current.value in sections)
      && (forall s :: s in sections ==>
            s in Repr && DistinctMarkers(s.instructions) && forall e :: e in s.instructions ==> EntryIn(e, Repr))
      && (forall n :: n in vars ==> ObjIn(vars[n], Repr))
    }

    /// The variables start out holding the two classes; there are no sections.
    constructor ()
      ensures Valid() && fresh(Repr)
      ensures vars == map["Here" := ClassObj("Here"), "uint" := ClassObj("uint")]
      ensures sections == [] && current == None
    {
      vars := map["Here" := ClassObj("Here"), "uint" := ClassObj("uint")];
      sections := [];
      current := None;
      Repr := {};
    }

    function CurrentSet(): set<Section>
      reads this
    {
      if current.Some? then {current.value} else {}
    }

    /// `Here()`: a new marker with offset 0, recorded at the end of the current
    /// section; outside a section it raises.
    method NewHere() returns (r: Result<Here, Fault>)
      requires Valid()
      modifies this, CurrentSet()
      ensures Valid() && vars == old(vars) && sections == old(sections) && current == old(current)
      ensures current.None? ==> r == Err(HereOutsideSection) && Repr == old(Repr)
      ensures current.Some? ==>
        && r.Ok? && fresh(r.value) && r.value.offset == 0 && r.value.resolved.None?
        && current.value.instructions == old(current.value.instructions) + [Location(r.value)]
        && Repr == old(Repr) + {r.value}
    {
      if current.None? {
        return Err(HereOutsideSection);
      }
      var s := current.value;
      var h := new Here();
      assert forall e :: e in s.instructions && e.Location? ==> e.here != h;
      s.instructions := s.instructions + [Location(h)];
      Repr := Repr + {h};
      r := Ok(h);
    }

    /// `eval_var` once the operand's form is known: the object it stands for.
    method EvalForm(f: Form, line: nat) returns (r: Result<Obj, Fault>)
      ensures OperandFault(f, vars, line).Some? ==> r == Err(OperandFault(f, vars, line).value)
      ensures OperandFault(f, vars, line).None? <==> r.Ok?
      ensures r.Ok? ==> Denotes(f, vars, r.value)
      ensures r.Ok? && f.UintForm? ==> fresh(r.value.u)
    {
      match f
      case StackForm => r := Ok(StackObj);
      case EmptyForm => r := Err(EmptyOperand);
      case TextForm(t) => r := Ok(StrObj(t));
      case VariableForm(n) =>
        r := if n in vars then Ok(vars[n]) else Err(NoSuchVariable(line, n));
      case UintForm(v) =>
        if v.None? {
          return Err(BadLiteral);
        }
        var u := new Uint(v.value);
        r := Ok(UintObj(u));
      case IntForm(v) =>
        r := if v.Some? then Ok(IntObj(v.value)) else Err(BadLiteral);
    }

    /// `eval_var`: the object an operand stands for.
    method EvalVar(raw: string, line: nat) returns (r: Result<Obj, Fault>)
      ensures OperandFault(Classify(raw), vars, line).Some? ==> r == Err(OperandFault(Classify(raw), vars, line).value)
      ensures OperandFault(Classify(raw), vars, line).None? <==> r.Ok?
      ensures r.Ok? ==> Denotes(Classify(raw), vars, r.value)
      ensures r.Ok? && Classify(raw).UintForm? ==> fresh(r.value.u)
    {
      r := EvalForm(Classify(raw), line);
    }

    /// The objects the variables hold that an expression can change in place.
    function VarObjects(): set<object>
      reads this
    {
      (set n | n in vars && vars[n].UintObj? :: vars[n].u) + (set n | n in vars && vars[n].HereObj? :: vars[n].h)
    }

    /// `Here()` evaluated `n` times: `n` new markers recorded, in order, at the
    /// end of the current section.
    method NewHeres(n: nat) returns (r: Result<seq<Here>, Fault>)
      requires Valid()
      modifies this, CurrentSet()
      ensures Valid() && vars == old(vars) && sections == old(sections) && current == old(current)
      ensures n > 0 && current.None? ==> r == Err(HereOutsideSection)
      ensures fresh(Repr - old(Repr))
      ensures r.Ok? ==>
        && |r.value| == n && (n > 0 ==> current.Some?)
        && Repr == old(Repr) + (set h | h in r.value)
        && (forall j :: 0 <= j < n ==> fresh(r.value[j]) && r.value[j].offset == 0 && r.value[j].resolved.None?)
        && (current.Some? ==> current.value.instructions == old(current.value.instructions) + Locations(r.value))
    {
      var heres: seq<Here> := [];
      while |heres| < n
        invariant Valid() && vars == old(vars) && sections == old(sections) && current == old(current)
        invariant |heres| <= n && (|heres| > 0 ==> current.Some?)
        invariant Repr == old(Repr) + (set h | h in heres) && fresh(Repr - old(Repr))
        invariant forall j :: 0 <= j < |heres| ==> fresh(heres[j]) && heres[j].offset == 0 && heres[j].resolved.None?
        invariant current.Some? ==> current.value.instructions == old(current.value.instructions) + Locations(heres)
      {
        var h := NewHere();
        if h.Err? {
          return Err(HereOutsideSection);
        }
        assert (set x | x in heres + [h.value]) == (set x | x in heres) + {h.value};
        heres := heres + [h.value];
      }
      r := Ok(heres);
    }

    /// Binding `name` to the value an expression yielded, given the markers it
    /// made; shifting a variable's `uint` or marker changes that object.
    method Bind(name: string, y: Yield, heres: seq<Here>, i: nat) returns (r: Result<(), Fault>)
      requires Valid()
      requires forall j :: 0 <= j < |heres| ==> heres[j] in Repr && heres[j].offset == 0 && heres[j].resolved.None?
      modifies this, (set h | h in heres), VarObjects()
      ensures Valid() && fresh(Repr - old(Repr)) && sections == old(sections) && current == old(current)
      ensures r.Ok? ==>
        && name in vars && vars == old(vars)[name := vars[name]] && Binds(y, old(vars), vars[name])
        && (y.NewUint? ==> fresh(vars[name].u))
        && (y.Marker? ==> y.index < |heres| && vars[name].h == heres[y.index])
      ensures r.Ok? && y.Shifted? && old(vars)[y.name].UintObj? ==>
        old(vars)[y.name].u.value == old(vars[y.name].u.value) + y.delta
      ensures r.Ok? && y.Shifted? && old(vars)[y.name].HereObj? ==>
        old(vars)[y.name].h.offset == old(vars[y.name].h.offset) + y.delta
      ensures (y.Bound? || y.Shifted?) && y.name !in old(vars) ==> r == Err(EvalFailed(i))
    {
      var obj: Obj;
      match y {
        case Number(n) => obj := IntObj(n);
        case Text(t) => obj := StrObj(t);
        case NewUint(v) =>
          var u := new Uint(v);
          Repr := Repr + {u};
          obj := UintObj(u);
        case Marker(j, d) =>
          if j >= |heres| {
            return Err(EvalFailed(i));
          }
          var h := heres[j].Add(d);
          obj := HereObj(h);
        case Bound(n) =>
          if n !in vars {
            return Err(EvalFailed(i));
          }
          obj := vars[n];
        case Shifted(n, d) =>
          if n !in vars {
            return Err(EvalFailed(i));
          }
          match vars[n] {
            case IntObj(x) => obj := IntObj(x + d);
            case UintObj(u) =>
              var sum := u.Add(d);
              if sum.Err? {
                return Err(EvalFailed(i));
              }
              obj := vars[n];
            case HereObj(h) =>
              var h' := h.Add(d);
              obj := vars[n];
            case _ => return Err(EvalFailed(i));
          }
        case Other => obj := OtherObj;
      }
      vars := vars[name := obj];
      r := Ok(());
    }

    /// A `#name expr` line: evaluate the expanded expression and bind the name.
    /// The markers the expression makes are recorded in the current section
    /// first; any exception during evaluation stops assembly at this line.
    method Define(line: string, i: nat, eval: Evaluator) returns (r: Result<(), Fault>)
      requires Valid() && |line| > 0
      modifies this, Repr
      ensures Valid() && fresh(Repr - old(Repr))
      ensures sections == old(sections) && current == old(current)
      ensures DefinitionParts(line).None? ==> r == Err(MissingSpace)
      ensures DefinitionParts(line).Some? && eval(Expanded(DefinitionParts(line).value.1), old(vars).Keys).Raises? ==>
        r == Err(EvalFailed(i))
      ensures r.Ok? ==>
        && DefinitionParts(line).Some?
        && var name := DefinitionParts(line).value.0;
        && var out := eval(Expanded(DefinitionParts(line).value.1), old(vars).Keys);
        && out.Yields? && name in vars && vars == old(vars)[name := vars[name]]
        && Binds(out.value, old(vars), vars[name])
        && (out.markers > 0 ==> current.Some?)
        && (current.Some? ==>
              && |current.value.instructions| == |old(current.value.instructions)| + out.markers
              && current.value.instructions[..|old(current.value.instructions)|] == old(current.value.instructions)
              && forall j :: |old(current.value.instructions)| <= j < |current.value.instructions| ==>
                   current.value.instructions[j].Location? && fresh(current.value.instructions[j].here))
    {
      var parts := DefinitionParts(line);
      if parts.None? {
        return Err(MissingSpace);
      }
      var out := eval(Expanded(parts.value.1), vars.Keys);
      if out.Raises? {
        return Err(EvalFailed(i));
      }
      var heres := NewHeres(out.markers);
      if heres.Err? {
        return Err(EvalFailed(i));
      }
      r := Bind(parts.value.0, out.value, heres.value, i);
    }
      /// The operand of a `~addr` line: a `uint` at or above `START_ADDR`.
    method SectionStart(raw: string, i: nat) returns (r: Result<Uint, Fault>)
      ensures var f := Classify(raw);
        && (OperandFault(f, vars, i).Some? ==> r == Err(OperandFault(f, vars, i).value))
        && (OperandFault(f, vars, i).None? && !IsUintOperand(f, vars) ==> r == Err(NotUint(i)))
        && (OperandFault(f, vars, i).None? && IsUintOperand(f, vars) ==>
              r.Ok? == (UintOperandValue(f, vars) >= START_ADDR) && (r.Err? ==> r.error == BelowStart(i)))
        && (r.Ok? ==> Denotes(f, vars, UintObj(r.value)) && r.value.value >= START_ADDR)
      ensures r.Ok? ==> fresh(r.value) || r.value in VarObjects()
    {
      var a := EvalVar(raw, i);
      if a.Err? {
        return Err(a.error);
      }
      DenotesUint(Classify(raw), vars, a.value);
      if !a.value.UintObj? {
        return Err(NotUint(i));
      }
      var u := a.value.u;
      if u.value < START_ADDR {
        return Err(BelowStart(i));
      }
      r := Ok(u);
    }

    /// A new section at `addr` becomes current, after the section that was
    /// current has been resolved.
    method PushSection(addr: Uint) returns (s: Section)
      requires Valid() && addr.value >= START_ADDR
      modifies this, Repr
      ensures Valid() && fresh(Repr - old(Repr)) && vars == old(vars)
      ensures fresh(s) && s.addr == addr && s.instructions == [] && addr.value == old(addr.value)
      ensures sections == old(sections) + [s] && current == Some(s)
      ensures old(current).Some? ==> Resolved(old(current).value)
    {
      s := new Section(addr);
      if current.Some? {
        Resolve(current.value);
      }
      sections := sections + [s];
      Repr := Repr + {s};
      current := Some(s);
    }

    /// A `~addr` line: the operand must be a `uint` at or above `START_ADDR`; a
    /// new section starts there, the section that was current is resolved, and
    /// the new one becomes current.
    method OpenSection(line: string, i: nat) returns (r: Result<(), Fault>)
      requires Valid() && |line| > 0
      modifies this, Repr
      ensures Valid() && fresh(Repr - old(Repr)) && vars == old(vars)
      ensures var f := Classify(line[1..]);
        && (OperandFault(f, vars, i).Some? ==> r == Err(OperandFault(f, vars, i).value))
        && (OperandFault(f, vars, i).None? && !IsUintOperand(f, vars) ==> r == Err(NotUint(i)))
        && (OperandFault(f, vars, i).None? && IsUintOperand(f, vars) ==>
              r.Ok? == (old(UintOperandValue(f, vars)) >= START_ADDR) && (r.Err? ==> r.error == BelowStart(i)))
      ensures r.Err? ==> sections == old(sections) && current == old(current)
      ensures r.Ok? ==>
        && |sections| == |old(sections)| + 1 && sections[..|old(sections)|] == old(sections)
        && current == Some(sections[|old(sections)|]) && fresh(current.value)
        && current.value.instructions == [] && current.value.addr.value >= START_ADDR
        && Denotes(Classify(line[1..]), vars, UintObj(current.value.addr))
      ensures r.Ok? && old(current).Some? ==> Resolved(old(current).value)
    {
      var a := SectionStart(line[1..], i);
      if a.Err? {
        return Err(a.error);
      }
      var s := PushSection(a.value);
      r := Ok(());
    }

    /// The operands of an instruction line, evaluated in order; the first that
    /// fails stops the line.
    method EvalOperands(forms: seq<Form>, i: nat) returns (r: Result<seq<Obj>, Fault>)
      ensures r.Err? <==> FirstFault(forms, vars, i).Some?
      ensures r.Err? ==> r.error == FirstFault(forms, vars, i).value
      ensures r.Ok? ==> AllDenote(forms, vars, r.value)
    {
      ghost var faults := Faults(forms, vars, i);
      var objs: seq<Obj> := [];
      while |objs| < |forms|
        invariant |objs| <= |forms|
        invariant forall j :: 0 <= j < |objs| ==> Denotes(forms[j], vars, objs[j]) && faults[j].None?
      {
        var o := EvalForm(forms[|objs|], i);
        if o.Err? {
          FirstSomeAt(faults, |objs|);
          return Err(o.error);
        }
        objs := objs + [o.value];
      }
      FirstSomeFound(faults);
      r := Ok(objs);
    }

    /// Laying out an instruction in the current section: the command first,
    /// then each operand, a text joining the command and anything else
    /// following as an entry of its own.
    method LayOut(mnemonic: string, objs: seq<Obj>)
      requires Valid() && current.Some?
      modifies current.value
      ensures Valid() && current.value.instructions == old(current.value.instructions) + Layout(mnemonic, objs)
    {
      ghost var before := current.value.instructions;
      current.value.LayOut(mnemonic, objs);
      DistinctAppend(before, Layout(mnemonic, objs));
    }

    /// An instruction line: the first word is the mnemonic, every further word
    /// an operand; outside a section the line raises before any operand is read.
    method Instruction(line: string, i: nat) returns (r: Result<(), Fault>, ghost objs: seq<Obj>)
      requires Valid() && |Words(line)| > 0
      modifies CurrentSet()
      ensures Valid()
      ensures current.None? ==> r == Err(NoSection)
      ensures current.Some? ==> (r.Err? <==> FirstFault(Forms(Words(line)[1..]), vars, i).Some?)
      ensures current.Some? && r.Err? ==> r.error == FirstFault(Forms(Words(line)[1..]), vars, i).value
      ensures r.Ok? ==>
        && current.Some? && AllDenote(Forms(Words(line)[1..]), vars, objs)
        && current.value.instructions == old(current.value.instructions) + Layout(Words(line)[0], objs)
    {
      objs := [];
      if current.None? {
        return Err(NoSection), objs;
      }
      var args := Words(line);
      var forms := Forms(args[1..]);
      var ops := EvalOperands(forms, i);
      if ops.Err? {
        return Err(ops.error), objs;
      }
      objs := ops.value;
      LayOut(args[0], ops.value);
      r := Ok(());
    }

    /// One non-blank stripped line: a `#` line defines a variable, a `~` line
    /// opens a section and any other line is an instruction.
    method Line(line: string, i: nat, eval: Evaluator) returns (r: Result<(), Fault>)
      requires Valid() && |line| > 0 && !IsSpace(line[0])
      modifies this, Repr
      ensures Valid() && fresh(Repr - old(Repr)) && old(sections) <= sections
      ensures r.Ok? ==> |sections| == |old(sections)| + (if line[0] == '~' then 1 else 0)
    {
      if line[0] == '#' {
        r := Define(line, i, eval);
      } else if line[0] == '~' {
        r := OpenSection(line, i);
      } else {
        assert StripStart(line) == line;
        ghost var objs;
        r, objs := Instruction(line, i);
      }
    }

    /// One line as read: stripped, and skipped when nothing is left.
    method RawLine(raw: string, i: nat, eval: Evaluator) returns (r: Result<(), Fault>)
      requires Valid()
      modifies this, Repr
      ensures Valid() && fresh(Repr - old(Repr)) && old(sections) <= sections
      ensures r.Ok? ==> |sections| == |old(sections)| + (if IsSectionLine(raw) then 1 else 0)
    {
      var line := Strip(raw);
      r := Ok(());
      if |line| > 0 {
        r := Line(line, i, eval);
      }
    }

    /// The lines of the program in turn, each stripped, blank ones skipped; the
    /// first line that raises stops assembly.
    method ParseLines(lines: seq<string>, eval: Evaluator) returns (r: Result<(), Fault>)
      requires Valid()
      modifies this, Repr
      ensures Valid() && fresh(Repr - old(Repr)) && old(sections) <= sections
      ensures r.Ok? ==> |sections| == |old(sections)| + SectionLines(lines)
    {
      var i := 0;
      ghost var opens := 0;
      while i < |lines|
        invariant i <= |lines| && Valid() && fresh(Repr - old(Repr))
        invariant old(sections) <= sections && |sections| == |old(sections)| + opens
        invariant opens == SectionLines(lines[..i])
      {
        SectionLinesSnoc(lines, i);
        var res := RawLine(lines[i], i, eval);
        if res.Err? {
          return res;
        }
        opens := opens + if IsSectionLine(lines[i]) then 1 else 0;
        i := i + 1;
      }
      assert lines[..i] == lines;
      r := Ok(());
    }

    /// After the last line, the section still open is resolved.
    method ResolveLast()
      requires Valid()
      modifies Repr
      ensures Valid() && unchanged(this)
      ensures old(current).Some? ==> Resolved(old(current).value)
    {
      if current.Some? {
        Resolve(current.value);
      }
    }

    /// The sections sorted by start address, equal addresses keeping their
    /// order (`order`, by `keys`), and what each entry of the sorted sections
    /// holds (`snap`). Writing changes nothing, so `snap` is what the emitter
    /// sees.
    method Arrangement() returns (keys: seq<int>, order: seq<nat>, snap: seq<seq<Item>>)
      ensures keys == Keys(sections) && order == SortOrder(keys, |sections|)
      ensures multiset(order) == multiset(Upto(|keys|)) && Ascending(keys, order)
      ensures snap == Snapshot(Contents(Arrange(sections, order)))
    {
      keys := Keys(sections);
      order := SortOrder(keys, |sections|);
      SortOrderPermutes(keys, |sections|);
      SortOrderAscending(keys, |sections|);
      snap := Snapshot(Contents(Arrange(sections, order)));
    }

    /// The output: the sections arranged by address, then written in that order.
    method Output() returns (r: Result<seq<u8>, Fault>, ghost keys: seq<int>, ghost order: seq<nat>,
                             ghost snap: seq<seq<Item>>)
      ensures keys == Keys(sections) && order == SortOrder(keys, |sections|)
      ensures multiset(order) == multiset(Upto(|keys|)) && InRange(order, |keys|) && Ascending(keys, order)
      ensures snap == Snapshot(Contents(Arrange(sections, order)))
      ensures r == ItemsBytes(Flatten(snap))
    {
      var ks, ord, items := Arrangement();
      keys, order, snap := ks, ord, items;
      assert Arranged(ks, ord, items);
      r := Emit(items);
      assert Arranged(ks, ord, items);
    }

    /// What `Arrangement` promises, as one fact about the current heap.
    ghost predicate Arranged(keys: seq<int>, order: seq<nat>, snap: seq<seq<Item>>)
      reads *
    {
      && keys == Keys(sections) && order == SortOrder(keys, |sections|)
      && multiset(order) == multiset(Upto(|keys|)) && InRange(order, |keys|) && Ascending(keys, order)
      && snap == Snapshot(Contents(Arrange(sections, order)))
    }

    /// The whole program: the lines, the last resolve, then the output in
    /// section order; `assembled` says every line was accepted.
    method Run(lines: seq<string>, eval: Evaluator)
      returns (r: Result<seq<u8>, Fault>, ghost assembled: bool,
               ghost keys: seq<int>, ghost order: seq<nat>, ghost snap: seq<seq<Item>>)
      requires Valid()
      modifies this, Repr
      ensures Valid() && fresh(Repr - old(Repr)) && old(sections) <= sections
      ensures !assembled ==> r.Err?
      ensures assembled ==>
        && |sections| == |old(sections)| + SectionLines(lines)
        && keys == Keys(sections) && order == SortOrder(keys, |sections|)
        && multiset(order) == multiset(Upto(|keys|)) && InRange(order, |keys|) && Ascending(keys, order)
        && snap == Snapshot(Contents(Arrange(sections, order)))
        && r == ItemsBytes(Flatten(snap))
    {
      assembled, keys, order, snap := false, [], [], [];
      var parsed := ParseLines(lines, eval);
      if parsed.Err? {
        return Err(parsed.error), assembled, keys, order, snap;
      }
      ResolveLast();
      assembled := true;
      r, keys, order, snap := Output();
    }
  }

  /// A line that opens a section: `~` first once stripped.
  predicate IsSectionLine(raw: string)
  {
    var t := Strip(raw); |t| > 0 && t[0] == '~'
  }

  /// How many of the lines open a section.
  function SectionLines(lines: seq<string>): nat
  {
    if |lines| == 0 then 0
    else SectionLines(lines[..|lines| - 1]) + (if IsSectionLine(lines[|lines| - 1]) then 1 else 0)
  }

  lemma SectionLinesSnoc(lines: seq<string>, i: nat)
    requires i < |lines|
    ensures SectionLines(lines[..i + 1]) == SectionLines(lines[..i]) + (if IsSectionLine(lines[i]) then 1 else 0)
  {
    assert lines[..i + 1][..i] == lines[..i];
  }

  // ---------------------------------------------------------------------------
  // Emission

  /// The top eleven bits of every command word, `11111111000`.
  const COMMAND_OPCODE: int := 0x7F8
  const COMMAND_PREFIX: string := Disassembler.Binary(COMMAND_OPCODE, 11)

  /// The register letters, in the order the emitter numbers them.
  const LETTERS: string := "SILCF"

  /// `%` followed by ASCII digits only (`arg[1:].isnumeric()`).
  predicate IsRegisterNumber(arg: string)
  {
    |arg| > 1 && arg[0] == '%' && forall k :: 1 <= k < |arg| ==> IsDigit(arg[k])
  }

  /// `int(arg[1:])` for a register number.
  function RegisterNumber(arg: string): nat
    requires IsRegisterNumber(arg)
  {
    assert forall k :: 0 <= k < |arg[1..]| ==> arg[1..][k] == arg[k + 1];
    DigitsValueDefined(arg[1..], 10);
    DigitsValue(arg[1..], 10).value
  }

  /// The seven bits one collected operand of a command takes: `!` is 64, `%n`
  /// is `n` up to 48, a register letter is `letterBase` plus its place in
  /// `LETTERS`; anything else raises.
  function ArgFieldFrom(arg: string, letterBase: nat): (r: Result<ThreadSpec.Field, Fault>)
    requires letterBase <= 48
  {
    if arg == "!" then Ok(64)
    else if |arg| == 0 then Err(EmptyOperand)
    else if IsRegisterNumber(arg) then
      var n := RegisterNumber(arg);
      if n > 48 then Err(RegisterTooHigh(arg)) else Ok(n)
    else if |arg| == 2 && arg[0] == '%' && arg[1] in LETTERS then
      Ok(letterBase + Text.IndexOf(LETTERS, arg[1]).value)
    else Err(BadArgument(arg))
  }

  /// The emitter as written numbers the letters from 0.
  function ArgFieldAsWritten(arg: string): (r: Result<ThreadSpec.Field, Fault>)
  {
    ArgFieldFrom(arg, 0)
  }

  /// The emitter as intended numbers the letters from 48, where the
  /// disassembler and the debugger look for them.
  function ArgField(arg: string): (r: Result<ThreadSpec.Field, Fault>)
  {
    ArgFieldFrom(arg, 48)
  }

  /// A register written in decimal packs as its number up to 48 and raises above.
  lemma RegisterField(n: nat)
    ensures n <= 48 ==> ArgField("%" + Digits(n, 10)) == Ok(n)
    ensures n > 48 ==> ArgField("%" + Digits(n, 10)) == Err(RegisterTooHigh("%" + Digits(n, 10)))
  {
    var arg := "%" + Digits(n, 10);
    SmallRadixDigits(n, 10);
    assert arg[1..] == Digits(n, 10);
    DigitsRoundTrip(n, 10);
    assert IsRegisterNumber(arg);
  }

  /// The place of each register letter.
  lemma LetterIndex(k: nat)
    requires k < |LETTERS|
    ensures Text.IndexOf(LETTERS, LETTERS[k]) == Some(k)
  {
    var i := Text.IndexOf(LETTERS, LETTERS[k]);
    assert i.Some?;
  }

  /// A register letter packs as the base plus its place.
  lemma LetterFieldFrom(k: nat, letterBase: nat)
    requires k < |LETTERS| && letterBase <= 48
    ensures ArgFieldFrom(['%', LETTERS[k]], letterBase) == Ok(letterBase + k)
  {
    LetterIndex(k);
    var arg := ['%', LETTERS[k]];
    assert !IsDigit(arg[1]);
  }

  /// As written, `%S` .. `%F` pack as 0 .. 4, which the disassembler reads back
  /// as the numbered registers `%00` .. `%04`, not as the letter.
  lemma LetterFieldAsWritten(k: nat)
    requires k < |LETTERS|
    ensures ArgFieldAsWritten(['%', LETTERS[k]]) == Ok(k)
    ensures Disassembler.OperandText(Disassembler.Binary(k, 7)) == Some(['%', '0', Disassembler.HexDigit(k)])
    ensures Disassembler.OperandText(Disassembler.Binary(k, 7)) != Some(['%', LETTERS[k]])
  {
    LetterFieldFrom(k, 0);
    SmallFieldText(k);
  }

  /// A field below 16 reads back as `%0` and its hex digit.
  lemma SmallFieldText(k: nat)
    requires k < 16
    ensures Disassembler.OperandText(Disassembler.Binary(k, 7)) == Some(['%', '0', Disassembler.HexDigit(k)])
  {
    Disassembler.OperandNaming(k);
    assert k / 16 == 0 && k % 16 == k;
    assert Disassembler.HexDigit(0) == '0';
  }

  /// As intended, `%S` .. `%F` pack as 48 .. 52, which the disassembler reads
  /// back as the same letter.
  lemma LetterFieldRoundTrip(k: nat)
    requires k < |LETTERS|
    ensures ArgField(['%', LETTERS[k]]) == Ok(48 + k)
    ensures Disassembler.OperandText(Disassembler.Binary(48 + k, 7)) == Some(['%', LETTERS[k]])
  {
    LetterFieldFrom(k, 48);
    Disassembler.OperandNaming(48 + k);
  }

  /// The fields of all operands, or the fault of the first that has none.
  function ArgFields(args: seq<string>): (r: Result<seq<ThreadSpec.Field>, Fault>)
    ensures r.Ok? <==> forall k :: 0 <= k < |args| ==> ArgField(args[k]).Ok?
    ensures r.Ok? ==> |r.value| == |args| && forall k :: 0 <= k < |args| ==> ArgField(args[k]) == Ok(r.value[k])
    ensures r.Err? ==> exists k ::
      && 0 <= k < |args| && ArgField(args[k]) == Err(r.error)
      && forall j :: 0 <= j < k ==> ArgField(args[j]).Ok?
  {
    if |args| == 0 then Ok([])
    else
      var init := args[..|args| - 1];
      assert forall k :: 0 <= k < |init| ==> init[k] == args[k];
      match ArgFields(init)
      case Err(e) => Err(e)
      case Ok(fs) =>
        match ArgField(args[|args| - 1])
        case Err(e) => Err(e)
        case Ok(f) => Ok(fs + [f])
  }

  /// The first operand without a field decides the fault.
  lemma ArgFieldsStop(args: seq<string>, k: nat)
    requires k < |args| && ArgFields(args[..k]).Ok? && ArgField(args[k]).Err?
    ensures ArgFields(args) == Err(ArgField(args[k]).error)
  {
    assert forall j :: 0 <= j < k ==> args[..k][j] == args[j];
    var r := ArgFields(args);
    var m :| 0 <= m < |args| && ArgField(args[m]) == Err(r.error) && forall j :: 0 <= j < m ==> ArgField(args[j]).Ok?;
    assert m == k;
  }

  /// The field at `k`, zero past the end.
  function FieldOr0(fs: seq<ThreadSpec.Field>, k: nat): ThreadSpec.Field
  {
    if k < |fs| then fs[k] else 0
  }

  /// The command word of an instruction: the prefix, then seven bits for each of
  /// at most three operands, the missing ones zero, written big-endian; a fourth
  /// operand no longer fits in four bytes. The mnemonic takes no part.
  function CommandWord(args: seq<string>): (r: Result<seq<u8>, Fault>)
    ensures r.Ok? ==> |args| <= 3 && |r.value| == 4
  {
    match ArgFields(args)
    case Err(e) => Err(e)
    case Ok(fs) =>
      if |fs| > 3 then Err(WordOverflow)
      else Ok(BeBytes(ThreadSpec.JoinInstr(COMMAND_OPCODE, FieldOr0(fs, 0), FieldOr0(fs, 1), FieldOr0(fs, 2))))
  }

  /// Read back as a word, a command word splits into the opcode 0x7F8 and the
  /// fields of its operands, the missing ones zero.
  lemma CommandWordDecodes(args: seq<string>)
    requires CommandWord(args).Ok?
    ensures var b := CommandWord(args).value;
      && |args| <= 3 && |b| == 4
      && ThreadSpec.SplitInstr(FromBe(b[0], b[1], b[2], b[3]))
         == (COMMAND_OPCODE, FieldOr0(ArgFields(args).value, 0), FieldOr0(ArgFields(args).value, 1),
             FieldOr0(ArgFields(args).value, 2))
  {
    var fs := ArgFields(args).value;
    var w := ThreadSpec.JoinInstr(COMMAND_OPCODE, FieldOr0(fs, 0), FieldOr0(fs, 1), FieldOr0(fs, 2));
    BeRoundTrip(w);
    ThreadSpec.SplitJoin(COMMAND_OPCODE, FieldOr0(fs, 0), FieldOr0(fs, 1), FieldOr0(fs, 2));
  }

  /// The bits of the command word so far, read as a number.
  function Packed(fs: seq<ThreadSpec.Field>): nat
  {
    if |fs| == 0 then COMMAND_OPCODE else Packed(fs[..|fs| - 1]) * 0x80 + fs[|fs| - 1]
  }

  /// `'0' * n`.
  function Zeros(n: nat): (s: string)
    ensures |s| == n && forall k :: 0 <= k < n ==> s[k] == '0'
  {
    seq(n, k => '0')
  }

  lemma {:induction false} ZerosValue(n: nat)
    ensures Disassembler.BitsValue(Zeros(n)) == 0
  {
    if n > 0 {
      assert Zeros(n)[..n - 1] == Zeros(n - 1);
      ZerosValue(n - 1);
    }
  }

  /// Up to three fields, zero-filled to 32 bits, give the word `JoinInstr` makes.
  lemma PackedJoin(fs: seq<ThreadSpec.Field>)
    requires |fs| <= 3
    ensures Packed(fs) * Pow2(21 - 7 * |fs|)
      == ThreadSpec.JoinInstr(COMMAND_OPCODE, FieldOr0(fs, 0), FieldOr0(fs, 1), FieldOr0(fs, 2))
  {
    Disassembler.Pow2Table();
    assert Pow2(14) == 0x4000 && Pow2(21) == 0x20_0000;
    if |fs| >= 1 {
      assert fs[..1][..0] == fs[..0];
    }
    if |fs| >= 2 {
      assert fs[..2][..1] == fs[..1];
    }
    if |fs| == 3 {
      assert fs[..3] == fs;
    }
  }

  /// Four or more fields no longer fit in 32 bits.
  lemma {:induction false} PackedLarge(fs: seq<ThreadSpec.Field>)
    requires |fs| >= 4
    ensures Packed(fs) >= TWO32
  {
    if |fs| == 4 {
      assert fs[..3][..2] == fs[..2] && fs[..2][..1] == fs[..1] && fs[..1][..0] == [];
      assert Packed(fs[..1]) >= 0x7F8 * 0x80;
      assert Packed(fs[..2]) >= 0x7F8 * 0x4000;
      assert Packed(fs[..3]) >= 0x7F8 * 0x20_0000;
    } else {
      PackedLarge(fs[..|fs| - 1]);
    }
  }

  /// One more operand packed: its field joins the list and its seven bits the
  /// bit string.
  lemma PackStep(args: seq<string>, k: nat, fs: seq<ThreadSpec.Field>, b: string, f: ThreadSpec.Field)
    requires k < |args| && ArgFields(args[..k]) == Ok(fs) && ArgField(args[k]) == Ok(f)
    requires Disassembler.BitsValue(b) == Packed(fs)
    ensures ArgFields(args[..k + 1]) == Ok(fs + [f])
    ensures Disassembler.BitsValue(b + Disassembler.Binary(f, 7)) == Packed(fs + [f])
  {
    assert args[..k + 1][..k] == args[..k];
    Disassembler.BitsConcat(b, Disassembler.Binary(f, 7));
    Disassembler.BinaryValue(f, 7);
    Disassembler.Pow2Table();
    assert (fs + [f])[..|fs|] == fs;
  }

  /// The bit string of all operands, zero-filled to 32 bits, is the word
  /// `JoinInstr` makes of up to three fields, and too wide for four bytes past
  /// three.
  lemma PackEnd(fs: seq<ThreadSpec.Field>, b: string)
    requires |b| == 11 + 7 * |fs| && Disassembler.BitsValue(b) == Packed(fs)
    ensures var p := if |b| < 32 then b + Zeros(32 - |b|) else b;
      && (|fs| <= 3 ==>
            Disassembler.BitsValue(p) == ThreadSpec.JoinInstr(COMMAND_OPCODE, FieldOr0(fs, 0), FieldOr0(fs, 1), FieldOr0(fs, 2)))
      && (|fs| > 3 ==> Disassembler.BitsValue(p) >= TWO32)
  {
    if |b| < 32 {
      PadValue(b, 32 - |b|);
      PackedJoin(fs);
    } else if |fs| > 3 {
      PackedLarge(fs);
    } else {
      PackedJoin(fs);
      assert Pow2(0) == 1;
    }
  }

  /// Zeros appended to a bit string multiply its value by a power of two.
  lemma PadValue(b: string, n: nat)
    ensures Disassembler.BitsValue(b + Zeros(n)) == Disassembler.BitsValue(b) * Pow2(n)
  {
    Disassembler.BitsConcat(b, Zeros(n));
    ZerosValue(n);
  }

  /// The emitter's loop over one command's operands: the prefix, then seven
  /// bits per operand (`'0'` and six bits for a register, `1000000` for `!`);
  /// the first operand without a field raises.
  method CommandBits(args: seq<string>) returns (r: Result<string, Fault>)
    ensures ArgFields(args).Err? ==> r == Err(ArgFields(args).error)
    ensures ArgFields(args).Ok? ==>
      && r.Ok? && |r.value| == 11 + 7 * |args|
      && Disassembler.BitsValue(r.value) == Packed(ArgFields(args).value)
  {
    Disassembler.BinaryValue(COMMAND_OPCODE, 11);
    Disassembler.Pow2Table();
    var b := COMMAND_PREFIX;
    ghost var fs: seq<ThreadSpec.Field> := [];
    var k := 0;
    while k < |args|
      invariant k <= |args| && ArgFields(args[..k]) == Ok(fs)
      invariant |b| == 11 + 7 * k && Disassembler.BitsValue(b) == Packed(fs)
    {
      var f := ArgField(args[k]);
      if f.Err? {
        ArgFieldsStop(args, k);
        return Err(f.error);
      }
      PackStep(args, k, fs, b, f.value);
      b := b + Disassembler.Binary(f.value, 7);
      fs := fs + [f.value];
      k := k + 1;
    }
    assert args[..k] == args;
    r := Ok(b);
  }

  /// The emitter on one command: the operands' bits zero-filled to 32 bits (the
  /// `'0' * (33 - len(b))` counts the `_` in the prefix) and written big-endian;
  /// `to_bytes` raises once the bits exceed 32.
  method EmitCommand(args: seq<string>) returns (r: Result<seq<u8>, Fault>)
    ensures r == CommandWord(args)
  {
    var bits := CommandBits(args);
    if bits.Err? {
      return Err(bits.error);
    }
    var b := bits.value;
    PackEnd(ArgFields(args).value, b);
    if |b| < 32 {
      b := b + Zeros(32 - |b|);
    }
    var v := Disassembler.BitsValue(b);
    if v >= TWO32 {
      return Err(WordOverflow);
    }
    r := Ok(BeBytes(v));
  }

  /// `int.to_bytes(4, 'little')`: a value outside 0 .. 2^32 - 1 raises.
  function LittleWord(v: int): (r: Result<seq<u8>, Fault>)
    ensures r.Ok? <==> 0 <= v < TWO32
    ensures r.Ok? ==> |r.value| == 4 && FromLe(r.value[0], r.value[1], r.value[2], r.value[3]) == v
  {
    if 0 <= v < TWO32 then
      LeRoundTrip(v);
      Ok(LeBytes(v))
    else Err(ValueOverflow)
  }

  /// What the emitter sees of an entry when it writes it: the values of the
  /// objects it refers to, read from the heap once.
  datatype Item =
    | Mark
    | CommandItem(args: seq<string>)
    | IntItem(i: int)
    | UintItem(v: int)
    | MarkerItem(resolved: Option<int>, offset: int)
    | Unwritable

  /// The marker an entry writes, if it is a marker operand.
  function HereOf(e: Entry): set<Here>
  {
    if e.Operand? && e.obj.HereObj? then {e.obj.h} else {}
  }

  /// The objects an entry's bytes depend on: a `uint` operand, or a marker and
  /// the `uint` it resolved to.
  function EntryFrame(e: Entry): set<object>
    reads HereOf(e)
  {
    match e
    case Operand(UintObj(u)) => {u}
    case Operand(HereObj(h)) => {h} + (if h.resolved.Some? then {h.resolved.value} else {})
    case _ => {}
  }

  function ItemOf(e: Entry): (it: Item)
    reads HereOf(e), EntryFrame(e)
  {
    match e
    case Location(_) => Mark
    case Command(_, args) => CommandItem(args)
    case Operand(o) =>
      match o
      case IntObj(i) => IntItem(i)
      case UintObj(u) => UintItem(u.value)
      case HereObj(h) => MarkerItem(if h.resolved.Some? then Some(h.resolved.value.value) else None, h.offset)
      case _ => Unwritable
  }

  /// The bytes of one entry, after the emitter's chain of type tests: a marker's
  /// own position writes nothing, a command its command word, an int or a
  /// `uint` its value and a marker operand its resolved address plus its offset
  /// (a negative sum raises like any `uint`), each as a little-endian word;
  /// anything else raises.
  function ItemBytes(it: Item): (r: Result<seq<u8>, Fault>)
    ensures r.Ok? ==> |r.value| == if it.Mark? then 0 else 4
  {
    match it
    case Mark => Ok([])
    case CommandItem(args) => CommandWord(args)
    case IntItem(i) => LittleWord(i)
    case UintItem(v) => LittleWord(v)
    case MarkerItem(resolved, offset) =>
      if resolved.None? then Err(Unresolved)
      else if resolved.value + offset < 0 then Err(NegativeUint)
      else LittleWord(resolved.value + offset)
    case Unwritable => Err(NotEmittable)
  }

  /// How many items write a word.
  function Written(its: seq<Item>): (n: nat)
    ensures n <= |its|
  {
    if |its| == 0 then 0 else Written(its[..|its| - 1]) + (if its[|its| - 1].Mark? then 0 else 1)
  }

  /// The bytes of a run of items in order; the first that raises stops the
  /// output. Every item but a marker's position takes one word.
  function ItemsBytes(its: seq<Item>): (r: Result<seq<u8>, Fault>)
    ensures r.Ok? ==> |r.value| == 4 * Written(its)
  {
    if |its| == 0 then Ok([])
    else
      match ItemsBytes(its[..|its| - 1])
      case Err(e) => Err(e)
      case Ok(bs) =>
        match ItemBytes(its[|its| - 1])
        case Err(e) => Err(e)
        case Ok(b) => Ok(bs + b)
  }

  function Heres(es: seq<Entry>): set<Here>
  {
    set e, h | e in es && h in HereOf(e) :: h
  }

  function Frame(es: seq<Entry>): set<object>
    reads Heres(es)
  {
    set e, o | e in es && o in EntryFrame(e) :: o
  }

  /// What the emitter sees of each entry.
  function Items(es: seq<Entry>): (its: seq<Item>)
    reads Heres(es), Frame(es)
    ensures |its| == |es| && forall k :: 0 <= k < |es| ==> its[k] == ItemOf(es[k])
  {
    if |es| == 0 then [] else Items(es[..|es| - 1]) + [ItemOf(es[|es| - 1])]
  }

  /// Two runs of items one after the other: the first fault wins, and otherwise
  /// the bytes follow each other.
  lemma {:induction false} ItemsBytesAppend(a: seq<Item>, b: seq<Item>)
    ensures ItemsBytes(a + b) ==
      match ItemsBytes(a)
      case Err(e) => Err(e)
      case Ok(x) =>
        match ItemsBytes(b)
        case Err(e) => Err(e)
        case Ok(y) => Ok(x + y)
  {
    if |b| == 0 {
      assert a + b == a;
      if ItemsBytes(a).Ok? {
        assert ItemsBytes(a).value + [] == ItemsBytes(a).value;
      }
    } else {
      var init := b[..|b| - 1];
      assert (a + b)[..|a + b| - 1] == a + init && (a + b)[|a + b| - 1] == b[|b| - 1];
      ItemsBytesAppend(a, init);
      if ItemsBytes(a).Ok? && ItemsBytes(init).Ok? && ItemBytes(b[|b| - 1]).Ok? {
        var x, y, z := ItemsBytes(a).value, ItemsBytes(init).value, ItemBytes(b[|b| - 1]).value;
        assert x + (y + z) == (x + y) + z;
      }
    }
  }

  /// The words written before the marker at position `c` are as many as its
  /// address lies past the section's start: addresses count words, not bytes.
  lemma {:induction false} MarkerAddressCountsWords(addr: int, es: seq<Entry>, c: nat, its: seq<Item>)
    requires c <= |es| && |its| == c && forall k :: 0 <= k < c ==> its[k].Mark? == es[k].Location?
    ensures Written(its) == MarkerAddress(addr, es, c) - addr
  {
    if c > 0 {
      MarkerAddressCountsWords(addr, es, c - 1, its[..c - 1]);
    }
  }

  /// The entries of each section, in order.
  function Contents(ss: seq<Section>): (ls: seq<seq<Entry>>)
    reads set s | s in ss
    ensures |ls| == |ss| && forall k :: 0 <= k < |ss| ==> ls[k] == ss[k].instructions
  {
    if |ss| == 0 then [] else Contents(ss[..|ss| - 1]) + [ss[|ss| - 1].instructions]
  }

  /// All items, section after section.
  function Flatten<T>(ls: seq<seq<T>>): (xs: seq<T>)
  {
    if |ls| == 0 then [] else Flatten(ls[..|ls| - 1]) + ls[|ls| - 1]
  }

  lemma {:induction false} FlattenAppend<T>(a: seq<seq<T>>, b: seq<seq<T>>)
    ensures Flatten(a + b) == Flatten(a) + Flatten(b)
  {
    if |b| == 0 {
      assert a + b == a;
    } else {
      assert (a + b)[..|a + b| - 1] == a + b[..|b| - 1];
      FlattenAppend(a, b[..|b| - 1]);
    }
  }

  /// One item written: a command by the command loop, anything else directly.
  method EmitItem(it: Item) returns (r: Result<seq<u8>, Fault>)
    ensures r == ItemBytes(it)
  {
    if it.CommandItem? {
      r := EmitCommand(it.args);
    } else {
      r := ItemBytes(it);
    }
  }

  /// The loop over one section's entries, stopping at the first that raises.
  method EmitItems(its: seq<Item>) returns (r: Result<seq<u8>, Fault>)
    ensures r == ItemsBytes(its)
  {
    var out: seq<u8> := [];
    var j := 0;
    while j < |its|
      invariant j <= |its| && ItemsBytes(its[..j]) == Ok(out)
    {
      var b := EmitItem(its[j]);
      assert its[..j + 1][..j] == its[..j] && its[..j + 1][j] == its[j];
      if b.Err? {
        ItemsBytesAppend(its[..j + 1], its[j + 1..]);
        assert its[..j + 1] + its[j + 1..] == its;
        return Err(b.error);
      }
      out := out + b.value;
      j := j + 1;
    }
    assert its[..j] == its;
    r := Ok(out);
  }

  /// What the emitter sees of each section, in order.
  function Snapshot(ls: seq<seq<Entry>>): (its: seq<seq<Item>>)
    reads set k, h | 0 <= k < |ls| && h in Heres(ls[k]) :: h
    reads set k, o | 0 <= k < |ls| && o in Frame(ls[k]) :: o
    ensures |its| == |ls| && forall k :: 0 <= k < |ls| ==> its[k] == Items(ls[k])
  {
    if |ls| == 0 then [] else Snapshot(ls[..|ls| - 1]) + [Items(ls[|ls| - 1])]
  }

  /// The emitter's loops: each section in turn, each of its entries in turn,
  /// stopping at the first entry that raises.
  method Emit(snap: seq<seq<Item>>) returns (r: Result<seq<u8>, Fault>)
    ensures r == ItemsBytes(Flatten(snap))
  {
    var out: seq<u8> := [];
    var i := 0;
    while i < |snap|
      invariant i <= |snap| && ItemsBytes(Flatten(snap[..i])) == Ok(out)
    {
      var b := EmitItems(snap[i]);
      assert snap[..i + 1][..i] == snap[..i];
      ItemsBytesAppend(Flatten(snap[..i]), snap[i]);
      if b.Err? {
        ItemsBytesAppend(Flatten(snap[..i + 1]), Flatten(snap[i + 1..]));
        FlattenAppend(snap[..i + 1], snap[i + 1..]);
        assert snap[..i + 1] + snap[i + 1..] == snap;
        return Err(b.error);
      }
      out := out + b.value;
      i := i + 1;
    }
    assert snap[..i] == snap;
    r := Ok(out);
  }

  // ---------------------------------------------------------------------------
  // Writing a marker twice

  /// As written, writing a marker operand runs `uint.__add__` on the `uint` the
  /// marker resolved to: the bytes are those of the resolved address plus the
  /// offset, and that `uint` itself moves by the offset.
  method EmitMarkerAsWritten(h: Here) returns (r: Result<seq<u8>, Fault>)
    requires h.resolved.Some?
    modifies h.resolved.value
    ensures h.resolved.value.value == old(h.resolved.value.value) + h.offset
    ensures r == ItemBytes(MarkerItem(Some(old(h.resolved.value.value)), h.offset))
  {
    var u := h.resolved.value;
    var sum := u.Add(h.offset);
    if sum.Err? {
      return Err(NegativeUint);
    }
    r := LittleWord(u.value);
  }

  /// The values `n` writes of one marker put out as written, from the value
  /// `v` it resolved to: each write first moves the `uint` by the offset.
  function WritesAsWritten(v: int, offset: int, n: nat): (ws: seq<int>)
    decreases n
  {
    if n == 0 then [] else [v + offset] + WritesAsWritten(v + offset, offset, n - 1)
  }

  /// As written, the k-th write of a marker is off by k offsets.
  lemma {:induction false} WritesDrift(v: int, offset: int, n: nat)
    ensures |WritesAsWritten(v, offset, n)| == n
    ensures forall k :: 0 <= k < n ==> WritesAsWritten(v, offset, n)[k] == v + (k + 1) * offset
    decreases n
  {
    if n > 0 {
      WritesDrift(v + offset, offset, n - 1);
      var ws := WritesAsWritten(v, offset, n);
      forall k | 1 <= k < n
        ensures ws[k] == v + (k + 1) * offset
      {
        assert ws[k] == WritesAsWritten(v + offset, offset, n - 1)[k - 1];
        assert (v + offset) + k * offset == v + (k + 1) * offset;
      }
    }
  }

  /// A marker with a nonzero offset written twice puts out two different values.
  lemma MarkerWrittenTwiceAsWritten(v: int, offset: int)
    requires offset != 0
    ensures WritesAsWritten(v, offset, 2) == [v + offset, v + 2 * offset]
    ensures WritesAsWritten(v, offset, 2)[0] != WritesAsWritten(v, offset, 2)[1]
  {
    WritesDrift(v, offset, 2);
  }

  /// As intended, writing reads the marker without changing it: the same marker
  /// written twice puts out the same word twice.
  lemma MarkerWrittenTwice(it: Item)
    requires it.MarkerItem? && ItemBytes(it).Ok?
    ensures ItemsBytes([it, it]) == Ok(ItemBytes(it).value + ItemBytes(it).value)
  {
    var b := ItemBytes(it).value;
    assert [it][..0] == [];
    assert ItemsBytes([it]) == Ok([] + b);
    assert [] + b == b;
    assert [it, it][..1] == [it];
  }

  // ---------------------------------------------------------------------------
  // Ordering the sections

  /// `sorted` with a key is stable: `a` goes before `b` when its key is lower,
  /// or the same and it came first.
  predicate Precedes(keys: seq<int>, a: nat, b: nat)
    requires a < |keys| && b < |keys|
  {
    keys[a] < keys[b] || (keys[a] == keys[b] && a < b)
  }

  /// Every index in `order` is below `n`.
  predicate InRange(order: seq<nat>, n: nat)
  {
    forall k :: 0 <= k < |order| ==> order[k] < n
  }

  /// Every index of `order` precedes every later one.
  predicate Ascending(keys: seq<int>, order: seq<nat>)
    requires InRange(order, |keys|)
  {
    forall x, y :: 0 <= x < y < |order| ==> Precedes(keys, order[x], order[y])
  }

  /// `0, 1, .., n - 1`.
  function Upto(n: nat): (r: seq<nat>)
    ensures |r| == n && forall k :: 0 <= k < n ==> r[k] == k
  {
    if n == 0 then [] else Upto(n - 1) + [n - 1]
  }

  /// Index `i` placed after the leading indices whose keys are not above its own.
  function Insert(keys: seq<int>, order: seq<nat>, i: nat): (r: seq<nat>)
    requires i < |keys| && InRange(order, |keys|)
    ensures |r| == |order| + 1 && InRange(r, |keys|)
    ensures forall y :: y in r ==> y == i || y in order
  {
    if |order| == 0 then [i]
    else if keys[order[0]] <= keys[i] then
      [order[0]] + Insert(keys, order[1..], i)
    else [i] + order
  }

  /// Inserting adds `i` and keeps every other index.
  lemma {:induction false} InsertPermutes(keys: seq<int>, order: seq<nat>, i: nat)
    requires i < |keys| && InRange(order, |keys|)
    ensures multiset(Insert(keys, order, i)) == multiset(order) + multiset{i}
  {
    if |order| > 0 && keys[order[0]] <= keys[i] {
      InsertPermutes(keys, order[1..], i);
      assert order == [order[0]] + order[1..];
    }
  }

  /// The order `sorted` puts the first `n` sections in.
  function SortOrder(keys: seq<int>, n: nat): (order: seq<nat>)
    requires n <= |keys|
    ensures |order| == n && InRange(order, n)
  {
    if n == 0 then []
    else
      var order := Insert(keys, SortOrder(keys, n - 1), n - 1);
      assert forall k :: 0 <= k < |order| ==> order[k] in order;
      order
  }

  /// The order is a permutation of the first `n` indices.
  lemma {:induction false} SortOrderPermutes(keys: seq<int>, n: nat)
    requires n <= |keys|
    ensures multiset(SortOrder(keys, n)) == multiset(Upto(n))
  {
    if n > 0 {
      var m: nat := n - 1;
      var before := SortOrder(keys, m);
      SortOrderPermutes(keys, m);
      InsertPermutes(keys, before, m);
      assert Upto(n) == Upto(m) + [m];
    }
  }

  /// Inserting an index above all others keeps an ascending order ascending.
  lemma {:induction false} InsertAscending(keys: seq<int>, order: seq<nat>, i: nat)
    requires i < |keys| && InRange(order, i) && Ascending(keys, order)
    ensures Ascending(keys, Insert(keys, order, i))
  {
    if |order| > 0 {
      var r := Insert(keys, order, i);
      if keys[order[0]] <= keys[i] {
        var tail := order[1..];
        var rest := Insert(keys, tail, i);
        InsertAscending(keys, tail, i);
        assert r == [order[0]] + rest;
        forall y | 0 <= y < |rest|
          ensures Precedes(keys, order[0], rest[y])
        {
          assert rest[y] in rest;
          if rest[y] != i {
            var m :| 0 <= m < |tail| && tail[m] == rest[y];
            assert order[m + 1] == rest[y];
          }
        }
      } else {
        forall y | 0 <= y < |order|
          ensures Precedes(keys, i, order[y])
        {
          if y > 0 {
            assert Precedes(keys, order[0], order[y]);
          }
        }
      }
    }
  }

  /// The indices come out by key, ties in their original order.
  lemma {:induction false} SortOrderAscending(keys: seq<int>, n: nat)
    requires n <= |keys|
    ensures Ascending(keys, SortOrder(keys, n))
  {
    if n > 0 {
      var m: nat := n - 1;
      SortOrderAscending(keys, m);
      InsertAscending(keys, SortOrder(keys, m), m);
    }
  }

  /// The sections' addresses, the key they are sorted by.
  function Keys(ss: seq<Section>): (keys: seq<int>)
    reads set s | s in ss, set s | s in ss :: s.addr
    ensures |keys| == |ss| && forall k :: 0 <= k < |ss| ==> keys[k] == ss[k].addr.value
  {
    if |ss| == 0 then [] else Keys(ss[..|ss| - 1]) + [ss[|ss| - 1].addr.value]
  }

  /// The sections in the given order.
  function Arrange(ss: seq<Section>, order: seq<nat>): (r: seq<Section>)
    requires InRange(order, |ss|)
    ensures |r| == |order| && forall k :: 0 <= k < |order| ==> r[k] == ss[order[k]]
  {
    seq(|order|, k requires 0 <= k < |order| => ss[order[k]])
  }
}
