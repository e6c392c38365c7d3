/// `collect_expr` (src/assembler/expression.rs): reads one expression from a
/// line's tokens, starting at a given index, and returns it together with the
/// index after it.
module RsParse {
  import opened Wrappers
  import opened RsLexer
  import opened RsExpression
  import opened RsPrecedence

  /// The index a function call's result points at after its closing `)`:
  /// as written it is two past the `)`, one past was intended.
  datatype Revision = AsWritten | Intended

  /// How many tokens are left from index `i` on.
  function Left(tokens: seq<Token>, i: int): nat
  {
    if 0 <= i < |tokens| then |tokens| - i else 0
  }

  /// How far past the end of the tokens a result may point.
  function Overshoot(rev: Revision): nat
  {
    if rev == AsWritten then 1 else 0
  }

  // ---------------------------------------------------------------------------
  // The specification

  /// The result of `collect_expr(tokens, start, loc)`. Every error carries the
  /// line's position.
  function Parse(rev: Revision, tokens: seq<Token>, start: nat, loc: Option<Loc>): (r: Result<(Expression, nat), Error>)
    ensures r.Ok? ==> start < |tokens| && start < r.value.1 <= |tokens| + Overshoot(rev)
    ensures r.Err? ==> r.error.loc == loc
    decreases Left(tokens, start), 0, 2
  {
    if start >= |tokens| then Err(Error(ExprMissingToken, loc))
    else ParseAt(rev, tokens, start, loc)
  }

  /// The arms of `collect_expr`, by the kind of the token at `start`.
  function ParseAt(rev: Revision, tokens: seq<Token>, start: nat, loc: Option<Loc>): (r: Result<(Expression, nat), Error>)
    requires start < |tokens|
    ensures r.Ok? ==> start < r.value.1 <= |tokens| + Overshoot(rev)
    ensures r.Err? ==> r.error.loc == loc
    decreases Left(tokens, start), 0, 1
  {
    match tokens[start]
    case Ident(name) => ParseIdent(rev, tokens, start, name, loc)
    case UnsignedInteger(u, _) => Ok((Literal(Unsigned(u)), start + 1))
    case SignedInteger(i, _) => Ok((Literal(Signed(i)), start + 1))
    case Float(bits) => Ok((Literal(Float32(bits)), start + 1))
    case Control(c) => ParseControl(rev, tokens, start, c, loc)
    case Ascii(_) => Err(Error(InvalidExprToken(tokens[start]), loc))
  }

  /// An identifier: a call when a `(` follows, else a variable.
  function ParseIdent(rev: Revision, tokens: seq<Token>, start: nat, name: string, loc: Option<Loc>)
    : (r: Result<(Expression, nat), Error>)
    requires start < |tokens|
    ensures r.Ok? ==> start < r.value.1 <= |tokens| + Overshoot(rev)
    ensures r.Err? ==> r.error.loc == loc
    decreases Left(tokens, start), 0, 0
  {
    if start + 1 < |tokens| && tokens[start + 1] == Control('(') then Args(rev, tokens, name, start + 2, [], loc)
    else Ok((Variable(name), start + 1))
  }

  /// A control character: a unary operator, a group, or an error.
  function ParseControl(rev: Revision, tokens: seq<Token>, start: nat, c: char, loc: Option<Loc>)
    : (r: Result<(Expression, nat), Error>)
    requires start < |tokens|
    ensures r.Ok? ==> start < r.value.1 <= |tokens| + Overshoot(rev)
    ensures r.Err? ==> r.error.loc == loc
    decreases Left(tokens, start), 0, 0
  {
    if c == '~' || c == '-' then
      var sub := Parse(rev, tokens, start + 1, loc);
      if sub.Err? then Err(sub.error)
      else Ok((Unary(if c == '~' then Not else Neg, sub.value.0), sub.value.1))
    else if c == '(' then Group(rev, tokens, start + 1, [], loc)
    else if c == '!' then Err(Error(BangInExpression, loc))
    else Err(Error(InvalidExprToken(Control(c)), loc))
  }

  /// The arguments of a call, from the one at `index` on, after `args`.
  function Args(rev: Revision, tokens: seq<Token>, name: string, index: nat, args: seq<Expression>, loc: Option<Loc>)
    : (r: Result<(Expression, nat), Error>)
    ensures r.Ok? ==> index < r.value.1 <= |tokens| + Overshoot(rev)
    ensures r.Err? ==> r.error.loc == loc
    decreases Left(tokens, index), 1
  {
    var sub := Parse(rev, tokens, index, loc);
    if sub.Err? then Err(sub.error)
    else
      var i := sub.value.1;
      if i >= |tokens| then Err(Error(ExprMissingToken, loc))
      else if tokens[i] == Control(')') then Ok((Call(name, args + [sub.value.0]), i + 1 + Overshoot(rev)))
      else if tokens[i] == Control(',') then Args(rev, tokens, name, i + 1, args + [sub.value.0], loc)
      else Err(Error(ExpectedCommaOrParen(tokens[i]), loc))
  }

  /// The elements of a group read so far: empty, a complete group, or a
  /// complete group and an operator.
  predicate Partial(elems: seq<Elem>)
  {
    if |elems| % 2 == 1 then Balanced(elems)
    else |elems| == 0 || (Balanced(elems[..|elems| - 1]) && elems[|elems| - 1].Operator?)
  }

  /// The rest of a parenthesised group from `index` on, after `elems`.
  function Group(rev: Revision, tokens: seq<Token>, index: nat, elems: seq<Elem>, loc: Option<Loc>)
    : (r: Result<(Expression, nat), Error>)
    requires Partial(elems)
    ensures r.Ok? ==> index < r.value.1 <= |tokens| + Overshoot(rev)
    ensures r.Err? ==> r.error.loc == loc
    decreases Left(tokens, index), 1
  {
    if index >= |tokens| then Err(Error(ExprMissingToken, loc))
    else if tokens[index] == Control(')') then Close(elems, index + 1, loc)
    else if |elems| % 2 == 0 then
      var sub := Parse(rev, tokens, index, loc);
      if sub.Err? then Err(sub.error)
      else
        PushOperand(elems, sub.value.0);
        Group(rev, tokens, sub.value.1, elems + [Operand(sub.value.0)], loc)
    else
      match tokens[index]
      case Control(c) =>
        var op := OpOf(c, loc);
        if op.Err? then Err(op.error)
        else
          PushOperator(elems, op.value);
          Group(rev, tokens, index + 1, elems + [Operator(op.value)], loc)
      case _ => Err(Error(ExpectedOp(tokens[index]), loc))
  }

  /// The end of a group: an empty group or one ending on an operator is an
  /// error, a complete one is its precedence tree.
  function Close(elems: seq<Elem>, next: nat, loc: Option<Loc>): (r: Result<(Expression, nat), Error>)
    requires Partial(elems)
    ensures r.Ok? <==> |elems| % 2 == 1
    ensures r.Ok? ==> Balanced(elems) && r.value == (Reference(ToChain(elems)), next)
    ensures r.Err? ==> r.error == Error(if |elems| == 0 then EmptyGroup else MissingRightOperand, loc)
  {
    if |elems| == 0 then Err(Error(EmptyGroup, loc))
    else if |elems| % 2 == 0 then Err(Error(MissingRightOperand, loc))
    else Ok((Reference(ToChain(elems)), next))
  }

  lemma PushOperand(elems: seq<Elem>, e: Expression)
    requires Partial(elems) && |elems| % 2 == 0
    ensures Partial(elems + [Operand(e)]) && Balanced(elems + [Operand(e)])
  {
    var xs := elems + [Operand(e)];
    if |elems| > 0 {
      var b := elems[..|elems| - 1];
      LinksSnoc(b[1..], elems[|elems| - 1].op, e);
      assert xs[1..] == b[1..] + [elems[|elems| - 1], Operand(e)];
    } else {
      assert xs[1..] == [];
    }
  }

  lemma PushOperator(elems: seq<Elem>, op: Op)
    requires Partial(elems) && |elems| % 2 == 1
    ensures Partial(elems + [Operator(op)])
  {
    assert (elems + [Operator(op)])[..|elems|] == elems;
  }

  lemma {:induction false} LinksSnoc(ys: seq<Elem>, p: Op, e: Expression)
    requires IsLinks(ys)
    ensures IsLinks(ys + [Operator(p), Operand(e)])
    decreases |ys|
  {
    var zs := ys + [Operator(p), Operand(e)];
    if |ys| == 0 {
      assert zs[2..] == [];
    } else {
      LinksSnoc(ys[2..], p, e);
      assert zs[2..] == ys[2..] + [Operator(p), Operand(e)];
    }
  }

  // ---------------------------------------------------------------------------
  // The program

  /// `collect_expr`.
  method CollectExpr(rev: Revision, tokens: seq<Token>, start: nat, loc: Option<Loc>) returns (r: Result<(Expression, nat), Error>)
    ensures r == Parse(rev, tokens, start, loc)
    decreases Left(tokens, start), 1
  {
    if start >= |tokens| {
      return Err(Error(ExprMissingToken, loc));
    }
    assert Parse(rev, tokens, start, loc) == ParseAt(rev, tokens, start, loc);
    match tokens[start]
    case Ident(name) =>
      assert ParseAt(rev, tokens, start, loc) == ParseIdent(rev, tokens, start, name, loc);
      if start + 1 < |tokens| && tokens[start + 1] == Control('(') {
        r := CollectCall(rev, tokens, start, name, loc);
      } else {
        r := Ok((Variable(name), start + 1));
      }
    case UnsignedInteger(u, _) =>
      r := Ok((Literal(Unsigned(u)), start + 1));
    case SignedInteger(i, _) =>
      r := Ok((Literal(Signed(i)), start + 1));
    case Float(bits) =>
      r := Ok((Literal(Float32(bits)), start + 1));
    case Control(c) =>
      assert ParseAt(rev, tokens, start, loc) == ParseControl(rev, tokens, start, c, loc);
      if c == '~' || c == '-' {
        var sub := CollectExpr(rev, tokens, start + 1, loc);
        if sub.Err? {
          return Err(sub.error);
        }
        r := Ok((Unary(if c == '~' then Not else Neg, sub.value.0), sub.value.1));
      } else if c == '(' {
        r := CollectGroup(rev, tokens, start, loc);
      } else if c == '!' {
        r := Err(Error(BangInExpression, loc));
      } else {
        r := Err(Error(InvalidExprToken(tokens[start]), loc));
      }
    case Ascii(_) =>
      r := Err(Error(InvalidExprToken(tokens[start]), loc));
  }

  /// The function-call arm of `collect_expr`: arguments separated by `,` up
  /// to the closing `)`.
  method CollectCall(rev: Revision, tokens: seq<Token>, start: nat, name: string, loc: Option<Loc>)
    returns (r: Result<(Expression, nat), Error>)
    requires start + 1 < |tokens| && tokens[start + 1] == Control('(')
    ensures r == Args(rev, tokens, name, start + 2, [], loc)
    decreases Left(tokens, start), 0
  {
    var args: seq<Expression> := [];
    var index := start + 2;
    while true
      invariant start + 2 <= index
      invariant Args(rev, tokens, name, index, args, loc) == Args(rev, tokens, name, start + 2, [], loc)
      decreases Left(tokens, index)
    {
      var sub := CollectExpr(rev, tokens, index, loc);
      if sub.Err? {
        return Err(sub.error);
      }
      index := sub.value.1;
      args := args + [sub.value.0];
      if index >= |tokens| {
        return Err(Error(ExprMissingToken, loc));
      }
      if tokens[index] == Control(')') {
        break;
      }
      if tokens[index] != Control(',') {
        return Err(Error(ExpectedCommaOrParen(tokens[index]), loc));
      }
      index := index + 1;
    }
    index := index + 1;
    r := Ok((Call(name, args), index + Overshoot(rev)));
  }

  /// The parenthesised-group arm of `collect_expr`: operands and operators
  /// alternate up to the closing `)`, then the three `combine!` passes fold
  /// them.
  method CollectGroup(rev: Revision, tokens: seq<Token>, start: nat, loc: Option<Loc>)
    returns (r: Result<(Expression, nat), Error>)
    requires start < |tokens|
    ensures r == Group(rev, tokens, start + 1, [], loc)
    decreases Left(tokens, start), 0
  {
    var elems: seq<Elem> := [];
    var index := start + 1;
    while true
      invariant start + 1 <= index && Partial(elems)
      invariant Group(rev, tokens, index, elems, loc) == Group(rev, tokens, start + 1, [], loc)
      decreases Left(tokens, index)
    {
      if index >= |tokens| {
        return Err(Error(ExprMissingToken, loc));
      }
      if tokens[index] == Control(')') {
        break;
      }
      var step := GroupStep(rev, tokens, index, elems, loc);
      if step.Err? {
        return Err(step.error);
      }
      elems, index := step.value.0, step.value.1;
    }
    index := index + 1;
    if |elems| % 2 == 0 {
      if |elems| == 0 {
        return Err(Error(EmptyGroup, loc));
      }
      return Err(Error(MissingRightOperand, loc));
    }
    var e := CombineGroup(elems);
    r := Ok((e, index));
  }

  /// One element of a group: an operand where one is due, else an operator.
  method GroupStep(rev: Revision, tokens: seq<Token>, index: nat, elems: seq<Elem>, loc: Option<Loc>)
    returns (r: Result<(seq<Elem>, nat), Error>)
    requires Partial(elems) && index < |tokens| && tokens[index] != Control(')')
    ensures r.Err? ==> Group(rev, tokens, index, elems, loc) == Err(r.error)
    ensures r.Ok? ==> (index < r.value.1 && Partial(r.value.0)
      && Group(rev, tokens, r.value.1, r.value.0, loc) == Group(rev, tokens, index, elems, loc))
    decreases Left(tokens, index), 2
  {
    if |elems| % 2 == 0 {
      var sub := CollectExpr(rev, tokens, index, loc);
      if sub.Err? {
        return Err(sub.error);
      }
      PushOperand(elems, sub.value.0);
      r := Ok((elems + [Operand(sub.value.0)], sub.value.1));
    } else {
      match tokens[index] {
        case Control(c) =>
          var op := OpOf(c, loc);
          if op.Err? {
            return Err(op.error);
          }
          PushOperator(elems, op.value);
          r := Ok((elems + [Operator(op.value)], index + 1));
        case _ =>
          r := Err(Error(ExpectedOp(tokens[index]), loc));
      }
    }
  }

  // ---------------------------------------------------------------------------
  // Reading back what is written

  /// The expressions `collect_expr` can produce: every call has an argument.
  predicate WellFormed(e: Expression)
    decreases e
  {
    match e
    case Unary(_, x) => WellFormed(x)
    case Binary(_, l, r) => WellFormed(l) && WellFormed(r)
    case Call(_, args) => |args| > 0 && forall a | a in args :: WellFormed(a)
    case _ => true
  }

  /// The tokens an expression is written as: every binary operation in
  /// parentheses, call arguments separated by commas, integers in decimal.
  function Render(e: Expression): (ts: seq<Token>)
    ensures |ts| > 0 && ts[0] != Control(')')
    decreases e, 1
  {
    match e
    case Variable(name) => [Ident(name)]
    case Literal(v) =>
      (match v
       case Unsigned(u) => [UnsignedInteger(u, 10)]
       case Signed(i) => [SignedInteger(i, 10)]
       case Float32(bits) => [Float(bits)])
    case Unary(op, x) => [Control(UnarySymbol(op))] + Render(x)
    case Binary(op, l, r) => [Control('(')] + Render(l) + [Control(OpSymbol(op))] + Render(r) + [Control(')')]
    case Call(name, args) => [Ident(name), Control('(')] + RenderArgs(e, 0) + [Control(')')]
  }

  /// The arguments of call `e` from the `k`-th on.
  function RenderArgs(e: Expression, k: nat): seq<Token>
    requires e.Call? && k <= |e.args|
    decreases e, 0, |e.args| - k
  {
    if k == |e.args| then []
    else if k == |e.args| - 1 then Render(e.args[k])
    else Render(e.args[k]) + [Control(',')] + RenderArgs(e, k + 1)
  }

  /// `ts` stands in `tokens` from index `s` on.
  predicate WrittenAt(tokens: seq<Token>, s: nat, ts: seq<Token>)
  {
    s + |ts| <= |tokens| && tokens[s..s + |ts|] == ts
  }

  /// Nothing, or something other than `(`, stands at index `i`.
  predicate NoCallAt(tokens: seq<Token>, i: nat)
  {
    i >= |tokens| || tokens[i] != Control('(')
  }

  lemma WrittenPart(tokens: seq<Token>, s: nat, ts: seq<Token>, off: nat, part: seq<Token>)
    requires WrittenAt(tokens, s, ts) && off + |part| <= |ts| && ts[off..off + |part|] == part
    ensures WrittenAt(tokens, s + off, part)
  {
    var whole := tokens[s..s + |ts|];
    forall k | 0 <= k < |part|
      ensures tokens[s + off + k] == part[k]
    {
      assert whole[off + k] == part[k];
    }
    assert tokens[s + off..s + off + |part|] == part;
  }

  /// A concatenation written at `s` is its two parts written one after the other.
  lemma WrittenSplit(tokens: seq<Token>, s: nat, a: seq<Token>, b: seq<Token>)
    requires WrittenAt(tokens, s, a + b)
    ensures WrittenAt(tokens, s, a) && WrittenAt(tokens, s + |a|, b)
  {
    assert (a + b)[..|a|] == a && (a + b)[|a|..] == b;
    WrittenPart(tokens, s, a + b, 0, a);
    WrittenPart(tokens, s, a + b, |a|, b);
  }

  lemma WrittenToken(tokens: seq<Token>, s: nat, ts: seq<Token>, k: nat)
    requires WrittenAt(tokens, s, ts) && k < |ts|
    ensures tokens[s + k] == ts[k]
  {
    assert tokens[s..s + |ts|][k] == ts[k];
  }

  // Single steps of `Parse` and `Group`.

  lemma ParseVariableStep(rev: Revision, tokens: seq<Token>, s: nat, name: string, loc: Option<Loc>)
    requires s < |tokens| && tokens[s] == Ident(name) && NoCallAt(tokens, s + 1)
    ensures Parse(rev, tokens, s, loc) == Ok((Variable(name), s + 1))
  {
    assert ParseAt(rev, tokens, s, loc) == ParseIdent(rev, tokens, s, name, loc);
  }

  lemma ParseLiteralStep(rev: Revision, tokens: seq<Token>, s: nat, v: Value, loc: Option<Loc>)
    requires s < |tokens| && tokens[s] == Render(Literal(v))[0]
    ensures Parse(rev, tokens, s, loc) == Ok((Literal(v), s + 1))
  {
    assert Parse(rev, tokens, s, loc) == ParseAt(rev, tokens, s, loc);
  }

  lemma ParseUnaryStep(rev: Revision, tokens: seq<Token>, s: nat, op: UnaryOp, x: Expression, n: nat, loc: Option<Loc>)
    requires s < |tokens| && tokens[s] == Control(UnarySymbol(op))
    requires Parse(rev, tokens, s + 1, loc) == Ok((x, n))
    ensures Parse(rev, tokens, s, loc) == Ok((Unary(op, x), n))
  {
    assert ParseAt(rev, tokens, s, loc) == ParseControl(rev, tokens, s, UnarySymbol(op), loc);
  }

  lemma ParseGroupStep(rev: Revision, tokens: seq<Token>, s: nat, loc: Option<Loc>)
    requires s < |tokens| && tokens[s] == Control('(')
    ensures Parse(rev, tokens, s, loc) == Group(rev, tokens, s + 1, [], loc)
  {
    assert ParseAt(rev, tokens, s, loc) == ParseControl(rev, tokens, s, '(', loc);
  }

  lemma ParseCallStep(rev: Revision, tokens: seq<Token>, s: nat, name: string, loc: Option<Loc>)
    requires s + 1 < |tokens| && tokens[s] == Ident(name) && tokens[s + 1] == Control('(')
    ensures Parse(rev, tokens, s, loc) == Args(rev, tokens, name, s + 2, [], loc)
  {
    assert ParseAt(rev, tokens, s, loc) == ParseIdent(rev, tokens, s, name, loc);
  }

  lemma GroupOperandStep(rev: Revision, tokens: seq<Token>, i: nat, elems: seq<Elem>, x: Expression, n: nat, loc: Option<Loc>)
    requires Partial(elems) && |elems| % 2 == 0
    requires i < |tokens| && tokens[i] != Control(')') && Parse(rev, tokens, i, loc) == Ok((x, n))
    ensures Partial(elems + [Operand(x)])
    ensures Group(rev, tokens, i, elems, loc) == Group(rev, tokens, n, elems + [Operand(x)], loc)
  {
    PushOperand(elems, x);
  }

  lemma GroupOperatorStep(rev: Revision, tokens: seq<Token>, i: nat, elems: seq<Elem>, op: Op, loc: Option<Loc>)
    requires Partial(elems) && |elems| % 2 == 1
    requires i < |tokens| && tokens[i] == Control(OpSymbol(op))
    ensures Partial(elems + [Operator(op)])
    ensures Group(rev, tokens, i, elems, loc) == Group(rev, tokens, i + 1, elems + [Operator(op)], loc)
  {
    PushOperator(elems, op);
    OpOfSymbol(OpSymbol(op), op, loc);
  }

  lemma ArgsLastStep(rev: Revision, tokens: seq<Token>, name: string, i: nat, args: seq<Expression>, x: Expression, n: nat, loc: Option<Loc>)
    requires Parse(rev, tokens, i, loc) == Ok((x, n)) && n < |tokens| && tokens[n] == Control(')')
    ensures Args(rev, tokens, name, i, args, loc) == Ok((Call(name, args + [x]), n + 1 + Overshoot(rev)))
  {
  }

  lemma ArgsNextStep(rev: Revision, tokens: seq<Token>, name: string, i: nat, args: seq<Expression>, x: Expression, n: nat, loc: Option<Loc>)
    requires Parse(rev, tokens, i, loc) == Ok((x, n)) && n < |tokens| && tokens[n] == Control(',')
    ensures Args(rev, tokens, name, i, args, loc) == Args(rev, tokens, name, n + 1, args + [x], loc)
  {
  }

  /// `collect_expr` reads a written expression back, whatever follows it
  /// (unless a `(` follows, which would turn a variable into a call), and
  /// returns the index right after it.
  lemma {:induction false} ParseRender(e: Expression, tokens: seq<Token>, s: nat, loc: Option<Loc>)
    requires WellFormed(e) && WrittenAt(tokens, s, Render(e)) && NoCallAt(tokens, s + |Render(e)|)
    ensures Parse(Intended, tokens, s, loc) == Ok((e, s + |Render(e)|))
    decreases e, 1
  {
    var w := Render(e);
    WrittenToken(tokens, s, w, 0);
    match e
    case Variable(name) =>
      ParseVariableStep(Intended, tokens, s, name, loc);
    case Literal(v) =>
      ParseLiteralStep(Intended, tokens, s, v, loc);
    case Unary(op, x) =>
      WrittenSplit(tokens, s, [Control(UnarySymbol(op))], Render(x));
      ParseRender(x, tokens, s + 1, loc);
      ParseUnaryStep(Intended, tokens, s, op, x, s + |w|, loc);
    case Binary(op, l, r) =>
      ParseBinary(op, l, r, tokens, s, loc);
    case Call(name, args) =>
      ParseCall(e, tokens, s, loc);
  }

  lemma {:induction false} ParseCall(e: Expression, tokens: seq<Token>, s: nat, loc: Option<Loc>)
    requires e.Call? && WellFormed(e) && WrittenAt(tokens, s, Render(e))
    ensures Parse(Intended, tokens, s, loc) == Ok((e, s + |Render(e)|))
    decreases e, 0, |e.args| + 1
  {
    var head, ra := [Ident(e.callee), Control('(')], RenderArgs(e, 0);
    assert Render(e) == head + (ra + [Control(')')]);
    WrittenSplit(tokens, s, head, ra + [Control(')')]);
    WrittenToken(tokens, s, head, 0);
    WrittenToken(tokens, s, head, 1);
    ParseArgs(e, 0, tokens, s + 2, loc);
    assert e.args[..0] == [];
    ParseCallStep(Intended, tokens, s, e.callee, loc);
  }

  lemma {:induction false} ParseBinary(op: Op, l: Expression, r: Expression, tokens: seq<Token>, s: nat, loc: Option<Loc>)
    requires WellFormed(l) && WellFormed(r) && WrittenAt(tokens, s, Render(Binary(op, l, r)))
    ensures Parse(Intended, tokens, s, loc) == Ok((Binary(op, l, r), s + |Render(Binary(op, l, r))|))
    decreases Binary(op, l, r), 0
  {
    var n1, n3 := BinaryWritten(op, l, r, tokens, s);
    StartsOpen(l, tokens, s + 1);
    StartsOpen(r, tokens, n1 + 1);
    ParseRender(l, tokens, s + 1, loc);
    ParseRender(r, tokens, n1 + 1, loc);
    ParseGroupOf(op, l, r, tokens, s, n1, n3, loc);
  }

  /// A written expression does not start with `)`.
  lemma StartsOpen(e: Expression, tokens: seq<Token>, s: nat)
    requires WrittenAt(tokens, s, Render(e))
    ensures s < |tokens| && tokens[s] != Control(')')
  {
    WrittenToken(tokens, s, Render(e), 0);
  }

  /// Where the parts of `( l op r )` stand once it is written at `s`.
  lemma BinaryWritten(op: Op, l: Expression, r: Expression, tokens: seq<Token>, s: nat) returns (n1: nat, n3: nat)
    requires WrittenAt(tokens, s, Render(Binary(op, l, r)))
    ensures n1 == s + 1 + |Render(l)| && n3 == n1 + 1 + |Render(r)|
    ensures s + |Render(Binary(op, l, r))| == n3 + 1 && n3 < |tokens|
    ensures tokens[s] == Control('(') && tokens[n1] == Control(OpSymbol(op)) && tokens[n3] == Control(')')
    ensures WrittenAt(tokens, s + 1, Render(l)) && NoCallAt(tokens, n1)
    ensures WrittenAt(tokens, n1 + 1, Render(r)) && NoCallAt(tokens, n3)
  {
    var open := [Control('(')] + Render(l);
    var left := open + [Control(OpSymbol(op))];
    var right := left + Render(r);
    WrittenSplit(tokens, s, right, [Control(')')]);
    WrittenSplit(tokens, s, left, Render(r));
    WrittenSplit(tokens, s, open, [Control(OpSymbol(op))]);
    WrittenSplit(tokens, s, [Control('(')], Render(l));
    n1, n3 := s + |open|, s + |right|;
    WrittenToken(tokens, s, [Control('(')], 0);
    WrittenToken(tokens, n1, [Control(OpSymbol(op))], 0);
    WrittenToken(tokens, n3, [Control(')')], 0);
  }

  /// A group `( l op r )` whose operands read back as `l` and `r`.
  lemma ParseGroupOf(op: Op, l: Expression, r: Expression, tokens: seq<Token>, s: nat, n1: nat, n3: nat, loc: Option<Loc>)
    requires s < n1 < n3 < |tokens| && tokens[s] == Control('(') && tokens[n3] == Control(')')
    requires tokens[s + 1] != Control(')') && Parse(Intended, tokens, s + 1, loc) == Ok((l, n1))
    requires tokens[n1] == Control(OpSymbol(op))
    requires tokens[n1 + 1] != Control(')') && Parse(Intended, tokens, n1 + 1, loc) == Ok((r, n3))
    ensures Parse(Intended, tokens, s, loc) == Ok((Binary(op, l, r), n3 + 1))
  {
    ParseGroupStep(Intended, tokens, s, loc);
    GroupOperandStep(Intended, tokens, s + 1, [], l, n1, loc);
    assert [] + [Operand(l)] == [Operand(l)];
    GroupAfterLeft(op, l, r, tokens, n1, n3, loc);
  }

  lemma GroupAfterLeft(op: Op, l: Expression, r: Expression, tokens: seq<Token>, n1: nat, n3: nat, loc: Option<Loc>)
    requires n1 < n3 < |tokens| && tokens[n3] == Control(')')
    requires tokens[n1] == Control(OpSymbol(op))
    requires tokens[n1 + 1] != Control(')') && Parse(Intended, tokens, n1 + 1, loc) == Ok((r, n3))
    ensures Partial([Operand(l)])
    ensures Group(Intended, tokens, n1, [Operand(l)], loc) == Ok((Binary(op, l, r), n3 + 1))
  {
    PushOperand([], l);
    assert [] + [Operand(l)] == [Operand(l)];
    GroupOperatorStep(Intended, tokens, n1, [Operand(l)], op, loc);
    assert [Operand(l)] + [Operator(op)] == [Operand(l), Operator(op)];
    GroupAfterOperator(op, l, r, tokens, n1 + 1, n3, loc);
  }

  lemma GroupAfterOperator(op: Op, l: Expression, r: Expression, tokens: seq<Token>, i: nat, n3: nat, loc: Option<Loc>)
    requires i < n3 < |tokens| && tokens[n3] == Control(')')
    requires tokens[i] != Control(')') && Parse(Intended, tokens, i, loc) == Ok((r, n3))
    ensures Partial([Operand(l), Operator(op)])
    ensures Group(Intended, tokens, i, [Operand(l), Operator(op)], loc) == Ok((Binary(op, l, r), n3 + 1))
  {
    var two := [Operand(l), Operator(op)];
    var three := [Operand(l), Operator(op), Operand(r)];
    PushOperator([Operand(l)], op);
    assert [Operand(l)] + [Operator(op)] == two;
    GroupOperandStep(Intended, tokens, i, two, r, n3, loc);
    assert two + [Operand(r)] == three;
    GroupOne(l, op, r, n3 + 1, loc);
    GroupAtClose(tokens, n3, three, loc);
  }

  /// At a `)` the group closes with the elements gathered so far.
  lemma GroupAtClose(tokens: seq<Token>, n: nat, elems: seq<Elem>, loc: Option<Loc>)
    requires n < |tokens| && tokens[n] == Control(')') && Partial(elems)
    ensures Group(Intended, tokens, n, elems, loc) == Close(elems, n + 1, loc)
  {
  }

  /// A group of one operator closes as that operation.
  lemma GroupOne(l: Expression, op: Op, r: Expression, next: nat, loc: Option<Loc>)
    ensures Partial([Operand(l), Operator(op), Operand(r)])
    ensures Close([Operand(l), Operator(op), Operand(r)], next, loc) == Ok((Binary(op, l, r), next))
  {
    var elems := [Operand(l), Operator(op), Operand(r)];
    var links := [Operator(op), Operand(r)];
    assert elems[1..] == links;
    assert links[2..] == [];
    assert IsLinks(links);
    assert ToLinks(links) == [Link(op, r)];
    assert Balanced(elems);
    assert ToChain(elems) == Chain(l, [Link(op, r)]);
    var ls := [Link(op, r)];
    assert ls[..0] == [] && ls[1..] == [];
    assert Count(ls, Tier(op)) == 1;
    assert forall u: nat :: u != Tier(op) ==> Count(ls, u) == 0;
    assert LastOfTier(ls, Tier(op)) == Some(0);
    assert Loosest(ls) == Some(0);
    assert Loosest([]) == None;
    assert Reference(Chain(l, [])) == l && Reference(Chain(r, [])) == r;
  }

  /// The arguments of call `e` from the `k`-th on are read back, up to the
  /// closing `)`.
  lemma {:induction false} ParseArgs(e: Expression, k: nat, tokens: seq<Token>, s: nat, loc: Option<Loc>)
    requires e.Call? && WellFormed(e) && k < |e.args|
    requires WrittenAt(tokens, s, RenderArgs(e, k) + [Control(')')])
    ensures Args(Intended, tokens, e.callee, s, e.args[..k], loc) == Ok((e, s + |RenderArgs(e, k)| + 1))
    decreases e, 0, |e.args| - k, 1
  {
    var a := e.args[k];
    var n := ArgWritten(e, k, tokens, s);
    assert a in e.args;
    ParseRender(a, tokens, s, loc);
    if k == |e.args| - 1 {
      ArgsLastStep(Intended, tokens, e.callee, s, e.args[..k], a, n, loc);
      assert e.args[..k] + [a] == e.args;
    } else {
      ParseMoreArgs(e, k, tokens, s, n, loc);
    }
  }

  /// The `k`-th argument, read back as `e.args[k]` up to index `n`, is
  /// followed by a comma and more arguments.
  lemma {:induction false} ParseMoreArgs(e: Expression, k: nat, tokens: seq<Token>, s: nat, n: nat, loc: Option<Loc>)
    requires e.Call? && WellFormed(e) && k < |e.args| - 1
    requires Parse(Intended, tokens, s, loc) == Ok((e.args[k], n)) && n < |tokens| && tokens[n] == Control(',')
    requires WrittenAt(tokens, n + 1, RenderArgs(e, k + 1) + [Control(')')])
    ensures Args(Intended, tokens, e.callee, s, e.args[..k], loc) == Ok((e, n + 1 + |RenderArgs(e, k + 1)| + 1))
    decreases e, 0, |e.args| - k, 0
  {
    ParseArgs(e, k + 1, tokens, n + 1, loc);
    ArgsNextStep(Intended, tokens, e.callee, s, e.args[..k], e.args[k], n, loc);
    assert e.args[..k] + [e.args[k]] == e.args[..k + 1];
  }

  /// Where the `k`-th argument of call `e` and the separator after it stand
  /// once the arguments from the `k`-th on are written at `s`.
  lemma ArgWritten(e: Expression, k: nat, tokens: seq<Token>, s: nat) returns (n: nat)
    requires e.Call? && k < |e.args|
    requires WrittenAt(tokens, s, RenderArgs(e, k) + [Control(')')])
    ensures n == s + |Render(e.args[k])| && n < |tokens|
    ensures WrittenAt(tokens, s, Render(e.args[k])) && NoCallAt(tokens, n)
    ensures k == |e.args| - 1 ==> tokens[n] == Control(')') && n == s + |RenderArgs(e, k)|
    ensures k < |e.args| - 1 ==> tokens[n] == Control(',') && WrittenAt(tokens, n + 1, RenderArgs(e, k + 1) + [Control(')')])
    ensures k < |e.args| - 1 ==> |RenderArgs(e, k)| == |Render(e.args[k])| + 1 + |RenderArgs(e, k + 1)|
  {
    var ra := Render(e.args[k]);
    n := s + |ra|;
    if k == |e.args| - 1 {
      WrittenSplit(tokens, s, ra, [Control(')')]);
      WrittenToken(tokens, n, [Control(')')], 0);
    } else {
      var rest := RenderArgs(e, k + 1) + [Control(')')];
      assert RenderArgs(e, k) + [Control(')')] == ra + ([Control(',')] + rest);
      WrittenSplit(tokens, s, ra, [Control(',')] + rest);
      WrittenSplit(tokens, n, [Control(',')], rest);
      WrittenToken(tokens, n, [Control(',')], 0);
    }
  }

  /// Every well-formed expression, written out, reads back as itself and
  /// uses up all its tokens.
  lemma ParseRendered(e: Expression, loc: Option<Loc>)
    requires WellFormed(e)
    ensures Parse(Intended, Render(e), 0, loc) == Ok((e, |Render(e)|))
  {
    assert Render(e)[0..|Render(e)|] == Render(e);
    ParseRender(e, Render(e), 0, loc);
  }
}
