/// The precedence folding of a parenthesised group in `collect_expr`
/// (the `combine!` macro, src/assembler/expression.rs): three left-to-right
/// passes, one per binding tier, each folding the operators of its tier
/// left-associatively.
module RsPrecedence {
  import opened Wrappers
  import opened RsExpression

  /// `ExprElem`: an operand or an operator of a group, in reading order.
  datatype Elem = Operand(e: Expression) | Operator(op: Op)

  /// The same group, read as its first operand followed by
  /// operator-operand links.
  datatype Link = Link(op: Op, rhs: Expression)
  datatype Chain = Chain(first: Expression, links: seq<Link>)

  /// The tier an operator is folded in: tier 2 (`&`, `|`, `^`) is folded first
  /// and binds tightest, then tier 1 (`*`, `/`, `%`), then tier 0 (`+`, `-`).
  function Tier(op: Op): (t: nat)
    ensures t <= 2
  {
    match op
    case And => 2
    case Or => 2
    case Xor => 2
    case Mul => 1
    case Div => 1
    case Mod => 1
    case _ => 0
  }

  // ---------------------------------------------------------------------------
  // Groups as element sequences

  /// Operator-operand pairs, as they follow the first operand of a group.
  predicate IsLinks(ys: seq<Elem>)
    decreases |ys|
  {
    |ys| == 0 || (|ys| >= 2 && ys[0].Operator? && ys[1].Operand? && IsLinks(ys[2..]))
  }

  function ToLinks(ys: seq<Elem>): seq<Link>
    requires IsLinks(ys)
    decreases |ys|
  {
    if |ys| == 0 then [] else [Link(ys[0].op, ys[1].e)] + ToLinks(ys[2..])
  }

  function FlatLinks(ls: seq<Link>): (ys: seq<Elem>)
    ensures |ys| == 2 * |ls|
  {
    if |ls| == 0 then [] else [Operator(ls[0].op), Operand(ls[0].rhs)] + FlatLinks(ls[1..])
  }

  /// A complete group: an operand, then operator-operand pairs.
  predicate Balanced(xs: seq<Elem>)
  {
    |xs| > 0 && xs[0].Operand? && IsLinks(xs[1..])
  }

  function ToChain(xs: seq<Elem>): Chain
    requires Balanced(xs)
  {
    Chain(xs[0].e, ToLinks(xs[1..]))
  }

  function Flat(c: Chain): seq<Elem>
  {
    [Operand(c.first)] + FlatLinks(c.links)
  }

  lemma {:induction false} LinksRoundTrip(ls: seq<Link>)
    ensures IsLinks(FlatLinks(ls)) && ToLinks(FlatLinks(ls)) == ls
    decreases |ls|
  {
    if |ls| > 0 {
      LinksRoundTrip(ls[1..]);
      assert FlatLinks(ls)[2..] == FlatLinks(ls[1..]);
    }
  }

  lemma {:induction false} ElemsRoundTrip(ys: seq<Elem>)
    requires IsLinks(ys)
    ensures FlatLinks(ToLinks(ys)) == ys
    decreases |ys|
  {
    if |ys| > 0 {
      ElemsRoundTrip(ys[2..]);
      var ls := ToLinks(ys);
      assert ls[1..] == ToLinks(ys[2..]);
    }
  }

  /// Reading a group as a chain loses nothing, and every chain is a group.
  lemma ChainRoundTrip(xs: seq<Elem>, c: Chain)
    ensures Balanced(Flat(c)) && ToChain(Flat(c)) == c
    ensures Balanced(xs) ==> Flat(ToChain(xs)) == xs
  {
    LinksRoundTrip(c.links);
    assert Flat(c)[1..] == FlatLinks(c.links);
    if Balanced(xs) {
      ElemsRoundTrip(xs[1..]);
    }
  }

  // ---------------------------------------------------------------------------
  // One pass, and the three passes

  /// One `combine!` pass from operand `cur` on: an operator of tier `t` joins
  /// the operand folded so far with the operand after it; any other operator
  /// is kept, and the pass goes on from the operand after it.
  function PassFrom(t: nat, cur: Expression, ls: seq<Link>): (c: Chain)
    ensures |c.links| <= |ls|
    decreases |ls|
  {
    if |ls| == 0 then Chain(cur, [])
    else if Tier(ls[0].op) == t then PassFrom(t, Binary(ls[0].op, cur, ls[0].rhs), ls[1..])
    else
      var rest := PassFrom(t, ls[0].rhs, ls[1..]);
      Chain(cur, [Link(ls[0].op, rest.first)] + rest.links)
  }

  function Pass(t: nat, c: Chain): Chain
  {
    PassFrom(t, c.first, c.links)
  }

  /// The three passes of `collect_expr`, tightest tier first.
  function Combined(c: Chain): Chain
  {
    Pass(0, Pass(1, Pass(2, c)))
  }

  /// Unfolding `PassFrom` over a link written out in front.
  lemma PassFromCons(t: nat, cur: Expression, l: Link, rest: seq<Link>)
    ensures PassFrom(t, cur, [l] + rest) ==
      if Tier(l.op) == t then PassFrom(t, Binary(l.op, cur, l.rhs), rest)
      else Chain(cur, [Link(l.op, PassFrom(t, l.rhs, rest).first)] + PassFrom(t, l.rhs, rest).links)
  {
    assert ([l] + rest)[1..] == rest;
  }

  /// One expansion of `combine!`: a pass over the elements with an iterator,
  /// popping the left operand off the output and taking the right operand
  /// from the iterator.
  method CombineTier(t: nat, xs: seq<Elem>) returns (out: seq<Elem>)
    requires Balanced(xs)
    ensures out == Flat(Pass(t, ToChain(xs)))
  {
    ghost var whole := Flat(Pass(t, ToChain(xs)));
    out := [];
    var j := 0;
    StartPass(t, xs);
    while j < |xs|
      invariant 0 <= j <= |xs|
      invariant j % 2 == 1 ==> AfterOperand(t, whole, out, xs, j)
      invariant j % 2 == 0 ==> BeforeOperand(t, whole, out, xs, j)
    {
      var elem := xs[j];
      j := j + 1;
      if elem.Operator? && Tier(elem.op) == t {
        FoldOperator(t, whole, out, xs, j - 1);
        var a := out[|out| - 1];
        out := out[..|out| - 1];
        var b := xs[j];
        j := j + 1;
        out := out + [Operand(Binary(elem.op, a.e, b.e))];
      } else {
        if j % 2 == 1 {
          PushOperand(t, whole, out, xs, j - 1);
        } else {
          KeepOperator(t, whole, out, xs, j - 1);
        }
        out := out + [elem];
      }
    }
    FinishPass(t, whole, out, xs);
  }

  lemma StartPass(t: nat, xs: seq<Elem>)
    requires Balanced(xs)
    ensures BeforeOperand(t, Flat(Pass(t, ToChain(xs))), [], xs, 0)
  {
    assert [] + Flat(Pass(t, ToChain(xs))) == Flat(Pass(t, ToChain(xs)));
  }

  lemma FinishPass(t: nat, whole: seq<Elem>, out: seq<Elem>, xs: seq<Elem>)
    requires AfterOperand(t, whole, out, xs, |xs|)
    ensures out == whole
  {
    assert xs[|xs|..] == [];
    assert out == out[..|out| - 1] + [out[|out| - 1]];
  }

  /// The three `combine!` expansions of a group and the final pop: the one
  /// element left is the group's precedence tree.
  method CombineGroup(xs: seq<Elem>) returns (e: Expression)
    requires Balanced(xs)
    ensures e == Reference(ToChain(xs))
  {
    var a := CombineTier(2, xs);
    ChainRoundTrip(xs, Pass(2, ToChain(xs)));
    var b := CombineTier(1, a);
    ChainRoundTrip(xs, Pass(1, Pass(2, ToChain(xs))));
    var c := CombineTier(0, b);
    CombinedIsReference(ToChain(xs));
    assert |c| == 1 && c[0].Operand?;
    e := c[0].e;
  }

  /// The loop state after an operand: the output ends in the operand folded
  /// so far, and the rest of the pass runs on from it.
  ghost predicate AfterOperand(t: nat, whole: seq<Elem>, out: seq<Elem>, xs: seq<Elem>, j: nat)
  {
    && j <= |xs| && |out| > 0 && out[|out| - 1].Operand? && IsLinks(xs[j..])
    && whole == out[..|out| - 1] + Flat(PassFrom(t, out[|out| - 1].e, ToLinks(xs[j..])))
  }

  /// The loop state before an operand that starts the rest of the pass.
  ghost predicate BeforeOperand(t: nat, whole: seq<Elem>, out: seq<Elem>, xs: seq<Elem>, j: nat)
  {
    && j < |xs| && xs[j].Operand? && IsLinks(xs[j + 1..])
    && whole == out + Flat(PassFrom(t, xs[j].e, ToLinks(xs[j + 1..])))
  }

  /// The loop step that pushes an operand.
  lemma PushOperand(t: nat, whole: seq<Elem>, out: seq<Elem>, xs: seq<Elem>, j: nat)
    requires BeforeOperand(t, whole, out, xs, j)
    ensures xs[j].Operand? && AfterOperand(t, whole, out + [xs[j]], xs, j + 1)
  {
    assert (out + [xs[j]])[..|out|] == out;
  }

  /// The loop step that folds an operator of the pass's tier.
  lemma FoldOperator(t: nat, whole: seq<Elem>, out: seq<Elem>, xs: seq<Elem>, j: nat)
    requires AfterOperand(t, whole, out, xs, j) && j < |xs|
    requires xs[j].Operator? && Tier(xs[j].op) == t
    ensures j + 1 < |xs| && xs[j + 1].Operand?
    ensures AfterOperand(t, whole,
      out[..|out| - 1] + [Operand(Binary(xs[j].op, out[|out| - 1].e, xs[j + 1].e))], xs, j + 2)
  {
    assert xs[j..][2..] == xs[j + 2..];
    var o := out[..|out| - 1] + [Operand(Binary(xs[j].op, out[|out| - 1].e, xs[j + 1].e))];
    assert o[..|o| - 1] == out[..|out| - 1];
  }

  /// The loop step that keeps an operator of another tier.
  lemma KeepOperator(t: nat, whole: seq<Elem>, out: seq<Elem>, xs: seq<Elem>, j: nat)
    requires AfterOperand(t, whole, out, xs, j) && j < |xs|
    requires !(xs[j].Operator? && Tier(xs[j].op) == t)
    ensures xs[j].Operator? && BeforeOperand(t, whole, out + [xs[j]], xs, j + 1)
  {
    assert xs[j..][2..] == xs[j + 2..];
    assert xs[j + 1..][1..] == xs[j + 2..];
    var cur := out[|out| - 1].e;
    var rest := PassFrom(t, xs[j + 1].e, ToLinks(xs[j + 2..]));
    var ls := [Link(xs[j].op, rest.first)] + rest.links;
    assert ls[1..] == rest.links;
    assert out == out[..|out| - 1] + [Operand(cur)];
  }

  // ---------------------------------------------------------------------------
  // What the passes keep and remove

  /// The number of operators of tier `u`.
  function Count(ls: seq<Link>, u: nat): (n: nat)
    ensures n <= |ls|
  {
    if |ls| == 0 then 0 else (if Tier(ls[0].op) == u then 1 else 0) + Count(ls[1..], u)
  }

  lemma {:induction false} CountAppend(a: seq<Link>, b: seq<Link>, u: nat)
    ensures Count(a + b, u) == Count(a, u) + Count(b, u)
    decreases |a|
  {
    if |a| == 0 {
      assert a + b == b;
    } else {
      assert (a + b)[1..] == a[1..] + b;
      CountAppend(a[1..], b, u);
    }
  }

  /// A pass removes every operator of its tier and keeps the others.
  lemma {:induction false} PassCount(t: nat, cur: Expression, ls: seq<Link>, u: nat)
    ensures Count(PassFrom(t, cur, ls).links, u) == if u == t then 0 else Count(ls, u)
    decreases |ls|
  {
    if |ls| > 0 {
      if Tier(ls[0].op) == t {
        PassCount(t, Binary(ls[0].op, cur, ls[0].rhs), ls[1..], u);
      } else {
        PassCount(t, ls[0].rhs, ls[1..], u);
        var rest := PassFrom(t, ls[0].rhs, ls[1..]);
        assert ([Link(ls[0].op, rest.first)] + rest.links)[1..] == rest.links;
      }
    }
  }

  /// Every operator has a tier.
  lemma {:induction false} CountTotal(ls: seq<Link>)
    ensures Count(ls, 0) + Count(ls, 1) + Count(ls, 2) == |ls|
    decreases |ls|
  {
    if |ls| > 0 {
      CountTotal(ls[1..]);
    }
  }

  /// A pass over links without operators of its tier keeps them all.
  lemma {:induction false} PassIdentity(t: nat, cur: Expression, ls: seq<Link>)
    requires Count(ls, t) == 0
    ensures PassFrom(t, cur, ls) == Chain(cur, ls)
    decreases |ls|
  {
    if |ls| > 0 {
      PassIdentity(t, ls[0].rhs, ls[1..]);
      assert [Link(ls[0].op, ls[0].rhs)] + ls[1..] == ls;
    }
  }

  /// After the three passes no operator is left.
  lemma CombinedSingle(c: Chain)
    ensures Combined(c).links == []
  {
    var a := Pass(2, c);
    var b := Pass(1, a);
    PassCount(2, c.first, c.links, 2);
    PassCount(1, a.first, a.links, 1);
    PassCount(1, a.first, a.links, 2);
    PassCount(0, b.first, b.links, 0);
    PassCount(0, b.first, b.links, 1);
    PassCount(0, b.first, b.links, 2);
    CountTotal(Combined(c).links);
  }

  /// Two chains joined by an operator.
  function Join(l: Chain, p: Op, r: Chain): (c: Chain)
    ensures |c.links| == |l.links| + 1 + |r.links|
  {
    Chain(l.first, l.links + [Link(p, r.first)] + r.links)
  }

  /// An operator outside the pass's tier splits the pass in two.
  lemma {:induction false} PassJoin(t: nat, cur: Expression, ls: seq<Link>, p: Op, y: Expression, rs: seq<Link>)
    requires Tier(p) != t
    ensures PassFrom(t, cur, ls + [Link(p, y)] + rs) == Join(PassFrom(t, cur, ls), p, PassFrom(t, y, rs))
    decreases |ls|
  {
    var all := ls + [Link(p, y)] + rs;
    if |ls| == 0 {
      assert all == [Link(p, y)] + rs;
      PassFromCons(t, cur, Link(p, y), rs);
    } else {
      assert all == [ls[0]] + (ls[1..] + [Link(p, y)] + rs);
      PassFromCons(t, cur, ls[0], ls[1..] + [Link(p, y)] + rs);
      if Tier(ls[0].op) == t {
        PassJoin(t, Binary(ls[0].op, cur, ls[0].rhs), ls[1..], p, y, rs);
      } else {
        PassJoin(t, ls[0].rhs, ls[1..], p, y, rs);
      }
    }
  }

  /// An operator of the pass's tier at the end, after links that fold to a
  /// single operand, folds onto that operand.
  lemma {:induction false} PassSnoc(t: nat, cur: Expression, ls: seq<Link>, p: Op, y: Expression)
    requires Tier(p) == t && PassFrom(t, cur, ls).links == []
    ensures PassFrom(t, cur, ls + [Link(p, y)]) == Chain(Binary(p, PassFrom(t, cur, ls).first, y), [])
    decreases |ls|
  {
    if |ls| == 0 {
      assert ls + [Link(p, y)] == [Link(p, y)] + [];
      PassFromCons(t, cur, Link(p, y), []);
    } else {
      assert ls + [Link(p, y)] == [ls[0]] + (ls[1..] + [Link(p, y)]);
      PassFromCons(t, cur, ls[0], ls[1..] + [Link(p, y)]);
      PassSnoc(t, Binary(ls[0].op, cur, ls[0].rhs), ls[1..], p, y);
    }
  }

  // ---------------------------------------------------------------------------
  // The reference: split at the last operator of the loosest tier present

  /// The position of the last operator of tier `u`.
  function LastOfTier(ls: seq<Link>, u: nat): (k: Option<nat>)
    ensures k.None? <==> Count(ls, u) == 0
    ensures k.Some? ==> k.value < |ls| && Tier(ls[k.value].op) == u && Count(ls[k.value + 1..], u) == 0
    decreases |ls|
  {
    if |ls| == 0 then None
    else
      var k := LastOfTier(ls[1..], u);
      if k.Some? then
        assert ls[k.value + 1 + 1..] == ls[1..][k.value + 1..];
        Some(k.value + 1)
      else if Tier(ls[0].op) == u then Some(0)
      else None
  }

  /// Where the reference splits a group: the last operator of tier 0 if any,
  /// else of tier 1, else of tier 2; none for a single operand.
  function Loosest(ls: seq<Link>): Option<nat>
  {
    if Count(ls, 0) > 0 then LastOfTier(ls, 0)
    else if Count(ls, 1) > 0 then LastOfTier(ls, 1)
    else LastOfTier(ls, 2)
  }

  /// The tree a group denotes under the usual reading: the loosest operator
  /// that comes last is the root, with the parts on either side as operands.
  function Reference(c: Chain): Expression
    decreases |c.links|
  {
    var k := Loosest(c.links);
    if k.None? then c.first
    else
      var l := c.links[k.value];
      Binary(l.op, Reference(Chain(c.first, c.links[..k.value])), Reference(Chain(l.rhs, c.links[k.value + 1..])))
  }

  /// The passes build the reference tree: `&`, `|`, `^` bind tighter than
  /// `*`, `/`, `%`, which bind tighter than `+`, `-`, and each tier groups to
  /// the left.
  lemma {:induction false} CombinedIsReference(c: Chain)
    ensures Combined(c) == Chain(Reference(c), [])
    decreases |c.links|
  {
    var k := Loosest(c.links);
    if k.None? {
      CountTotal(c.links);
    } else {
      var i := k.value;
      var p := c.links[i].op;
      var l, r := Chain(c.first, c.links[..i]), Chain(c.links[i].rhs, c.links[i + 1..]);
      assert c.links == l.links + [Link(p, r.first)] + r.links;
      CombinedIsReference(l);
      CombinedIsReference(r);
      CountAppend(l.links + [Link(p, r.first)], r.links, 0);
      CountAppend(l.links + [Link(p, r.first)], r.links, 1);
      CountAppend(l.links, [Link(p, r.first)], 0);
      CountAppend(l.links, [Link(p, r.first)], 1);
      if Tier(p) == 0 {
        CombinedTier0(l, p, r);
      } else if Tier(p) == 1 {
        CombinedTier1(l, p, r);
      } else {
        CombinedTier2(l, p, r);
      }
    }
  }

  /// The root is an operator of tier 0 with none of its tier to its right.
  lemma CombinedTier0(l: Chain, p: Op, r: Chain)
    requires Tier(p) == 0 && Count(r.links, 0) == 0
    requires Combined(l) == Chain(Reference(l), []) && Combined(r) == Chain(Reference(r), [])
    ensures Combined(Join(l, p, r)) == Chain(Binary(p, Reference(l), Reference(r)), [])
  {
    PassJoin(2, l.first, l.links, p, r.first, r.links);
    var l2, r2 := Pass(2, l), Pass(2, r);
    PassJoin(1, l2.first, l2.links, p, r2.first, r2.links);
    var l1, r1 := Pass(1, l2), Pass(1, r2);
    PassCount(2, r.first, r.links, 0);
    PassCount(2, r.first, r.links, 2);
    PassCount(1, r2.first, r2.links, 0);
    PassCount(1, r2.first, r2.links, 1);
    PassCount(1, r2.first, r2.links, 2);
    CountTotal(r1.links);
    assert r1.links == [];
    assert l1.links + [Link(p, r1.first)] + r1.links == l1.links + [Link(p, r1.first)];
    PassSnoc(0, l1.first, l1.links, p, r1.first);
  }

  /// The root is an operator of tier 1, no tier 0 operator is present and none
  /// of tier 1 lies to its right.
  lemma CombinedTier1(l: Chain, p: Op, r: Chain)
    requires Tier(p) == 1
    requires Count(l.links, 0) == 0 && Count(r.links, 0) == 0 && Count(r.links, 1) == 0
    requires Combined(l) == Chain(Reference(l), []) && Combined(r) == Chain(Reference(r), [])
    ensures Combined(Join(l, p, r)) == Chain(Binary(p, Reference(l), Reference(r)), [])
  {
    PassJoin(2, l.first, l.links, p, r.first, r.links);
    var l2, r2 := Pass(2, l), Pass(2, r);
    PassCount(2, r.first, r.links, 0);
    PassCount(2, r.first, r.links, 1);
    PassCount(2, r.first, r.links, 2);
    CountTotal(r2.links);
    assert r2.links == [];
    var l1 := Pass(1, l2);
    PassCount(2, l.first, l.links, 0);
    PassCount(2, l.first, l.links, 2);
    PassCount(1, l2.first, l2.links, 0);
    PassCount(1, l2.first, l2.links, 1);
    PassCount(1, l2.first, l2.links, 2);
    CountTotal(l1.links);
    assert l2.links + [Link(p, r2.first)] + r2.links == l2.links + [Link(p, r2.first)];
    PassSnoc(1, l2.first, l2.links, p, r2.first);
  }

  /// The root is an operator of tier 2, the only tier present, with no
  /// operator to its right.
  lemma CombinedTier2(l: Chain, p: Op, r: Chain)
    requires Tier(p) == 2
    requires Count(l.links, 0) == 0 && Count(l.links, 1) == 0
    requires Count(r.links, 0) == 0 && Count(r.links, 1) == 0 && Count(r.links, 2) == 0
    requires Combined(l) == Chain(Reference(l), []) && Combined(r) == Chain(Reference(r), [])
    ensures Combined(Join(l, p, r)) == Chain(Binary(p, Reference(l), Reference(r)), [])
  {
    CountTotal(r.links);
    assert r.links == [];
    var l2 := Pass(2, l);
    PassCount(2, l.first, l.links, 0);
    PassCount(2, l.first, l.links, 1);
    PassCount(2, l.first, l.links, 2);
    CountTotal(l2.links);
    assert l.links + [Link(p, r.first)] + r.links == l.links + [Link(p, r.first)];
    PassSnoc(2, l.first, l.links, p, r.first);
  }
}
