/** Expressions of the graph optimiser (core/planner/graph_opt.c) and its simplifier. */
module Exprs {
  import opened CInt

  datatype Op = Add | Sub | Mul | Div | Lt | Eq

  datatype Expr = Const(value: word) | Var(name: string) | Bin(op: Op, left: Expr, right: Expr)
  {
    predicate Additive() { Bin? && (op.Add? || op.Sub?) }
  }

  type Env = map<string, word>

  function Lookup(env: Env, x: string): word {
    if x in env then env[x] else 0
  }

  function Apply(op: Op, a: word, b: word): word {
    match op
    case Add => Plus(a, b)
    case Sub => Minus(a, b)
    case Mul => Times(a, b)
    case Div => Divide(a, b)
    case Lt => if a < b then 1 else 0
    case Eq => if a == b then 1 else 0
  }

  /** What C computes for `x op y` on 64 bits: sums, differences and products modulo
      2^64, the quotient rounded toward zero, and 1 or 0 for a comparison. A zero
      divisor gives the 0 of constant folding. */
  ghost predicate IsResult(op: Op, x: int, y: int, r: int) {
    && -9223372036854775808 <= r <= 9223372036854775807
    && match op
       case Add => (x + y - r) % 18446744073709551616 == 0
       case Sub => (x - y - r) % 18446744073709551616 == 0
       case Mul => (x * y - r) % 18446744073709551616 == 0
       case Div =>
         if y == 0 then r == 0
         else if x == -9223372036854775808 && y == -1 then r == x
         else Truncated(x, y, r)
       case Lt => r == if x < y then 1 else 0
       case Eq => r == if x == y then 1 else 0
  }

  lemma ApplyMeans(op: Op, a: word, b: word)
    ensures IsResult(op, a, b, Apply(op, a, b))
  {
    var x: int, y: int := a, b;
    match op
    case Add => WrapModular(x + y);
    case Sub => WrapModular(x - y);
    case Mul => WrapModular(x * y);
    case Div =>
      if y == 0 || (x == -9223372036854775808 && y == -1) {
        DivideUndefined(a);
      } else {
        DivideTruncates(a, b);
      }
    case Lt =>
    case Eq =>
  }

  lemma OneWord(v: int, r: int, s: int)
    requires (v - r) % 18446744073709551616 == 0 && (v - s) % 18446744073709551616 == 0
    requires -9223372036854775808 <= r <= 9223372036854775807
    requires -9223372036854775808 <= s <= 9223372036854775807
    ensures r == s
  {
  }

  lemma ResultUnique(op: Op, x: int, y: int, r: int, s: int)
    requires IsResult(op, x, y, r) && IsResult(op, x, y, s)
    ensures r == s
  {
    match op
    case Add => OneWord(x + y, r, s);
    case Sub => OneWord(x - y, r, s);
    case Mul => OneWord(x * y, r, s);
    case Div =>
      if y != 0 && !(x == -9223372036854775808 && y == -1) {
        TruncatedOnce(x, y, r, s);
      }
    case Lt =>
    case Eq =>
  }

  /** The evaluator's operators are those of C: their result and no other. */
  lemma ApplyExact(op: Op, a: word, b: word, r: int)
    ensures r == Apply(op, a, b) <==> IsResult(op, a, b, r)
  {
    ApplyMeans(op, a, b);
    if IsResult(op, a, b, r) {
      ResultUnique(op, a, b, r, Apply(op, a, b));
    }
  }

  function Eval(e: Expr, env: Env): word {
    match e
    case Const(c) => c
    case Var(x) => Lookup(env, x)
    case Bin(op, l, r) => Apply(op, Eval(l, env), Eval(r, env))
  }

  function Size(e: Expr): nat {
    match e case Bin(_, l, r) => 1 + Size(l) + Size(r) case _ => 1
  }

  // -------------------------------------------------------------- simplifier

  /** `(base +- inner) +- outer` is to become one offset from `base`. */
  predicate Mergeable(op: Op, l: Expr, r: Expr) {
    (op.Add? || op.Sub?) && r.Const? && r.value != 0 && l.Additive() && l.right.Const?
  }

  function Signed(op: Op, c: word): word {
    if op.Sub? then Negate(c) else c
  }

  /** The merged offset. The program adds the inner constant as it stands, whatever
      the sign of the inner node; with `fix`, the inner sign is respected. */
  function Offset(fix: bool, op: Op, l: Expr, r: Expr): word
    requires Mergeable(op, l, r)
  {
    Plus(if fix then Signed(l.op, l.right.value) else l.right.value, Signed(op, r.value))
  }

  function WithOffset(base: Expr, offset: word): Expr {
    if offset == 0 then base
    else if offset > 0 then Bin(Add, base, Const(offset))
    else Bin(Sub, base, Const(Negate(offset)))
  }

  /** One node of `rx_simplify_expr`, its children already simplified. */
  function Node(fix: bool, op: Op, l: Expr, r: Expr): Expr {
    if l.Const? && r.Const? then Const(Apply(op, l.value, r.value))
    else if (op.Add? || op.Sub?) && r == Const(0) then l
    else if Mergeable(op, l, r) then WithOffset(l.left, Offset(fix, op, l, r))
    else if (op.Mul? || op.Div?) && r == Const(1) then l
    else Bin(op, l, r)
  }

  /** `rx_simplify_expr`: as shipped, or with the sign of an inner SUB respected. */
  function Simplify(fix: bool, e: Expr): Expr {
    match e
    case Bin(op, l, r) => Node(fix, op, Simplify(fix, l), Simplify(fix, r))
    case _ => e
  }

  // ---------------------------------------------------------- value preserved

  lemma WithOffsetValue(base: Expr, offset: word, env: Env)
    ensures Eval(WithOffset(base, offset), env) == Plus(Eval(base, env), offset)
  {
    MinusNegate(Eval(base, env), offset);
  }

  lemma SignedValue(op: Op, x: word, c: word)
    requires op.Add? || op.Sub?
    ensures Apply(op, x, c) == Plus(x, Signed(op, c))
  {
  }

  /** The merge with the sign respected keeps the value. */
  lemma MergeValue(op: Op, l: Expr, r: Expr, env: Env)
    requires Mergeable(op, l, r)
    ensures Eval(WithOffset(l.left, Offset(true, op, l, r)), env) == Eval(Bin(op, l, r), env)
  {
    var x := Eval(l.left, env);
    var a, b := Signed(l.op, l.right.value), Signed(op, r.value);
    SignedValue(l.op, x, l.right.value);
    SignedValue(op, Plus(x, a), r.value);
    assert Eval(l.right, env) == l.right.value && Eval(r, env) == r.value;
    assert Eval(l, env) == Plus(x, a);
    PlusAssoc(x, a, b);
    WithOffsetValue(l.left, Plus(a, b), env);
  }

  lemma NeutralOperand(op: Op, x: word)
    ensures (op.Add? || op.Sub?) ==> Apply(op, x, 0) == x
    ensures (op.Mul? || op.Div?) ==> Apply(op, x, 1) == x
  {
  }

  lemma NodeValue(op: Op, l: Expr, r: Expr, env: Env)
    ensures Eval(Node(true, op, l, r), env) == Eval(Bin(op, l, r), env)
  {
    if l.Const? && r.Const? {
    } else if Mergeable(op, l, r) {
      MergeValue(op, l, r, env);
    } else {
      NeutralOperand(op, Eval(l, env));
    }
  }

  /** With the sign respected, simplification keeps the value of every expression in
      every environment. */
  lemma {:induction false} SimplifyKeepsValue(e: Expr, env: Env)
    ensures Eval(Simplify(true, e), env) == Eval(e, env)
  {
    match e
    case Bin(op, l, r) =>
      SimplifyKeepsValue(l, env);
      SimplifyKeepsValue(r, env);
      NodeValue(op, Simplify(true, l), Simplify(true, r), env);
    case _ =>
  }

  // ------------------------------------------------- normal forms, size, again

  predicate Settled(op: Op, l: Expr, r: Expr) {
    && !(l.Const? && r.Const?)
    && !((op.Add? || op.Sub?) && r == Const(0))
    && !Mergeable(op, l, r)
    && !((op.Mul? || op.Div?) && r == Const(1))
  }

  /** Nothing left to rewrite, anywhere. */
  predicate Normal(e: Expr) {
    match e
    case Bin(op, l, r) => Normal(l) && Normal(r) && Settled(op, l, r)
    case _ => true
  }

  lemma {:induction false} SimplifyIsNormal(fix: bool, e: Expr)
    ensures Normal(Simplify(fix, e))
  {
    match e
    case Bin(op, l, r) =>
      SimplifyIsNormal(fix, l);
      SimplifyIsNormal(fix, r);
    case _ =>
  }

  lemma {:induction false} NormalStays(fix: bool, e: Expr)
    requires Normal(e)
    ensures Simplify(fix, e) == e
  {
    match e
    case Bin(op, l, r) =>
      NormalStays(fix, l);
      NormalStays(fix, r);
    case _ =>
  }

  /** Simplifying twice is simplifying once, with either rule. */
  lemma SimplifyIdempotent(fix: bool, e: Expr)
    ensures Simplify(fix, Simplify(fix, e)) == Simplify(fix, e)
  {
    SimplifyIsNormal(fix, e);
    NormalStays(fix, Simplify(fix, e));
  }

  /** Neutral right operands vanish, and operations on constants are folded. */
  lemma NeutralVanishes(fix: bool, e: Expr, op: Op, a: word, b: word)
    ensures Simplify(fix, Bin(Add, e, Const(0))) == Simplify(fix, Bin(Sub, e, Const(0))) == Simplify(fix, e)
    ensures Simplify(fix, Bin(Mul, e, Const(1))) == Simplify(fix, Bin(Div, e, Const(1))) == Simplify(fix, e)
    ensures Simplify(fix, Bin(op, Const(a), Const(b))).Const?
    ensures IsResult(op, a, b, Simplify(fix, Bin(op, Const(a), Const(b))).value)
  {
    var s := Simplify(fix, e);
    if s.Const? {
      NeutralOperand(Add, s.value);
      NeutralOperand(Sub, s.value);
      NeutralOperand(Mul, s.value);
      NeutralOperand(Div, s.value);
    }
    ApplyMeans(op, a, b);
  }

  lemma NodeShrinks(fix: bool, op: Op, l: Expr, r: Expr)
    ensures Size(Node(fix, op, l, r)) <= 1 + Size(l) + Size(r)
  {
  }

  /** Simplification never grows the tree. */
  lemma {:induction false} SimplifyShrinks(fix: bool, e: Expr)
    ensures Size(Simplify(fix, e)) <= Size(e)
  {
    match e
    case Bin(op, l, r) =>
      SimplifyShrinks(fix, l);
      SimplifyShrinks(fix, r);
      NodeShrinks(fix, op, Simplify(fix, l), Simplify(fix, r));
    case _ =>
  }

  // --------------------------------------------------------- the shipped merge

  /** The node merges into an inner subtraction. */
  predicate MeetsSub(op: Op, l: Expr, r: Expr) {
    !(l.Const? && r.Const?) && Mergeable(op, l, r) && l.op.Sub?
  }

  /** Some merge done while simplifying `e` as shipped meets an inner subtraction. */
  predicate SomeMergeMeetsSub(e: Expr) {
    match e
    case Bin(op, l, r) =>
      SomeMergeMeetsSub(l) || SomeMergeMeetsSub(r) || MeetsSub(op, Simplify(false, l), Simplify(false, r))
    case _ => false
  }

  /** Where no merge meets an inner subtraction, the shipped simplifier is the one
      with the sign respected, hence keeps every value. */
  lemma {:induction false} ShippedIsSound(e: Expr)
    requires !SomeMergeMeetsSub(e)
    ensures Simplify(false, e) == Simplify(true, e)
    ensures forall env :: Eval(Simplify(false, e), env) == Eval(e, env)
  {
    match e {
      case Bin(op, l, r) =>
        ShippedIsSound(l);
        ShippedIsSound(r);
      case _ =>
    }
    forall env {
      SimplifyKeepsValue(e, env);
    }
  }

  function Twice(c: word): word { Plus(c, c) }

  lemma ShippedOffset(op: Op, l: Expr, r: Expr)
    requires Mergeable(op, l, r) && l.op.Sub?
    ensures Offset(false, op, l, r) == Plus(Offset(true, op, l, r), Twice(l.right.value))
  {
    WrongSign(l.right.value, Signed(op, r.value));
  }

  /** At one node the shipped value is off by twice the inner constant, in every
      environment alike; so the shipped node keeps the value exactly when it does
      not merge into a subtraction of something other than 0 or MIN. */
  lemma ShippedNodeExact(op: Op, l: Expr, r: Expr, env: Env)
    ensures MeetsSub(op, l, r) ==>
              Eval(Node(false, op, l, r), env) == Plus(Eval(Bin(op, l, r), env), Twice(l.right.value))
    ensures Eval(Node(false, op, l, r), env) == Eval(Bin(op, l, r), env) <==>
            !MeetsSub(op, l, r) || l.right.value == 0 || l.right.value == MIN
  {
    NodeValue(op, l, r, env);
    if MeetsSub(op, l, r) {
      var c := l.right.value;
      ShippedOffset(op, l, r);
      WithOffsetValue(l.left, Offset(false, op, l, r), env);
      WithOffsetValue(l.left, Offset(true, op, l, r), env);
      PlusAssoc(Eval(l.left, env), Offset(true, op, l, r), Twice(c));
      PlusCancels(Eval(Bin(op, l, r), env), Twice(c));
      DoubleIsZero(c);
    }
  }

  // ------------------------------------------------------------ additive chains

  datatype Term = Term(op: Op, value: word)

  predicate AdditiveTerms(ts: seq<Term>) {
    forall t | t in ts :: t.op.Add? || t.op.Sub?
  }

  /** `x +- c1 +- c2 ...`, nested to the left. */
  function Chain(x: string, ts: seq<Term>): Expr {
    if ts == [] then Var(x)
    else var n := |ts| - 1; Bin(ts[n].op, Chain(x, ts[..n]), Const(ts[n].value))
  }

  /** What simplification carries along a chain: the one term left of all so far, of
      value 0 when there is none. It is arithmetic on the terms alone. */
  function CarryStep(fix: bool, k: Term, t: Term): Term {
    if t.value == 0 then k
    else if k.value == 0 then t
    else
      var offset := Plus(if fix then Signed(k.op, k.value) else k.value, Signed(t.op, t.value));
      if offset >= 0 then Term(Add, offset) else Term(Sub, Negate(offset))
  }

  function Carried(fix: bool, ts: seq<Term>): Term {
    if ts == [] then Term(Add, 0)
    else var n := |ts| - 1; CarryStep(fix, Carried(fix, ts[..n]), ts[n])
  }

  function Shifted(base: Expr, k: Term): Expr {
    if k.value == 0 then base else Bin(k.op, base, Const(k.value))
  }

  lemma CarryNode(fix: bool, x: string, k: Term, t: Term)
    requires (k.op.Add? || k.op.Sub?) && (t.op.Add? || t.op.Sub?)
    ensures Node(fix, t.op, Shifted(Var(x), k), Const(t.value)) == Shifted(Var(x), CarryStep(fix, k, t))
    ensures CarryStep(fix, k, t).op.Add? || CarryStep(fix, k, t).op.Sub?
  {
  }

  /** A simplified chain is the variable, or the variable and the carried term. */
  lemma {:induction false} SimplifiedChain(fix: bool, x: string, ts: seq<Term>)
    requires AdditiveTerms(ts)
    ensures Simplify(fix, Chain(x, ts)) == Shifted(Var(x), Carried(fix, ts))
    ensures Carried(fix, ts).op.Add? || Carried(fix, ts).op.Sub?
  {
    if ts != [] {
      var n := |ts| - 1;
      SimplifiedChain(fix, x, ts[..n]);
      CarryNode(fix, x, Carried(fix, ts[..n]), ts[n]);
    }
  }

  /** Twice the sum, modulo 2^64, of the carried constants that a shipped merge takes
      with the wrong sign. */
  function WrongMass(ts: seq<Term>): word {
    if ts == [] then 0
    else
      var n := |ts| - 1;
      var k := Carried(false, ts[..n]);
      Plus(WrongMass(ts[..n]), if k.op.Sub? && ts[n].value != 0 then Twice(k.value) else 0)
  }

  lemma CarriedMeets(x: string, k: Term, t: Term)
    requires (k.op.Add? || k.op.Sub?) && (t.op.Add? || t.op.Sub?)
    ensures MeetsSub(t.op, Shifted(Var(x), k), Const(t.value)) <==> k.op.Sub? && k.value != 0 && t.value != 0
    ensures Twice(0) == 0
  {
  }

  /** A whole chain: the shipped result is off by the wrong mass. */
  lemma {:induction false} ShippedChainError(x: string, ts: seq<Term>, env: Env)
    requires AdditiveTerms(ts)
    ensures Eval(Simplify(false, Chain(x, ts)), env) == Plus(Eval(Chain(x, ts), env), WrongMass(ts))
  {
    if ts != [] {
      var n := |ts| - 1;
      var t, pre := ts[n], ts[..n];
      ShippedChainError(x, pre, env);
      var l, r := Simplify(false, Chain(x, pre)), Const(t.value);
      var v, m, s := Eval(Chain(x, pre), env), WrongMass(pre), Signed(t.op, t.value);
      var k := Carried(false, pre);
      var wrong: word := if k.op.Sub? && t.value != 0 then Twice(k.value) else 0;
      SimplifiedChain(false, x, pre);
      CarriedMeets(x, k, t);
      ShippedNodeExact(t.op, l, r, env);
      SignedValue(t.op, Eval(l, env), t.value);
      SignedValue(t.op, v, t.value);
      assert Eval(Simplify(false, Chain(x, ts)), env) == Plus(Plus(Plus(v, m), s), wrong);
      PlusAssoc(v, m, s);
      PlusAssoc(v, s, m);
      PlusAssoc(Plus(v, s), m, wrong);
    }
  }

  /** A chain keeps its value, in any one and in every environment, exactly when its
      wrong mass is zero. */
  lemma ShippedChainExact(x: string, ts: seq<Term>, env: Env)
    requires AdditiveTerms(ts)
    ensures Eval(Simplify(false, Chain(x, ts)), env) == Eval(Chain(x, ts), env) <==> WrongMass(ts) == 0
  {
    ShippedChainError(x, ts, env);
    PlusCancels(Eval(Chain(x, ts), env), WrongMass(ts));
  }

  /** `+1 -1 +1 -1 ...`, `n` terms. */
  function Alternating(n: nat): (ts: seq<Term>)
    ensures |ts| == n
  {
    if n == 0 then []
    else Alternating(n - 1) + [Term(if n % 2 == 1 then Add else Sub, 1)]
  }

  lemma AlternatingStep(fix: bool, n: nat)
    requires n > 0
    ensures CarryStep(fix, Term(Add, (n - 1) % 2), Term(if n % 2 == 1 then Add else Sub, 1)) == Term(Add, n % 2)
  {
  }

  lemma {:induction false} AlternatingCarry(fix: bool, n: nat)
    ensures AdditiveTerms(Alternating(n)) && Carried(fix, Alternating(n)) == Term(Add, n % 2)
  {
    if n > 0 {
      var ts, pre := Alternating(n), Alternating(n - 1);
      AlternatingCarry(fix, n - 1);
      assert ts[..n - 1] == pre && ts[n - 1] == Term(if n % 2 == 1 then Add else Sub, 1);
      assert Carried(fix, ts) == CarryStep(fix, Carried(fix, pre), ts[n - 1]);
      AlternatingStep(fix, n);
    }
  }

  /** An alternating chain of any length collapses to `x` or `x + 1`, with either rule. */
  lemma AlternatingCollapses(fix: bool, x: string, n: nat)
    ensures Simplify(fix, Chain(x, Alternating(n))) ==
            if n % 2 == 0 then Var(x) else Bin(Add, Var(x), Const(1))
  {
    AlternatingCarry(fix, n);
    SimplifiedChain(fix, x, Alternating(n));
  }

  /** Starting with the subtraction, the shipped rule gives `x + 2` for `(x - 1) + 1`. */
  lemma ShippedCounterexample(x: string, env: Env)
    ensures var e := Chain(x, [Term(Sub, 1), Term(Add, 1)]);
            && Simplify(false, e) == Bin(Add, Var(x), Const(2))
            && Simplify(true, e) == Var(x)
            && Eval(Simplify(false, e), env) != Eval(e, env)
  {
    var ts := [Term(Sub, 1), Term(Add, 1)];
    assert ts[..1] == [Term(Sub, 1)] && ts[..1][..0] == [];
    assert Chain(x, ts[..1]) == Bin(Sub, Var(x), Const(1));
    assert Chain(x, ts) == Bin(Add, Chain(x, ts[..1]), Const(1));
    assert Simplify(false, Chain(x, ts[..1])) == Simplify(true, Chain(x, ts[..1])) == Chain(x, ts[..1]);
    SimplifyKeepsValue(Chain(x, ts), env);
    PlusCancels(Lookup(env, x), 2);
  }

  // -------------------------------------------------------------- substitution

  type Binding = map<string, Expr>

  function Subst(e: Expr, b: Binding): Expr {
    match e
    case Const(_) => e
    case Var(x) => if x in b then b[x] else e
    case Bin(op, l, r) => Bin(op, Subst(l, b), Subst(r, b))
  }

  /** The environment in which each bound name has its argument's value. */
  function Bound(b: Binding, env: Env): Env {
    env + map x | x in b :: Eval(b[x], env)
  }

  /** Evaluating after substitution is evaluating with the arguments bound. */
  lemma {:induction false} SubstIsBinding(e: Expr, b: Binding, env: Env)
    ensures Eval(Subst(e, b), env) == Eval(e, Bound(b, env))
  {
    match e
    case Bin(op, l, r) =>
      SubstIsBinding(l, b, env);
      SubstIsBinding(r, b, env);
    case _ =>
  }

  predicate Uses(e: Expr, x: string) {
    match e
    case Const(_) => false
    case Var(y) => x == y
    case Bin(_, l, r) => Uses(l, x) || Uses(r, x)
  }

  /** Only the variables an expression uses matter to it. */
  lemma {:induction false} EvalAgrees(e: Expr, a: Env, b: Env)
    requires forall x | Uses(e, x) :: Lookup(a, x) == Lookup(b, x)
    ensures Eval(e, a) == Eval(e, b)
  {
    match e
    case Bin(op, l, r) =>
      assert forall x :: Uses(l, x) || Uses(r, x) ==> Uses(e, x);
      EvalAgrees(l, a, b);
      EvalAgrees(r, a, b);
    case Var(x) => assert Uses(e, x);
    case Const(_) =>
  }

  lemma NodeKeepsUses(fix: bool, op: Op, l: Expr, r: Expr, x: string)
    ensures Uses(Node(fix, op, l, r), x) <==> Uses(l, x) || Uses(r, x)
  {
  }

  /** Simplification keeps exactly the variables of an expression. */
  lemma {:induction false} SimplifyKeepsUses(fix: bool, e: Expr, x: string)
    ensures Uses(Simplify(fix, e), x) <==> Uses(e, x)
  {
    match e
    case Bin(op, l, r) =>
      SimplifyKeepsUses(fix, l, x);
      SimplifyKeepsUses(fix, r, x);
      NodeKeepsUses(fix, op, Simplify(fix, l), Simplify(fix, r), x);
    case _ =>
  }
}
