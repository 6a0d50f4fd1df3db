/** Precedence and association of the helper parser (core/planner/graph_opt.c): text
    with no more parentheses than they demand parses to the tree it was written for. */
module ExprFlat {
  import opened Lists
  import opened CInt
  import opened Exprs
  import opened ExprText

  /** How tightly an expression binds: comparisons 0, sums 1, products 2, atoms 3. */
  function Rank(e: Expr): nat {
    match e
    case Bin(Lt, _, _) => 0
    case Bin(Eq, _, _) => 0
    case Bin(Add, _, _) => 1
    case Bin(Sub, _, _) => 1
    case Bin(Mul, _, _) => 2
    case Bin(Div, _, _) => 2
    case _ => 3
  }

  /** The text of an expression. Operands of one rank associate to the left, except
      that a comparison takes no comparison for an operand. */
  function Flat(e: Expr): string
    decreases e, 0
  {
    match e
    case Const(c) => Signed10(c)
    case Var(x) => x
    case Bin(Lt, l, r) => FlatAt(1, l) + " < " + FlatAt(1, r)
    case Bin(Eq, l, r) => FlatAt(1, l) + " == " + FlatAt(1, r)
    case Bin(Add, l, r) => FlatAt(1, l) + " + " + FlatAt(2, r)
    case Bin(Sub, l, r) => FlatAt(1, l) + " - " + FlatAt(2, r)
    case Bin(Mul, l, r) => FlatAt(2, l) + " * " + FlatAt(3, r)
    case Bin(Div, l, r) => FlatAt(2, l) + " / " + FlatAt(3, r)
  }

  /** The text where at least `rank` is called for: parentheses around anything looser. */
  function FlatAt(rank: nat, e: Expr): string
    decreases e, 1
  {
    if Rank(e) < rank then "(" + Flat(e) + ")" else Flat(e)
  }

  /** Text that does not go on with a product. */
  predicate NoProduct(t: string) {
    var s := SkipSpace(t); s == "" || (s[0] != '*' && s[0] != '/')
  }

  predicate Closing(t: string) {
    t == "" || t[0] == ')'
  }

  lemma SkipTwice(t: string)
    ensures SkipSpace(SkipSpace(t)) == SkipSpace(t)
  {
  }

  lemma EndOfProduct(e: Expr, t: string)
    requires NoProduct(t)
    ensures MulLoop(BARE, e, t) == Ok(e, SkipSpace(t))
    ensures AddLoop(BARE, e, SkipSpace(t)) == AddLoop(BARE, e, t)
  {
    SkipTwice(t);
  }

  lemma EndOfSum(e: Expr, t: string)
    requires Closing(t)
    ensures NoProduct(t) && AddLoop(BARE, e, t) == Ok(e, t)
    ensures Consume(t, "==") == (false, t) && Consume(t, "<") == (false, t)
  {
  }

  /** What follows the left operand of a sum or a comparison ends a product. */
  lemma EndsProduct(op: Op, after: string)
    requires !op.Mul? && !op.Div?
    ensures NoProduct(Tail(op, after))
  {
    TailToken(op, after, "*", true);
    TailToken(op, after, "/", true);
  }

  /** One turn of the product loop. */
  lemma ProductTurn(op: Op, l: Expr, r: Expr, after: string, t: string)
    requires op.Mul? || op.Div?
    requires Primary(BARE, after) == Ok(r, t)
    ensures MulLoop(BARE, l, Tail(op, after)) == MulLoop(BARE, Bin(op, l, r), t)
  {
    TailToken(op, after, "*", true);
    TailToken(op, after, "/", false);
    PrimarySpace(BARE, after);
  }

  /** One turn of the sum loop: the operand is a whole product. */
  lemma SumTurn(op: Op, l: Expr, r: Expr, after: string, t: string)
    requires op.Add? || op.Sub?
    requires MulExpr(BARE, after) == Ok(r, t)
    ensures AddLoop(BARE, l, Tail(op, after)) == AddLoop(BARE, Bin(op, l, r), t)
  {
    TailToken(op, after, "+", true);
    TailToken(op, after, "-", false);
    PrimarySpace(BARE, after);
  }

  lemma SumBeforeComparison(op: Op, l: Expr, after: string)
    requires op.Lt? || op.Eq?
    ensures AddLoop(BARE, l, Tail(op, after)) == Ok(l, Symbol(op) + (" " + after))
  {
    TailToken(op, after, "+", true);
    TailToken(op, after, "-", false);
  }

  lemma SumSpace(s: string)
    ensures AddExpr(BARE, " " + s) == AddExpr(BARE, s)
  {
    PrimarySpace(BARE, s);
  }

  /** The one turn of a comparison. */
  lemma ComparisonTurn(op: Op, l: Expr, r: Expr, s: string, after: string, t: string)
    requires op.Lt? || op.Eq?
    requires AddExpr(BARE, s) == Ok(l, Symbol(op) + (" " + after))
    requires AddExpr(BARE, " " + after) == Ok(r, t)
    ensures Cmp(BARE, s) == Ok(Bin(op, l, r), t)
  {
    TailToken(op, after, "==", false);
    TailToken(op, after, "<", false);
  }

  function LeftRank(op: Op): nat {
    if op.Mul? || op.Div? then 2 else 1
  }

  function RightRank(op: Op): nat {
    if op.Mul? || op.Div? then 3 else if op.Add? || op.Sub? then 2 else 1
  }

  lemma Joined(left: string, symbol: string, right: string, t: string)
    ensures left + (" " + symbol + " ") + right + t == left + (" " + (symbol + (" " + (right + t))))
  {
    var after := right + t;
    assert (" " + symbol + " ") + after == " " + (symbol + (" " + after));
    assert left + (" " + symbol + " ") + right + t == left + ((" " + symbol + " ") + after);
  }

  lemma FlatBin(op: Op, l: Expr, r: Expr)
    ensures Flat(Bin(op, l, r)) == FlatAt(LeftRank(op), l) + (" " + Symbol(op) + " ") + FlatAt(RightRank(op), r)
  {
    assert " " + Symbol(op) + " " ==
           match op
           case Lt => " < "
           case Eq => " == "
           case Add => " + "
           case Sub => " - "
           case Mul => " * "
           case Div => " / ";
  }

  lemma FlatText(op: Op, l: Expr, r: Expr, t: string)
    ensures Flat(Bin(op, l, r)) + t == FlatAt(LeftRank(op), l) + Tail(op, FlatAt(RightRank(op), r) + t)
    ensures Delimited(Tail(op, FlatAt(RightRank(op), r) + t))
  {
    FlatBin(op, l, r);
    Joined(FlatAt(LeftRank(op), l), Symbol(op), FlatAt(RightRank(op), r), t);
  }

  lemma FlatAtom(e: Expr, t: string)
    requires ValidNames(e) && Delimited(t) && !e.Bin?
    ensures Primary(BARE, Flat(e) + t) == Ok(e, t)
  {
    match e
    case Const(c) => PrimaryConst(c, t);
    case Var(x) => PrimaryVar(x, t);
  }

  lemma InParentheses(e: Expr, inner: string, t: string)
    requires Cmp(BARE, inner + (")" + t)) == Ok(e, ")" + t)
    ensures Primary(BARE, "(" + inner + ")" + t) == Ok(e, t)
  {
    Parenthesised(e, inner + (")" + t), t);
    assert "(" + inner + ")" + t == "(" + (inner + (")" + t));
  }

  lemma {:induction false} FlatPrimary(e: Expr, t: string)
    requires ValidNames(e) && Delimited(t)
    ensures Primary(BARE, FlatAt(3, e) + t) == Ok(e, t)
    decreases e, (Rank(e) + 1) % 4
  {
    if e.Bin? {
      FlatCmp(e, ")" + t);
      InParentheses(e, Flat(e), t);
    } else {
      FlatAtom(e, t);
    }
  }

  lemma {:induction false} FlatProduct(e: Expr, t: string)
    requires ValidNames(e) && Delimited(t)
    ensures MulExpr(BARE, FlatAt(2, e) + t) == MulLoop(BARE, e, t)
    decreases e, (Rank(e) + 2) % 4
  {
    if Rank(e) == 2 {
      var after := FlatAt(3, e.right) + t;
      FlatText(e.op, e.left, e.right, t);
      FlatPrimary(e.right, t);
      FlatProduct(e.left, Tail(e.op, after));
      ProductTurn(e.op, e.left, e.right, after, t);
    } else {
      FlatPrimary(e, t);
    }
  }

  lemma {:induction false} FlatSum(e: Expr, t: string)
    requires ValidNames(e) && Delimited(t) && NoProduct(t)
    ensures AddExpr(BARE, FlatAt(1, e) + t) == AddLoop(BARE, e, t)
    decreases e, (Rank(e) + 3) % 4
  {
    EndOfProduct(e, t);
    if Rank(e) == 1 {
      var after := FlatAt(2, e.right) + t;
      FlatText(e.op, e.left, e.right, t);
      FlatProduct(e.right, t);
      EndOfProduct(e.right, t);
      EndsProduct(e.op, after);
      FlatSum(e.left, Tail(e.op, after));
      SumTurn(e.op, e.left, e.right, after, SkipSpace(t));
    } else {
      FlatProduct(e, t);
    }
  }

  lemma {:induction false} FlatCmp(e: Expr, t: string)
    requires ValidNames(e) && Closing(t)
    ensures Cmp(BARE, Flat(e) + t) == Ok(e, t)
    decreases e, Rank(e) % 4
  {
    EndOfSum(e, t);
    if Rank(e) == 0 {
      var after := FlatAt(1, e.right) + t;
      FlatText(e.op, e.left, e.right, t);
      EndOfSum(e.right, t);
      FlatSum(e.right, t);
      EndsProduct(e.op, after);
      FlatSum(e.left, Tail(e.op, after));
      SumBeforeComparison(e.op, e.left, after);
      SumSpace(after);
      ComparisonTurn(e.op, e.left, e.right, Flat(e) + t, after, t);
    } else {
      FlatSum(e, t);
    }
  }

  /** Every expression, written with only the parentheses that precedence and left
      association demand, parses to itself and uses all the text. */
  lemma FlatRoundTrip(e: Expr)
    requires ValidNames(e)
    ensures ParseAll(BARE, Flat(e)) == Some(e)
  {
    FlatCmp(e, "");
    assert Flat(e) + "" == Flat(e);
  }

  lemma FlatVar(rank: nat, x: string)
    requires rank <= 3
    ensures FlatAt(rank, Var(x)) == x
  {
  }

  lemma FlatVars(op: Op, x: string, y: string)
    ensures Flat(Bin(op, Var(x), Var(y))) == x + (" " + Symbol(op) + " ") + y
  {
    FlatBin(op, Var(x), Var(y));
    FlatVar(LeftRank(op), x);
    FlatVar(RightRank(op), y);
  }

  /** Sums and products associate to the left. */
  lemma LeftAssociates(x: string, y: string, z: string)
    requires ValidIdent(x) && ValidIdent(y) && ValidIdent(z)
    ensures ParseAll(BARE, x + " - " + y + " - " + z) == Some(Bin(Sub, Bin(Sub, Var(x), Var(y)), Var(z)))
    ensures ParseAll(BARE, x + " / " + y + " * " + z) == Some(Bin(Mul, Bin(Div, Var(x), Var(y)), Var(z)))
  {
    var difference, quotient := Bin(Sub, Var(x), Var(y)), Bin(Div, Var(x), Var(y));
    FlatVars(Sub, x, y);
    FlatVars(Div, x, y);
    assert Flat(difference) == x + " - " + y && Flat(quotient) == x + " / " + y;
    FlatVar(2, z);
    FlatVar(3, z);
    FlatRoundTrip(Bin(Sub, difference, Var(z)));
    FlatRoundTrip(Bin(Mul, quotient, Var(z)));
  }

  /** Products bind tighter than sums, and parentheses override. */
  lemma ProductsBindTighter(x: string, y: string, z: string)
    requires ValidIdent(x) && ValidIdent(y) && ValidIdent(z)
    ensures ParseAll(BARE, x + " + " + (y + " * " + z)) == Some(Bin(Add, Var(x), Bin(Mul, Var(y), Var(z))))
    ensures ParseAll(BARE, "(" + (x + " + " + y) + ")" + " * " + z) == Some(Bin(Mul, Bin(Add, Var(x), Var(y)), Var(z)))
  {
    var product, sum := Bin(Mul, Var(y), Var(z)), Bin(Add, Var(x), Var(y));
    FlatVars(Mul, y, z);
    FlatVars(Add, x, y);
    FlatVar(1, x);
    FlatVar(3, z);
    assert Flat(product) == y + " * " + z && Flat(sum) == x + " + " + y;
    FlatRoundTrip(Bin(Add, Var(x), product));
    FlatRoundTrip(Bin(Mul, sum, Var(z)));
  }

  /** Comparisons bind loosest. */
  lemma ComparisonsBindLoosest(x: string, y: string, z: string)
    requires ValidIdent(x) && ValidIdent(y) && ValidIdent(z)
    ensures ParseAll(BARE, x + " < " + (y + " - " + z)) == Some(Bin(Lt, Var(x), Bin(Sub, Var(y), Var(z))))
    ensures ParseAll(BARE, x + " / " + y + " == " + z) == Some(Bin(Eq, Bin(Div, Var(x), Var(y)), Var(z)))
  {
    var difference, quotient := Bin(Sub, Var(y), Var(z)), Bin(Div, Var(x), Var(y));
    FlatVars(Sub, y, z);
    FlatVars(Div, x, y);
    FlatVar(1, x);
    FlatVar(1, z);
    assert Flat(difference) == y + " - " + z && Flat(quotient) == x + " / " + y;
    FlatRoundTrip(Bin(Lt, Var(x), difference));
    FlatRoundTrip(Bin(Eq, quotient, Var(z)));
  }

  // ------------------------------------------------------------------ numbers

  function Power10(n: nat): nat {
    if n == 0 then 1 else 10 * Power10(n - 1)
  }

  /** Each digit times the power of ten of its place. */
  function PlaceValue(s: string): int {
    if s == "" then 0 else (s[0] as int - '0' as int) * Power10(|s| - 1) + PlaceValue(s[1..])
  }

  lemma {:induction false} PlaceValueSnoc(s: string, c: char)
    ensures PlaceValue(s + [c]) == 10 * PlaceValue(s) + (c as int - '0' as int)
  {
    if s == "" {
      assert "" + [c] == [c] && [c][1..] == "";
    } else {
      assert (s + [c])[1..] == s[1..] + [c];
      PlaceValueSnoc(s[1..], c);
    }
  }

  lemma {:induction false} DecimalIsPlaceValue(s: string)
    requires forall i | 0 <= i < |s| :: IsDigit(s[i])
    ensures DecimalValue(s) == PlaceValue(s)
  {
    if s != "" {
      var last := |s| - 1;
      DecimalIsPlaceValue(s[..last]);
      PlaceValueSnoc(s[..last], s[last]);
      assert s[..last] + [s[last]] == s;
    }
  }

  predicate AllDigits(s: string) {
    s != "" && forall i | 0 <= i < |s| :: IsDigit(s[i])
  }

  lemma DigitsRead(d: string)
    requires AllDigits(d)
    ensures StartsNumber(d) && ParseNumber(d) == (Saturate(PlaceValue(d)), "")
  {
    DigitRunExtends(d, "");
    DecimalIsPlaceValue(d);
    assert d + "" == d && d[..|d|] == d && d[|d|..] == "";
  }

  lemma SignedDigitsRead(sign: char, d: string)
    requires AllDigits(d) && (sign == '+' || sign == '-')
    ensures var s := [sign] + d;
            && StartsNumber(s)
            && ParseNumber(s) == (Saturate(if sign == '-' then 0 - PlaceValue(d) else PlaceValue(d)), "")
  {
    var s := [sign] + d;
    DigitRunExtends(d, "");
    DecimalIsPlaceValue(d);
    assert d + "" == d && d[..|d|] == d && d[|d|..] == "";
    assert s[1..] == d && s[1] == d[0];
  }

  lemma NumberIsAll(s: string, c: word)
    requires StartsNumber(s) && ParseNumber(s) == (c, "")
    ensures ParseAll(BARE, s) == Some(Const(c))
  {
    NumberIsPrimary(s, c, "");
    assert Consume("", "*") == (false, "") && Consume("", "/") == (false, "");
    assert MulExpr(BARE, s) == Ok(Const(c), "");
    EndOfSum(Const(c), "");
    assert AddExpr(BARE, s) == Ok(Const(c), "");
    assert Cmp(BARE, s) == Ok(Const(c), "");
  }

  /** The nearest number of 64 bits. */
  function Nearest(v: int): word {
    if v > 9223372036854775807 then 9223372036854775807
    else if v < -9223372036854775808 then -9223372036854775808
    else v
  }

  /** Digits with an optional sign are their decimal value, clamped to 64 bits. */
  lemma NumbersRead(d: string)
    requires AllDigits(d)
    ensures ParseAll(BARE, d) == Some(Const(Nearest(PlaceValue(d))))
    ensures ParseAll(BARE, ['+'] + d) == Some(Const(Nearest(PlaceValue(d))))
    ensures ParseAll(BARE, ['-'] + d) == Some(Const(Nearest(0 - PlaceValue(d))))
  {
    DigitsRead(d);
    SignedDigitsRead('+', d);
    SignedDigitsRead('-', d);
    NumberIsAll(d, Nearest(PlaceValue(d)));
    NumberIsAll(['+'] + d, Nearest(PlaceValue(d)));
    NumberIsAll(['-'] + d, Nearest(0 - PlaceValue(d)));
  }
}
