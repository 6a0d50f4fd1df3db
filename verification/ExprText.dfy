/** The text of expressions: the printer and the precedence parser of
    core/planner/graph_opt.c. */
module ExprText {
  import opened Lists
  import opened CInt
  import opened Exprs

  // ----------------------------------------------------------------- printing

  function Digit(d: nat): (c: char)
    requires d < 10
  {
    '0' + d as char
  }

  function Decimal(n: nat): string {
    if n < 10 then [Digit(n)] else Decimal(n / 10) + [Digit(n % 10)]
  }

  function Symbol(op: Op): string {
    match op
    case Add => "+"
    case Sub => "-"
    case Mul => "*"
    case Div => "/"
    case Lt => "<"
    case Eq => "=="
  }

  function Signed10(c: word): string {
    var v: int := c;
    if v < 0 then "-" + Decimal(0 - v) else Decimal(v)
  }

  /** `rx_emit_expr`. */
  function Emit(e: Expr): string {
    match e
    case Const(c) => Signed10(c)
    case Var(x) => x
    case Bin(op, l, r) => "(" + Emit(l) + " " + Symbol(op) + " " + Emit(r) + ")"
  }

  // ------------------------------------------------------------------- tokens

  predicate IsSpace(c: char) { c == ' ' || c == '\t' || c == '\r' || c == '\n' }

  predicate IsDigit(c: char) { '0' <= c <= '9' }

  predicate IsIdentStart(c: char) { 'A' <= c <= 'Z' || 'a' <= c <= 'z' || c == '_' }

  predicate IsIdentChar(c: char) { IsIdentStart(c) || IsDigit(c) }

  /** The classes by the codes of ASCII. */
  lemma CharacterClasses(c: char)
    ensures IsDigit(c) <==> 48 <= c as int <= 57
    ensures IsIdentStart(c) <==> 65 <= c as int <= 90 || 97 <= c as int <= 122 || c as int == 95
    ensures IsSpace(c) <==> c as int in {9, 10, 13, 32}
  {
  }

  predicate ValidIdent(x: string) {
    x != "" && IsIdentStart(x[0]) && forall i | 0 <= i < |x| :: IsIdentChar(x[i])
  }

  function SkipSpace(s: string): (r: string)
    ensures |r| <= |s| && (r != "" ==> !IsSpace(r[0]))
  {
    if s != "" && IsSpace(s[0]) then SkipSpace(s[1..]) else s
  }

  /** `rx_consume`: spaces are skipped even when the token is not there. */
  function Consume(s: string, token: string): (r: (bool, string))
    ensures |r.1| <= |s| && (r.0 && token != "" ==> |r.1| < |s|)
  {
    var t := SkipSpace(s);
    if token <= t then (true, t[|token|..]) else (false, t)
  }

  /** The length of the longest prefix of digits, and of identifier characters. */
  function DigitRun(s: string): (n: nat)
    ensures n <= |s|
  {
    if s != "" && IsDigit(s[0]) then 1 + DigitRun(s[1..]) else 0
  }

  function IdentRun(s: string): (n: nat)
    ensures n <= |s|
  {
    if s != "" && IsIdentChar(s[0]) then 1 + IdentRun(s[1..]) else 0
  }

  function DigitValue(c: char): nat
    requires IsDigit(c)
  {
    (c - '0') as nat
  }

  function DecimalValue(s: string): nat
    requires forall i | 0 <= i < |s| :: IsDigit(s[i])
  {
    if s == "" then 0 else 10 * DecimalValue(s[..|s| - 1]) + DigitValue(s[|s| - 1])
  }

  /** `strtoll` saturates. */
  function Saturate(v: int): word {
    if v < MIN then MIN else if v > MAX then MAX else v
  }

  lemma {:induction false} DigitRunDigits(s: string)
    ensures forall i | 0 <= i < DigitRun(s) :: IsDigit(s[i])
  {
    if s != "" && IsDigit(s[0]) {
      DigitRunDigits(s[1..]);
    }
  }

  predicate StartsNumber(s: string) {
    || (s != "" && IsDigit(s[0]))
    || (|s| > 1 && (s[0] == '-' || s[0] == '+') && IsDigit(s[1]))
  }

  function ParseNumber(s: string): (r: (word, string))
    requires StartsNumber(s)
    ensures |r.1| < |s|
  {
    var digits := if IsDigit(s[0]) then s else s[1..];
    var n := DigitRun(digits);
    DigitRunDigits(digits);
    var v: int := DecimalValue(digits[..n]);
    (Saturate(if s[0] == '-' then 0 - v else v), digits[n..])
  }

  // ------------------------------------------------------------------- parser

  /** Parameters with their arguments, and aliases with their targets. */
  datatype Scope = Scope(params: seq<string>, args: seq<Expr>, aliases: seq<(string, string)>)

  const BARE: Scope := Scope([], [], [])

  function IndexOf(x: string, names: seq<string>): (i: nat)
    ensures i <= |names| && (i < |names| ==> names[i] == x)
    ensures i < |names| <==> x in names
  {
    if names == [] || names[0] == x then 0 else 1 + IndexOf(x, names[1..])
  }

  function AliasTarget(x: string, aliases: seq<(string, string)>): string {
    if aliases == [] then x
    else if aliases[0].0 == x then aliases[0].1
    else AliasTarget(x, aliases[1..])
  }

  /** What an identifier stands for: one alias step, then the parameter's argument. */
  function Resolve(scope: Scope, x: string): Expr {
    var y := AliasTarget(x, scope.aliases);
    var i := IndexOf(y, scope.params);
    if i < |scope.params| && i < |scope.args| then scope.args[i] else Var(y)
  }

  datatype Parsed = Fail | Ok(expr: Expr, rest: string)

  /** A number or an identifier. */
  function Atom(scope: Scope, s: string): (p: Parsed)
    ensures p.Ok? ==> |p.rest| < |s|
  {
    if StartsNumber(s) then
      var (v, rest) := ParseNumber(s);
      Ok(Const(v), rest)
    else if s != "" && IsIdentStart(s[0]) then
      var n := IdentRun(s);
      Ok(Resolve(scope, s[..n]), s[n..])
    else Fail
  }

  /** `rx_parse_primary`. */
  function Primary(scope: Scope, s: string): (p: Parsed)
    ensures p.Ok? ==> |p.rest| < |s|
    decreases |s|, 0
  {
    var (paren, inner) := Consume(s, "(");
    if paren then
      var p := Cmp(scope, inner);
      if p.Fail? then Fail
      else
        var (closed, rest) := Consume(p.rest, ")");
        if closed then Ok(p.expr, rest) else Fail
    else Atom(scope, inner)
  }

  /** The loop of `rx_parse_mul`, with `e` read so far. */
  function MulLoop(scope: Scope, e: Expr, s: string): (p: Parsed)
    ensures p.Ok? ==> |p.rest| <= |s|
    decreases |s|, 1
  {
    var (times, s1) := Consume(s, "*");
    var (over, s2) := Consume(s1, "/");
    if times || over then
      var p := Primary(scope, if times then s1 else s2);
      if p.Fail? then Fail
      else MulLoop(scope, Bin(if times then Op.Mul else Op.Div, e, p.expr), p.rest)
    else Ok(e, s2)
  }

  function MulExpr(scope: Scope, s: string): (p: Parsed)
    ensures p.Ok? ==> |p.rest| < |s|
    decreases |s|, 2
  {
    var p := Primary(scope, s);
    if p.Fail? then Fail else MulLoop(scope, p.expr, p.rest)
  }

  /** The loop of `rx_parse_add`. */
  function AddLoop(scope: Scope, e: Expr, s: string): (p: Parsed)
    ensures p.Ok? ==> |p.rest| <= |s|
    decreases |s|, 3
  {
    var (plus, s1) := Consume(s, "+");
    var (minus, s2) := Consume(s1, "-");
    if plus || minus then
      var p := MulExpr(scope, if plus then s1 else s2);
      if p.Fail? then Fail
      else AddLoop(scope, Bin(if plus then Op.Add else Op.Sub, e, p.expr), p.rest)
    else Ok(e, s2)
  }

  function AddExpr(scope: Scope, s: string): (p: Parsed)
    ensures p.Ok? ==> |p.rest| < |s|
    decreases |s|, 4
  {
    var p := MulExpr(scope, s);
    if p.Fail? then Fail else AddLoop(scope, p.expr, p.rest)
  }

  /** `rx_parse_expr_cmp`: at most one comparison. */
  function Cmp(scope: Scope, s: string): (p: Parsed)
    ensures p.Ok? ==> |p.rest| < |s|
    decreases |s|, 5
  {
    var l := AddExpr(scope, s);
    if l.Fail? then Fail
    else
      var (eq, s1) := Consume(l.rest, "==");
      var (lt, s2) := Consume(s1, "<");
      if eq || lt then
        var r := AddExpr(scope, if eq then s1 else s2);
        if r.Fail? then Fail else Ok(Bin(if eq then Op.Eq else Op.Lt, l.expr, r.expr), r.rest)
      else Ok(l.expr, s2)
  }

  /** The parse of `try_parse_function_expression`: all the text must be used. */
  function ParseAll(scope: Scope, s: string): Option<Expr> {
    var p := Cmp(scope, s);
    if p.Ok? && SkipSpace(p.rest) == "" then Some(p.expr) else None
  }

  // -------------------------------------------------- printed text parses back

  predicate ValidNames(e: Expr) {
    match e
    case Const(_) => true
    case Var(x) => ValidIdent(x)
    case Bin(_, l, r) => ValidNames(l) && ValidNames(r)
  }

  /** Text that cannot extend a number or an identifier. */
  predicate Delimited(t: string) {
    t == "" || t[0] == ' ' || t[0] == ')'
  }

  lemma {:induction false} DigitRunExtends(d: string, t: string)
    requires Delimited(t) && forall i | 0 <= i < |d| :: IsDigit(d[i])
    ensures DigitRun(d + t) == |d|
  {
    if d == "" {
      assert d + t == t;
    } else {
      assert (d + t)[1..] == d[1..] + t;
      DigitRunExtends(d[1..], t);
    }
  }

  lemma {:induction false} DecimalDigits(n: nat)
    ensures Decimal(n) != ""
    ensures forall i | 0 <= i < |Decimal(n)| :: IsDigit(Decimal(n)[i])
    ensures DecimalValue(Decimal(n)) == n
  {
    if n >= 10 {
      DecimalDigits(n / 10);
      var s := Decimal(n);
      assert s[..|s| - 1] == Decimal(n / 10);
    } else {
      assert Decimal(n)[..0] == "";
    }
  }

  lemma {:induction false} DecimalParses(n: nat, t: string)
    requires Delimited(t)
    ensures Decimal(n) != "" && IsDigit(Decimal(n)[0])
    ensures forall i | 0 <= i < |Decimal(n)| :: IsDigit(Decimal(n)[i])
    ensures DecimalValue(Decimal(n)) == n
    ensures DigitRun(Decimal(n) + t) == |Decimal(n)|
  {
    DecimalDigits(n);
    DigitRunExtends(Decimal(n), t);
  }

  lemma {:induction false} IdentRunExtends(x: string, t: string)
    requires Delimited(t) && forall i | 0 <= i < |x| :: IsIdentChar(x[i])
    ensures IdentRun(x + t) == |x|
  {
    if x == "" {
      assert x + t == t;
    } else {
      assert (x + t)[1..] == x[1..] + t;
      IdentRunExtends(x[1..], t);
    }
  }

  lemma DigitsParse(m: nat, t: string)
    requires Delimited(t) && m <= MAX + 1
    ensures var s := Decimal(m) + t;
            && s != "" && IsDigit(s[0]) && (m <= MAX ==> ParseNumber(s) == (m, t))
            && ParseNumber("-" + s) == (Saturate(0 - m), t)
  {
    var d := Decimal(m);
    var s := d + t;
    DecimalParses(m, t);
    assert s[..|d|] == d && s[|d|..] == t && s[0] == d[0];
    assert ("-" + s)[1..] == s;
  }

  lemma NegativeStarts(s: string)
    requires s != "" && IsDigit(s[0])
    ensures StartsNumber("-" + s) && ("-" + s)[0] == '-'
  {
    assert ("-" + s)[1] == s[0];
  }

  lemma NumberParses(c: word, t: string)
    requires Delimited(t)
    ensures var s := Signed10(c) + t; StartsNumber(s) && !IsSpace(s[0]) && s[0] != '(' && ParseNumber(s) == (c, t)
  {
    var v: int := c;
    var m: nat := if v < 0 then 0 - v else v;
    DigitsParse(m, t);
    var s := Decimal(m) + t;
    if v < 0 {
      AppendAssoc("-", Decimal(m), t);
      NegativeStarts(s);
    } else {
      assert Signed10(c) + t == s;
      assert StartsNumber(s);
    }
  }

  lemma NotParenthesised(s: string)
    requires s != "" && !IsSpace(s[0]) && s[0] != '('
    ensures Consume(s, "(") == (false, s)
  {
  }

  lemma NumberIsPrimary(s: string, c: word, t: string)
    requires s != "" && !IsSpace(s[0]) && s[0] != '(' && StartsNumber(s) && ParseNumber(s) == (c, t)
    ensures Primary(BARE, s) == Ok(Const(c), t)
  {
    NotParenthesised(s);
    assert Atom(BARE, s) == Ok(Const(c), t);
  }

  lemma PrimaryConst(c: word, t: string)
    requires Delimited(t)
    ensures Primary(BARE, Signed10(c) + t) == Ok(Const(c), t)
  {
    NumberParses(c, t);
    NumberIsPrimary(Signed10(c) + t, c, t);
  }

  lemma PrimaryVar(x: string, t: string)
    requires ValidIdent(x) && Delimited(t)
    ensures Primary(BARE, x + t) == Ok(Var(x), t)
  {
    var s := x + t;
    IdentRunExtends(x, t);
    assert s[..|x|] == x && s[|x|..] == t && s[0] == x[0];
    assert SkipSpace(s) == s && Consume(s, "(") == (false, s);
  }

  /** Leading spaces do not matter. */
  lemma PrimarySpace(scope: Scope, s: string)
    ensures Primary(scope, " " + s) == Primary(scope, s)
  {
  }

  /** Nothing but the closing parenthesis follows. */
  lemma LoopsStop(e: Expr, t: string)
    ensures MulLoop(BARE, e, ")" + t) == Ok(e, ")" + t)
    ensures AddLoop(BARE, e, ")" + t) == Ok(e, ")" + t)
    ensures Consume(")" + t, "==") == (false, ")" + t) && Consume(")" + t, "<") == (false, ")" + t)
  {
  }

  /** What follows the left operand of an operation; `after` begins with the right one. */
  function Tail(op: Op, after: string): string {
    " " + (Symbol(op) + (" " + after))
  }

  /** Of all the operator tokens only the printed one is there. */
  lemma TailToken(op: Op, after: string, token: string, spaced: bool)
    requires token in {"*", "/", "+", "-", "==", "<"}
    ensures var sym := Symbol(op) + (" " + after);
            Consume(if spaced then Tail(op, after) else sym, token) ==
            if token == Symbol(op) then (true, " " + after) else (false, sym)
  {
    var sym, tail := Symbol(op) + (" " + after), Tail(op, after);
    assert tail == " " + sym && tail[1..] == sym;
    assert sym[0] == Symbol(op)[0] && SkipSpace(sym) == sym;
    assert SkipSpace(tail) == SkipSpace(sym);
    assert sym[|Symbol(op)|..] == " " + after;
    if token <= sym {
      assert token[0] == sym[0];
    }
  }

  lemma MulTail(op: Op, l: Expr, r: Expr, after: string, t: string)
    requires Primary(BARE, after) == Ok(r, ")" + t)
    ensures MulLoop(BARE, l, Tail(op, after)) ==
            if op.Mul? || op.Div? then Ok(Bin(op, l, r), ")" + t) else Ok(l, Symbol(op) + (" " + after))
  {
    TailToken(op, after, "*", true);
    TailToken(op, after, "/", false);
    PrimarySpace(BARE, after);
    LoopsStop(Bin(op, l, r), t);
  }

  lemma AddTail(op: Op, l: Expr, r: Expr, after: string, t: string)
    requires Primary(BARE, after) == Ok(r, ")" + t) && !op.Mul? && !op.Div?
    ensures var sym := Symbol(op) + (" " + after);
            AddLoop(BARE, l, sym) == if op.Add? || op.Sub? then Ok(Bin(op, l, r), ")" + t) else Ok(l, sym)
  {
    TailToken(op, after, "+", false);
    TailToken(op, after, "-", false);
    PrimarySpace(BARE, after);
    LoopsStop(r, t);
    LoopsStop(Bin(op, l, r), t);
  }

  lemma RightOperand(r: Expr, after: string, t: string)
    requires Primary(BARE, after) == Ok(r, ")" + t)
    ensures AddExpr(BARE, " " + after) == Ok(r, ")" + t)
  {
    PrimarySpace(BARE, after);
    LoopsStop(r, t);
  }

  /** A printed operation up to its closing parenthesis, read as a comparison. */
  lemma InnerParses(op: Op, l: Expr, r: Expr, inner: string, after: string, t: string)
    requires Primary(BARE, inner) == Ok(l, Tail(op, after))
    requires Primary(BARE, after) == Ok(r, ")" + t)
    ensures Cmp(BARE, inner) == Ok(Bin(op, l, r), ")" + t)
  {
    var sym := Symbol(op) + (" " + after);
    MulTail(op, l, r, after, t);
    LoopsStop(Bin(op, l, r), t);
    if op.Mul? || op.Div? {
      assert AddExpr(BARE, inner) == Ok(Bin(op, l, r), ")" + t);
    } else {
      AddTail(op, l, r, after, t);
      if op.Lt? || op.Eq? {
        assert AddExpr(BARE, inner) == Ok(l, sym);
        TailToken(op, after, "==", false);
        TailToken(op, after, "<", false);
        RightOperand(r, after, t);
      } else {
        assert AddExpr(BARE, inner) == Ok(Bin(op, l, r), ")" + t);
      }
    }
  }

  lemma OperationText(op: Op, left: string, right: string, t: string)
    ensures "(" + left + " " + Symbol(op) + " " + right + ")" + t == "(" + (left + Tail(op, right + (")" + t)))
    ensures Delimited(Tail(op, right + (")" + t))) && Delimited(")" + t)
  {
  }

  lemma Parenthesised(e: Expr, inner: string, t: string)
    requires Cmp(BARE, inner) == Ok(e, ")" + t)
    ensures Primary(BARE, "(" + inner) == Ok(e, t)
  {
  }

  /** The printed form of an expression, read as a primary, gives it back and stops
      right after it. */
  lemma {:induction false} EmitParses(e: Expr, t: string)
    requires ValidNames(e) && Delimited(t)
    ensures Primary(BARE, Emit(e) + t) == Ok(e, t)
    decreases e
  {
    match e
    case Const(c) => PrimaryConst(c, t);
    case Var(x) => PrimaryVar(x, t);
    case Bin(op, l, r) =>
      var left, right := Emit(l), Emit(r);
      var after := right + (")" + t);
      OperationText(op, left, right, t);
      EmitParses(l, Tail(op, after));
      EmitParses(r, ")" + t);
      InnerParses(op, l, r, left + Tail(op, after), after, t);
      Parenthesised(e, left + Tail(op, after), t);
  }

  /** Parsing the printed form of any expression uses all the text and gives back
      the same tree, whatever the nesting of operators and the signs of constants. */
  lemma RoundTrip(e: Expr)
    requires ValidNames(e)
    ensures ParseAll(BARE, Emit(e)) == Some(e)
  {
    EmitParses(e, "");
    assert Emit(e) + "" == Emit(e);
    assert Consume("", "*") == (false, "") && Consume("", "/") == (false, "");
    assert MulExpr(BARE, Emit(e)) == Ok(e, "");
    assert AddExpr(BARE, Emit(e)) == Ok(e, "");
    assert Cmp(BARE, Emit(e)) == Ok(e, "");
  }

  // ------------------------------------------------------ inlining by the parser

  function Names(scope: Scope): set<string> {
    (set i | 0 <= i < |scope.params| :: scope.params[i]) + (set i | 0 <= i < |scope.aliases| :: scope.aliases[i].0)
  }

  /** What each parameter and alias of a scope stands for. */
  function BindingOf(scope: Scope): Binding {
    map x | x in Names(scope) :: Resolve(scope, x)
  }

  lemma {:induction false} NotAliased(x: string, aliases: seq<(string, string)>)
    requires forall i | 0 <= i < |aliases| :: aliases[i].0 != x
    ensures AliasTarget(x, aliases) == x
  {
    if aliases != [] {
      NotAliased(x, aliases[1..]);
    }
  }

  lemma {:induction false} FirstAlias(x: string, aliases: seq<(string, string)>, y: string, k: nat)
    requires k <= |aliases| && forall j | 0 <= j < k :: aliases[j].0 != x
    requires if k < |aliases| then aliases[k] == (x, y) else y == x
    ensures AliasTarget(x, aliases) == y
  {
    if k > 0 {
      FirstAlias(x, aliases[1..], y, k - 1);
    }
  }

  lemma {:induction false} FirstIndexOf(x: string, names: seq<string>, i: nat)
    requires i < |names| && names[i] == x && x !in names[..i]
    ensures IndexOf(x, names) == i
  {
    if i > 0 {
      assert names[0] in names[..i];
      assert forall j | 0 <= j < i - 1 :: names[1..][j] == names[..i][j + 1];
      FirstIndexOf(x, names[1..], i - 1);
    }
  }

  /** Which alias and which parameter count: the first of the name, one alias step,
      and a name that is neither stays itself. */
  lemma ResolveMeans(scope: Scope, x: string, y: string, k: nat)
    requires k <= |scope.aliases| && forall j | 0 <= j < k :: scope.aliases[j].0 != x
    requires if k < |scope.aliases| then scope.aliases[k] == (x, y) else y == x
    ensures y !in scope.params ==> Resolve(scope, x) == Var(y)
    ensures forall i | 0 <= i < |scope.params| && i < |scope.args| && scope.params[i] == y && y !in scope.params[..i] ::
              Resolve(scope, x) == scope.args[i]
  {
    FirstAlias(x, scope.aliases, y, k);
    forall i | 0 <= i < |scope.params| && i < |scope.args| && scope.params[i] == y && y !in scope.params[..i]
      ensures IndexOf(y, scope.params) == i
    {
      FirstIndexOf(y, scope.params, i);
    }
  }

  lemma ResolveIsSubst(scope: Scope, x: string)
    ensures Resolve(scope, x) == Subst(Resolve(BARE, x), BindingOf(scope))
  {
    if x !in Names(scope) {
      NotAliased(x, scope.aliases);
    }
  }

  function Substituted(p: Parsed, b: Binding): Parsed {
    if p.Fail? then Fail else Ok(Subst(p.expr, b), p.rest)
  }

  /** Splicing arguments in while parsing is substituting them afterwards: the tree,
      not the text, receives the argument, so no precedence is disturbed. */
  lemma {:induction false} PrimaryIsSubst(scope: Scope, s: string)
    ensures Primary(scope, s) == Substituted(Primary(BARE, s), BindingOf(scope))
    decreases |s|, 0
  {
    var (paren, inner) := Consume(s, "(");
    if paren {
      CmpIsSubst(scope, inner);
    } else if !StartsNumber(inner) && inner != "" && IsIdentStart(inner[0]) {
      ResolveIsSubst(scope, inner[..IdentRun(inner)]);
    }
  }

  lemma {:induction false} MulLoopIsSubst(scope: Scope, e: Expr, s: string)
    ensures MulLoop(scope, Subst(e, BindingOf(scope)), s) == Substituted(MulLoop(BARE, e, s), BindingOf(scope))
    decreases |s|, 1
  {
    var (times, s1) := Consume(s, "*");
    var (over, s2) := Consume(s1, "/");
    if times || over {
      var s' := if times then s1 else s2;
      PrimaryIsSubst(scope, s');
      var p := Primary(BARE, s');
      if p.Ok? {
        MulLoopIsSubst(scope, Bin(if times then Op.Mul else Op.Div, e, p.expr), p.rest);
      }
    }
  }

  lemma {:induction false} MulIsSubst(scope: Scope, s: string)
    ensures MulExpr(scope, s) == Substituted(MulExpr(BARE, s), BindingOf(scope))
    decreases |s|, 2
  {
    PrimaryIsSubst(scope, s);
    var p := Primary(BARE, s);
    if p.Ok? {
      MulLoopIsSubst(scope, p.expr, p.rest);
    }
  }

  lemma {:induction false} AddLoopIsSubst(scope: Scope, e: Expr, s: string)
    ensures AddLoop(scope, Subst(e, BindingOf(scope)), s) == Substituted(AddLoop(BARE, e, s), BindingOf(scope))
    decreases |s|, 3
  {
    var (plus, s1) := Consume(s, "+");
    var (minus, s2) := Consume(s1, "-");
    if plus || minus {
      var s' := if plus then s1 else s2;
      MulIsSubst(scope, s');
      var p := MulExpr(BARE, s');
      if p.Ok? {
        AddLoopIsSubst(scope, Bin(if plus then Op.Add else Op.Sub, e, p.expr), p.rest);
      }
    }
  }

  lemma {:induction false} AddIsSubst(scope: Scope, s: string)
    ensures AddExpr(scope, s) == Substituted(AddExpr(BARE, s), BindingOf(scope))
    decreases |s|, 4
  {
    MulIsSubst(scope, s);
    var p := MulExpr(BARE, s);
    if p.Ok? {
      AddLoopIsSubst(scope, p.expr, p.rest);
    }
  }

  lemma {:induction false} CmpIsSubst(scope: Scope, s: string)
    ensures Cmp(scope, s) == Substituted(Cmp(BARE, s), BindingOf(scope))
    decreases |s|, 5
  {
    AddIsSubst(scope, s);
    var l := AddExpr(BARE, s);
    if l.Ok? {
      var (eq, s1) := Consume(l.rest, "==");
      var (lt, s2) := Consume(s1, "<");
      if eq || lt {
        AddIsSubst(scope, if eq then s1 else s2);
      }
    }
  }

  /** Inlining: the expression parsed with arguments spliced in has the value of the
      helper's own expression with each parameter and alias bound to the value of
      what it stands for; and one parses exactly when the other does. */
  lemma InliningIsBinding(scope: Scope, text: string, env: Env)
    ensures ParseAll(scope, text).Some? <==> ParseAll(BARE, text).Some?
    ensures ParseAll(BARE, text).Some? ==>
              Eval(ParseAll(scope, text).value, env) ==
              Eval(ParseAll(BARE, text).value, Bound(BindingOf(scope), env))
  {
    CmpIsSubst(scope, text);
    if ParseAll(BARE, text).Some? {
      SubstIsBinding(ParseAll(BARE, text).value, BindingOf(scope), env);
    }
  }

  // ------------------------------------------------- the parser and its cursor

  lemma NumberSuffix(s: string)
    requires StartsNumber(s)
    ensures s[|s| - |ParseNumber(s).1|..] == ParseNumber(s).1
  {
  }

  /** The parser object: its methods advance the cursor through the text. */
  class Parser {
    const text: string
    const scope: Scope
    var cursor: nat

    constructor (text: string, scope: Scope)
      ensures this.text == text && this.scope == scope && cursor == 0
    {
      this.text, this.scope, cursor := text, scope, 0;
    }

    /** The cursor stands where `p` leaves off, or `p` failed. */
    ghost predicate Stands(e: Option<Expr>, p: Parsed)
      reads this
    {
      && cursor <= |text|
      && (if p.Ok? then e == Some(p.expr) && text[cursor..] == p.rest else e.None?)
    }

    method Skip()
      requires cursor <= |text|
      modifies this`cursor
      ensures old(cursor) <= cursor <= |text| && text[cursor..] == SkipSpace(text[old(cursor)..])
    {
      while cursor < |text| && IsSpace(text[cursor])
        invariant old(cursor) <= cursor <= |text|
        invariant SkipSpace(text[cursor..]) == SkipSpace(text[old(cursor)..])
      {
        assert text[cursor..][1..] == text[cursor + 1..];
        cursor := cursor + 1;
      }
    }

    method Take(token: string) returns (ok: bool)
      requires cursor <= |text|
      modifies this`cursor
      ensures old(cursor) <= cursor <= |text| && (ok, text[cursor..]) == Consume(text[old(cursor)..], token)
    {
      Skip();
      ok := |token| <= |text| - cursor && text[cursor..cursor + |token|] == token;
      assert token <= text[cursor..] <==> ok by {
        if |token| <= |text| - cursor {
          assert text[cursor..][..|token|] == text[cursor..cursor + |token|];
        }
      }
      if ok {
        assert text[cursor..][|token|..] == text[cursor + |token|..];
        cursor := cursor + |token|;
      }
    }

    method ParseAtom() returns (e: Option<Expr>)
      requires cursor <= |text|
      modifies this`cursor
      ensures Stands(e, Atom(scope, text[old(cursor)..]))
    {
      var rest := text[cursor..];
      if StartsNumber(rest) {
        var (v, after) := ParseNumber(rest);
        NumberSuffix(rest);
        assert text[|text| - |after|..] == rest[|rest| - |after|..];
        cursor := |text| - |after|;
        return Some(Const(v));
      }
      if rest != "" && IsIdentStart(rest[0]) {
        var n := IdentRun(rest);
        assert text[cursor + n..] == rest[n..];
        cursor := cursor + n;
        return Some(Resolve(scope, rest[..n]));
      }
      return None;
    }

    method ParsePrimary() returns (e: Option<Expr>)
      requires cursor <= |text|
      modifies this`cursor
      ensures Stands(e, Primary(scope, text[old(cursor)..]))
      decreases |text| - cursor, 0
    {
      var paren := Take("(");
      if paren {
        e := ParseCmp();
        if e.None? {
          return None;
        }
        var closed := Take(")");
        return if closed then e else None;
      }
      e := ParseAtom();
    }

    method ParseMul() returns (e: Option<Expr>)
      requires cursor <= |text|
      modifies this`cursor
      ensures Stands(e, MulExpr(scope, text[old(cursor)..]))
      decreases |text| - cursor, 1
    {
      ghost var whole := MulExpr(scope, text[cursor..]);
      ghost var start := cursor;
      e := ParsePrimary();
      if e.None? {
        return;
      }
      while true
        invariant e.Some? && start < cursor <= |text|
        invariant MulLoop(scope, e.value, text[cursor..]) == whole
        decreases |text| - cursor
      {
        ghost var c0 := cursor;
        var times := Take("*");
        var over := false;
        if !times {
          over := Take("/");
        }
        if !times && !over {
          return;
        }
        var r := ParsePrimary();
        if r.None? {
          return None;
        }
        e := Some(Bin(if times then Op.Mul else Op.Div, e.value, r.value));
      }
    }

    method ParseAdd() returns (e: Option<Expr>)
      requires cursor <= |text|
      modifies this`cursor
      ensures Stands(e, AddExpr(scope, text[old(cursor)..]))
      decreases |text| - cursor, 2
    {
      ghost var whole := AddExpr(scope, text[cursor..]);
      ghost var start := cursor;
      e := ParseMul();
      if e.None? {
        return;
      }
      while true
        invariant e.Some? && start < cursor <= |text|
        invariant AddLoop(scope, e.value, text[cursor..]) == whole
        decreases |text| - cursor
      {
        var plus := Take("+");
        var minus := false;
        if !plus {
          minus := Take("-");
        }
        if !plus && !minus {
          return;
        }
        var r := ParseMul();
        if r.None? {
          return None;
        }
        e := Some(Bin(if plus then Op.Add else Op.Sub, e.value, r.value));
      }
    }

    method ParseCmp() returns (e: Option<Expr>)
      requires cursor <= |text|
      modifies this`cursor
      ensures Stands(e, Cmp(scope, text[old(cursor)..]))
      decreases |text| - cursor, 3
    {
      e := ParseAdd();
      if e.None? {
        return;
      }
      var eq := Take("==");
      var lt := false;
      if !eq {
        lt := Take("<");
      }
      if eq || lt {
        var r := ParseAdd();
        if r.None? {
          return None;
        }
        e := Some(Bin(if eq then Op.Eq else Op.Lt, e.value, r.value));
      }
    }
  }

  /** `try_parse_function_expression` up to the simplifier. */
  method ParseHelper(scope: Scope, text: string) returns (e: Option<Expr>)
    ensures e == ParseAll(scope, text)
  {
    var parser := new Parser(text, scope);
    assert text[0..] == text;
    e := parser.ParseCmp();
    if e.Some? {
      parser.Skip();
      if parser.cursor != |text| {
        e := None;
      }
    }
  }
}
