/** What the body emitted by the graph optimiser declares (core/planner/graph_opt.c:639-660,
    922-1090): which chains make it declare a variable twice in one scope. */
module GraphDeclarations {
  import opened Lists
  import opened Exprs
  import opened ExprText
  import opened GraphOpt

  /** How often the code declares a variable. */
  function Declarations(code: seq<Stmt>, x: string): nat {
    if code == [] then 0
    else (if code[0].Declare? && code[0].name == x then 1 else 0) + Declarations(code[1..], x)
  }

  lemma {:induction false} DeclarationsConcat(a: seq<Stmt>, b: seq<Stmt>, x: string)
    ensures Declarations(a + b, x) == Declarations(a, x) + Declarations(b, x)
    decreases |a|
  {
    if a == [] {
      assert a + b == b;
    } else {
      assert (a + b)[1..] == a[1..] + b;
      DeclarationsConcat(a[1..], b, x);
    }
  }

  lemma DeclaresOne(s: Stmt, x: string)
    ensures Declarations([s], x) == if s.Declare? && s.name == x then 1 else 0
  {
    assert [s][1..] == [];
  }

  // ------------------------------------------- what the current expression uses

  /** Some name of the expression leads to the parameter. */
  predicate LeadsTo(e: Expr, aliases: seq<(string, string)>, param: string) {
    match e
    case Const(_) => false
    case Var(y) => AliasTarget(y, aliases) == param
    case Bin(_, l, r) => LeadsTo(l, aliases, param) || LeadsTo(r, aliases, param)
  }

  /** The operator cuts the tie between the current expression and `value`: it keeps
      an accumulator, reads the source pair, or maps without using its parameter. */
  predicate Cuts(op: GraphOpt.Op) {
    match op
    case PairMap(_) => true
    case TripleMap(_) => true
    case Scan(_) => true
    case Reduce(_) => true
    case Map(h) =>
      var body := ParseAll(BARE, h.text);
      body.Some? && !LeadsTo(body.value, h.aliases, "raw")
    case _ => false
  }

  lemma {:induction false} SplicedUses(e: Expr, b: Binding, aliases: seq<(string, string)>, param: string, tied: bool,
                                       x: string)
    requires forall y | Uses(e, y) ::
               Uses(if y in b then b[y] else Var(y), x) <==> AliasTarget(y, aliases) == param && tied
    ensures Uses(Subst(e, b), x) <==> LeadsTo(e, aliases, param) && tied
  {
    match e
    case Const(_) =>
    case Var(y) => assert Uses(e, y);
    case Bin(_, l, r) =>
      assert forall y :: Uses(l, y) || Uses(r, y) ==> Uses(e, y);
      SplicedUses(l, b, aliases, param, tied, x);
      SplicedUses(r, b, aliases, param, tied, x);
  }

  /** A name that a helper keeps stands for `value` only through an argument. */
  lemma NameUses(op: GraphOpt.Op, current: Expr, y: string)
    requires HasHelper(op)
    requires var z := AliasTarget(y, op.h.aliases); z in Params(op) || z != "value"
    ensures var b := BindingOf(Scope(Params(op), Arguments(op, current), op.h.aliases));
            var z := AliasTarget(y, op.h.aliases);
            Uses(if y in b then b[y] else Var(y), "value") <==>
            z in Params(op) && Uses(Arguments(op, current)[IndexOf(z, Params(op))], "value")
  {
    var scope := Scope(Params(op), Arguments(op, current), op.h.aliases);
    var z := AliasTarget(y, op.h.aliases);
    if z in Params(op) {
      AliasIsName(y, scope);
    } else if y in Names(scope) {
      assert BindingOf(scope)[y] == Var(z);
    } else {
      NotAliased(y, op.h.aliases);
    }
  }

  lemma InlineUses(fix: bool, op: GraphOpt.Op, current: Expr)
    requires HasHelper(op) && Inline(fix, op, current).Some?
    ensures ParseAll(BARE, op.h.text).Some?
    ensures var body := ParseAll(BARE, op.h.text).value;
            var b := BindingOf(Scope(Params(op), Arguments(op, current), op.h.aliases));
            Uses(Inline(fix, op, current).value, "value") <==> Uses(Subst(body, b), "value")
  {
    var scope := Scope(Params(op), Arguments(op, current), op.h.aliases);
    CmpIsSubst(scope, op.h.text);
    SimplifyKeepsUses(fix, ParseAll(scope, op.h.text).value, "value");
  }

  /** No name of a map's helper is read from `value` past its parameters; of the other
      helpers nothing is asked. */
  ghost predicate KnownTie(op: GraphOpt.Op) {
    (op.Map? || op.PairMap? || op.TripleMap?) && ParseAll(BARE, op.h.text).Some? ==>
      forall x | Uses(ParseAll(BARE, op.h.text).value, x) ::
        var y := AliasTarget(x, op.h.aliases); y in Params(op) || y != "value"
  }

  /** An inlined map uses `value` exactly when its helper uses its parameter and the
      current expression uses `value`. */
  lemma MapUses(fix: bool, op: GraphOpt.Op, current: Expr)
    requires op.Map? && KnownTie(op) && Inline(fix, op, current).Some?
    ensures Uses(Inline(fix, op, current).value, "value") <==> !Cuts(op) && Uses(current, "value")
  {
    InlineUses(fix, op, current);
    var body := ParseAll(BARE, op.h.text).value;
    var b := BindingOf(Scope(["raw"], [current], op.h.aliases));
    forall y | Uses(body, y)
      ensures Uses(if y in b then b[y] else Var(y), "value") <==>
              AliasTarget(y, op.h.aliases) == "raw" && Uses(current, "value")
    {
      NameUses(op, current, y);
    }
    SplicedUses(body, b, op.h.aliases, "raw", Uses(current, "value"), "value");
  }

  /** An inlined map of the source pair or triple does not use `value`. */
  lemma PairUses(fix: bool, op: GraphOpt.Op, current: Expr)
    requires (op.PairMap? || op.TripleMap?) && KnownTie(op) && Inline(fix, op, current).Some?
    ensures !Uses(Inline(fix, op, current).value, "value")
  {
    InlineUses(fix, op, current);
    var body := ParseAll(BARE, op.h.text).value;
    var b := BindingOf(Scope(Params(op), Arguments(op, current), op.h.aliases));
    if Uses(Subst(body, b), "value") {
      var y := SubstUses(body, b, "value");
      NameUses(op, current, y);
    }
  }

  // ------------------------------------------------------------- one operator

  /** Whether the current expression uses `value` after the operator. */
  predicate TiedAfter(op: GraphOpt.Op, tied: bool) {
    Materializes(op) || (tied && !Cuts(op))
  }

  /** How often the operator's code declares a variable. */
  function Adds(op: GraphOpt.Op, tied: bool, x: string): nat {
    if x == "value" && Materializes(op) && !tied then 1
    else if x == "key" && op.DistinctUntilChanged? then 1
    else 0
  }

  /** `has_value_decl` is only set while the current expression is `value`. */
  predicate Ready(m: Emitter) {
    m.hasDecl ==> m.current == VALUE
  }

  lemma MaterializeDeclares(m: Emitter, x: string)
    requires Ready(m)
    ensures Ready(Materialize(m)) && Materialize(m).current == VALUE
    ensures Declarations(Materialize(m).out, x) ==
            Declarations(m.out, x) + if x == "value" && !Uses(m.current, "value") then 1 else 0
  {
    if m.current != VALUE {
      var s := if Uses(m.current, "value") then Assign("value", m.current) else Declare("value", m.current);
      assert Materialize(m).out == m.out + [s];
      DeclarationsConcat(m.out, [s], x);
      DeclaresOne(s, x);
    }
  }

  lemma NoneDeclared(code: seq<Stmt>, x: string)
    requires forall s | s in code :: !s.Declare?
    ensures Declarations(code, x) == 0
  {
    if code != [] {
      NoneDeclared(code[1..], x);
    }
  }

  lemma EmissionDeclares(op: GraphOpt.Op, e: Expr, x: string)
    ensures Declarations(Emission(op, e), x) == if x == "key" && op.DistinctUntilChanged? then 1 else 0
  {
    var code := Emission(op, e);
    if op.DistinctUntilChanged? {
      assert code == [code[0]] + [code[1], code[2], code[3]];
      DeclarationsConcat([code[0]], [code[1], code[2], code[3]], x);
      DeclaresOne(code[0], x);
      NoneDeclared([code[1], code[2], code[3]], x);
    } else {
      NoneDeclared(code, x);
    }
  }

  /** What the operator leaves current is tied to `value` as `TiedAfter` says. */
  lemma NextTied(fix: bool, op: GraphOpt.Op, m: Emitter)
    requires KnownTie(op) && EmitOp(fix, op, m).Some? && Ready(m)
    ensures Ready(EmitOp(fix, op, m).value)
    ensures Uses(EmitOp(fix, op, m).value.current, "value") == TiedAfter(op, Uses(m.current, "value"))
  {
    match op
    case Map(_) => MapUses(fix, op, m.current);
    case PairMap(_) => PairUses(fix, op, m.current);
    case TripleMap(_) => PairUses(fix, op, m.current);
    case _ =>
      if Materializes(op) {
        MaterializeDeclares(m, "value");
      }
  }

  lemma OpDeclares(fix: bool, op: GraphOpt.Op, m: Emitter, x: string)
    requires EmitOp(fix, op, m).Some? && Ready(m)
    ensures Declarations(EmitOp(fix, op, m).value.out, x) ==
            Declarations(m.out, x) + Adds(op, Uses(m.current, "value"), x)
  {
    var m1 := if Materializes(op) then Materialize(m) else m;
    var e := if HasHelper(op) then Inline(fix, op, m1.current).value else m1.current;
    MaterializeDeclares(m, x);
    EmissionDeclares(op, e, x);
    DeclarationsConcat(m1.out, Emission(op, e), x);
  }

  // ---------------------------------------------------------- the whole chain

  function Declared(ops: seq<GraphOpt.Op>, tied: bool, x: string): nat {
    if ops == [] then 0 else Adds(ops[0], tied, x) + Declared(ops[1..], TiedAfter(ops[0], tied), x)
  }

  lemma {:induction false} OpsDeclare(fix: bool, ops: seq<GraphOpt.Op>, m: Emitter, x: string)
    requires (forall op | op in ops :: KnownTie(op)) && EmitOps(fix, ops, m).Some? && Ready(m)
    ensures Declarations(EmitOps(fix, ops, m).value.out, x) ==
            Declarations(m.out, x) + Declared(ops, Uses(m.current, "value"), x)
    decreases |ops|
  {
    if ops != [] {
      NextTied(fix, ops[0], m);
      OpDeclares(fix, ops[0], m, x);
      OpsDeclare(fix, ops[1..], EmitOp(fix, ops[0], m).value, x);
    }
  }

  /** The declarations of the emitted body, counted on the operators alone. */
  lemma BodyDeclares(fix: bool, ops: seq<GraphOpt.Op>, body: seq<Stmt>, x: string)
    requires (forall op | op in ops :: KnownTie(op)) && LoopBody(fix, ops, Var("src")) == Some(body)
    ensures Declarations(body, x) ==
            Declared(ops, false, x) + if x == "should_break" && AnyBreaking(ops) then 1 else 0
  {
    var m := Emitter(Var("src"), false, Prologue(ops));
    OpsDeclare(fix, ops, m, x);
    DeclarationsConcat(EmitOps(fix, ops, m).value.out, Epilogue(ops), x);
    NoneDeclared(Epilogue(ops), x);
    if AnyBreaking(ops) {
      DeclaresOne(Prologue(ops)[0], x);
    }
  }

  // ------------------------------------------------------------ exactly when

  predicate Materialized(ops: seq<GraphOpt.Op>) {
    exists k | 0 <= k < |ops| :: Materializes(ops[k])
  }

  predicate CutThenMaterialized(ops: seq<GraphOpt.Op>) {
    exists j, k | 0 <= j < k < |ops| :: Cuts(ops[j]) && Materializes(ops[k])
  }

  predicate CutsBetween(ops: seq<GraphOpt.Op>, i: int, j: int, k: int) {
    0 <= i < j < k < |ops| && Materializes(ops[i]) && Cuts(ops[j]) && Materializes(ops[k])
  }

  /** Some operator that materialises is followed by one that cuts, and that by one
      that materialises again. */
  ghost predicate CutBetween(ops: seq<GraphOpt.Op>) {
    exists i, j, k :: CutsBetween(ops, i, j, k)
  }

  predicate TwoKeys(ops: seq<GraphOpt.Op>) {
    exists i, j | 0 <= i < j < |ops| :: ops[i].DistinctUntilChanged? && ops[j].DistinctUntilChanged?
  }

  lemma MaterializedTail(ops: seq<GraphOpt.Op>)
    requires ops != []
    ensures Materialized(ops) <==> Materializes(ops[0]) || Materialized(ops[1..])
  {
    if Materialized(ops[1..]) {
      var k :| 0 <= k < |ops| - 1 && Materializes(ops[1..][k]);
      assert Materializes(ops[k + 1]);
    }
    if k :| 0 < k < |ops| && Materializes(ops[k]) {
      assert Materializes(ops[1..][k - 1]);
    }
  }

  lemma CutThenTail(ops: seq<GraphOpt.Op>)
    requires ops != []
    ensures CutThenMaterialized(ops) <==> (Cuts(ops[0]) && Materialized(ops[1..])) || CutThenMaterialized(ops[1..])
  {
    var rest := ops[1..];
    if j, k :| 0 <= j < k < |rest| && Cuts(rest[j]) && Materializes(rest[k]) {
      assert Cuts(ops[j + 1]) && Materializes(ops[k + 1]);
    }
    if k :| 0 <= k < |rest| && Materializes(rest[k]) {
      assert Materializes(ops[k + 1]);
    }
    if j, k :| 0 <= j < k < |ops| && Cuts(ops[j]) && Materializes(ops[k]) {
      assert Materializes(rest[k - 1]) && (j > 0 ==> Cuts(rest[j - 1]));
    }
  }

  lemma CutBetweenTail(ops: seq<GraphOpt.Op>)
    requires ops != []
    ensures CutBetween(ops) <==> (Materializes(ops[0]) && CutThenMaterialized(ops[1..])) || CutBetween(ops[1..])
  {
    var rest := ops[1..];
    if i, j, k :| CutsBetween(rest, i, j, k) {
      assert CutsBetween(ops, i + 1, j + 1, k + 1);
    }
    if j, k :| 0 <= j < k < |rest| && Cuts(rest[j]) && Materializes(rest[k]) && Materializes(ops[0]) {
      assert CutsBetween(ops, 0, j + 1, k + 1);
    }
    if i, j, k :| CutsBetween(ops, i, j, k) {
      assert Cuts(rest[j - 1]) && Materializes(rest[k - 1]);
      if i > 0 {
        assert CutsBetween(rest, i - 1, j - 1, k - 1);
      }
    }
  }

  lemma BetweenIsThen(ops: seq<GraphOpt.Op>)
    ensures CutBetween(ops) ==> CutThenMaterialized(ops)
  {
    if i, j, k :| CutsBetween(ops, i, j, k) {
      assert Cuts(ops[j]) && Materializes(ops[k]);
    }
  }

  lemma {:induction false} UntiedNever(ops: seq<GraphOpt.Op>)
    ensures Declared(ops, false, "value") == 0 <==> !Materialized(ops)
  {
    if ops != [] {
      MaterializedTail(ops);
      UntiedNever(ops[1..]);
    }
  }

  lemma MaterializedIfThen(ops: seq<GraphOpt.Op>)
    ensures CutThenMaterialized(ops) ==> Materialized(ops)
  {
  }

  lemma {:induction false} TiedNever(ops: seq<GraphOpt.Op>)
    ensures Declared(ops, true, "value") == 0 <==> !CutThenMaterialized(ops)
  {
    if ops != [] {
      CutThenTail(ops);
      TiedNever(ops[1..]);
      UntiedNever(ops[1..]);
      assert Cuts(ops[0]) ==> !Materializes(ops[0]);
      MaterializedIfThen(ops[1..]);
    }
  }

  lemma {:induction false} UntiedOnce(ops: seq<GraphOpt.Op>)
    ensures Declared(ops, false, "value") <= 1 <==> !CutBetween(ops)
  {
    if ops != [] {
      CutBetweenTail(ops);
      BetweenIsThen(ops[1..]);
      TiedNever(ops[1..]);
      UntiedOnce(ops[1..]);
    }
  }

  predicate SomeKey(ops: seq<GraphOpt.Op>) {
    exists k | 0 <= k < |ops| :: ops[k].DistinctUntilChanged?
  }

  lemma SomeKeyTail(ops: seq<GraphOpt.Op>)
    requires ops != []
    ensures SomeKey(ops) <==> ops[0].DistinctUntilChanged? || SomeKey(ops[1..])
    ensures TwoKeys(ops) <==> (ops[0].DistinctUntilChanged? && SomeKey(ops[1..])) || TwoKeys(ops[1..])
    ensures TwoKeys(ops[1..]) ==> SomeKey(ops[1..])
  {
    var rest := ops[1..];
    if k :| 0 <= k < |rest| && rest[k].DistinctUntilChanged? {
      assert ops[k + 1].DistinctUntilChanged?;
    }
    if k :| 0 < k < |ops| && ops[k].DistinctUntilChanged? {
      assert rest[k - 1].DistinctUntilChanged?;
    }
    if i, j :| 0 <= i < j < |rest| && rest[i].DistinctUntilChanged? && rest[j].DistinctUntilChanged? {
      assert ops[i + 1].DistinctUntilChanged? && ops[j + 1].DistinctUntilChanged?;
    }
    if i, j :| 0 <= i < j < |ops| && ops[i].DistinctUntilChanged? && ops[j].DistinctUntilChanged? {
      assert rest[j - 1].DistinctUntilChanged? && (i > 0 ==> rest[i - 1].DistinctUntilChanged?);
    }
  }

  lemma {:induction false} KeysCounted(ops: seq<GraphOpt.Op>, tied: bool)
    ensures Declared(ops, tied, "key") == 0 <==> !SomeKey(ops)
    ensures Declared(ops, tied, "key") <= 1 <==> !TwoKeys(ops)
  {
    if ops != [] {
      SomeKeyTail(ops);
      KeysCounted(ops[1..], TiedAfter(ops[0], tied));
    }
  }

  lemma {:induction false} OthersUndeclared(ops: seq<GraphOpt.Op>, tied: bool, x: string)
    requires x != "value" && x != "key"
    ensures Declared(ops, tied, x) == 0
  {
    if ops != [] {
      OthersUndeclared(ops[1..], TiedAfter(ops[0], tied), x);
    }
  }

  /** With either simplifier, the emitted body declares `value` at most once exactly
      when no operator cuts the tie between two that materialise. */
  lemma ValueDeclaredOnceExact(fix: bool, ops: seq<GraphOpt.Op>, body: seq<Stmt>)
    requires (forall op | op in ops :: KnownTie(op)) && LoopBody(fix, ops, Var("src")) == Some(body)
    ensures Declarations(body, "value") <= 1 <==> !CutBetween(ops)
  {
    BodyDeclares(fix, ops, body, "value");
    UntiedOnce(ops);
  }

  /** And it declares nothing twice exactly when, besides, there are no two
      distinctUntilChanged. */
  lemma NothingDeclaredTwiceExact(fix: bool, ops: seq<GraphOpt.Op>, body: seq<Stmt>)
    requires (forall op | op in ops :: KnownTie(op)) && LoopBody(fix, ops, Var("src")) == Some(body)
    ensures (forall x :: Declarations(body, x) <= 1) <==> !CutBetween(ops) && !TwoKeys(ops)
  {
    ValueDeclaredOnceExact(fix, ops, body);
    BodyDeclares(fix, ops, body, "key");
    KeysCounted(ops, false);
    assert Declarations(body, "key") <= 1 <==> !TwoKeys(ops);
    forall x | x != "value" && x != "key"
      ensures Declarations(body, x) <= 1
    {
      BodyDeclares(fix, ops, body, x);
      OthersUndeclared(ops, false, x);
    }
  }

  lemma FilterScanFilter(p: Helper, f: Helper)
    ensures Declared([Filter(p), Scan(f), Filter(p)], false, "value") == 2
  {
    var ops := [Filter(p), Scan(f), Filter(p)];
    assert ops[1..] == [Scan(f), Filter(p)] && ops[1..][1..] == [Filter(p)] && ops[1..][1..][1..] == [];
    assert Declared([Filter(p)], false, "value") == 1;
    assert Declared(ops[1..], true, "value") == Declared([Filter(p)], false, "value");
  }

  /** So a filter, a scan and a filter again declare `value` twice: the scan resets
      `has_value_decl` and the current expression no longer mentions `value`. */
  lemma FilterScanFilterDeclaresTwice(fix: bool, p: Helper, f: Helper)
    requires ParseAll(BARE, p.text).Some? && ParseAll(BARE, f.text).Some?
    ensures var body := LoopBody(fix, [Filter(p), Scan(f), Filter(p)], Var("src"));
            body.Some? && Declarations(body.value, "value") == 2
  {
    var ops := [Filter(p), Scan(f), Filter(p)];
    EmittedExact(fix, ops, Var("src"));
    BodyDeclares(fix, ops, LoopBody(fix, ops, Var("src")).value, "value");
    FilterScanFilter(p, f);
  }
}
