/** The graph optimiser as a compiler (core/planner/graph_opt.c): the loop body it
    emits while tracking a symbolic `current` expression, against the operators run
    directly on `value` (core/planner/astgen.c). */
module GraphOpt {
  import opened Lists
  import opened CInt
  import opened Exprs
  import opened ExprText

  // ------------------------------------------------------------ emitted code

  datatype Exit = Fell | Continued | Broke

  datatype Cond = Truthy(e: Expr) | Not(c: Cond) | And(l: Cond, r: Cond)

  /** `T x = e;`, `x = e;`, or `if (c) { x = e; ...; continue/break/nothing }`. */
  datatype Stmt =
    | Declare(name: string, e: Expr)
    | Assign(name: string, e: Expr)
    | Guard(c: Cond, sets: seq<(string, Expr)>, exit: Exit)

  function Holds(c: Cond, env: Env): bool {
    match c
    case Truthy(e) => Eval(e, env) != 0
    case Not(d) => !Holds(d, env)
    case And(l, r) => Holds(l, env) && Holds(r, env)
  }

  function SetAll(sets: seq<(string, Expr)>, env: Env): Env {
    if sets == [] then env else SetAll(sets[1..], env[sets[0].0 := Eval(sets[0].1, env)])
  }

  /** A declaration repeated in the loop scope counts as an assignment. */
  function ExecOne(s: Stmt, env: Env): (Env, Exit) {
    match s
    case Declare(x, e) => (env[x := Eval(e, env)], Fell)
    case Assign(x, e) => (env[x := Eval(e, env)], Fell)
    case Guard(c, sets, exit) => if Holds(c, env) then (SetAll(sets, env), exit) else (env, Fell)
  }

  function Exec(code: seq<Stmt>, env: Env): (Env, Exit) {
    if code == [] then (env, Fell)
    else
      var (env', exit) := ExecOne(code[0], env);
      if exit.Fell? then Exec(code[1..], env') else (env', exit)
  }

  lemma {:induction false} ExecConcat(a: seq<Stmt>, b: seq<Stmt>, env: Env)
    ensures Exec(a + b, env) ==
            (var (env', exit) := Exec(a, env); if exit.Fell? then Exec(b, env') else (env', exit))
    decreases |a|
  {
    if a == [] {
      assert a + b == b;
    } else {
      assert (a + b)[1..] == a[1..] + b;
      ExecConcat(a[1..], b, ExecOne(a[0], env).0);
    }
  }

  // --------------------------------------------------------------- operators

  /** A helper's parameters, its return expression, and the locals it declares before,
      each with the name it is set to. */
  datatype Helper = Helper(params: seq<string>, text: string, aliases: seq<(string, string)>)

  datatype Op =
    | PairMap(h: Helper)
    | TripleMap(h: Helper)
    | Map(h: Helper)
    | Filter(h: Helper)
    | Scan(h: Helper)
    | Reduce(h: Helper)
    | Take(limit: word)
    | Skip(limit: word)
    | TakeWhile(h: Helper)
    | SkipWhile(h: Helper)
    | DistinctUntilChanged(h: Helper)
    | Last
    | First

  /** The names under which the parser looks for an operator's parameters, whatever
      the helper calls them. */
  function Params(op: Op): seq<string> {
    match op
    case PairMap(_) => ["left_raw", "right_raw"]
    case TripleMap(_) => ["zipped_left_raw", "zipped_right_raw", "right_raw"]
    case Scan(_) => ["raw_accum", "raw_next"]
    case Reduce(_) => ["raw_accum", "raw_next"]
    case _ => ["raw"]
  }

  predicate HasHelper(op: Op) {
    !op.Take? && !op.Skip? && !op.Last? && !op.First?
  }

  /** `pipeline_has_breaking_op`. */
  predicate Breaking(op: Op) {
    op.Take? || op.TakeWhile? || op.First?
  }

  // ------------------------------------------------------ the symbolic emitter

  /** What the emitter holds: the current expression, `has_value_decl`, the output. */
  datatype Emitter = Emitter(current: Expr, hasDecl: bool, out: seq<Stmt>)

  const VALUE: Expr := Var("value")

  /** `rx_materialize_current_expr`. */
  function Materialize(m: Emitter): Emitter {
    if m.current == VALUE then m
    else if m.hasDecl || Uses(m.current, "value")
    then Emitter(VALUE, m.hasDecl, m.out + [Assign("value", m.current)])
    else Emitter(VALUE, true, m.out + [Declare("value", m.current)])
  }

  function Arguments(op: Op, current: Expr): seq<Expr> {
    match op
    case PairMap(_) => [Var("left"), Var("right")]
    case TripleMap(_) => [Var("zipped_left"), Var("zipped_right"), Var("right")]
    case Scan(_) => [Var("scan_accum"), current]
    case Reduce(_) => [Var("reduce_accum"), current]
    case _ => [current]
  }

  /** `try_parse_function_expression`: the helper with its arguments spliced in,
      simplified by the shipped rule or by the one that respects signs. */
  function Inline(fix: bool, op: Op, current: Expr): Option<Expr>
    requires HasHelper(op)
  {
    var e := ParseAll(Scope(Params(op), Arguments(op, current), op.h.aliases), op.h.text);
    if e.Some? then Some(Simplify(fix, e.value)) else None
  }

  function AtLeast(x: string, limit: word): Cond {
    Not(Truthy(Bin(Lt, Var(x), Const(limit))))
  }

  function PlusOne(x: string): Expr {
    Bin(Add, Var(x), Const(1))
  }

  /** What one operator adds to the output, `m` being materialised where the program
      does so, and `e` the inlined helper. */
  function Emission(op: Op, e: Expr): seq<Stmt>
  {
    match op
    case Filter(_) => [Guard(Not(Truthy(e)), [], Continued)]
    case Scan(_) => [Assign("scan_accum", e)]
    case Reduce(_) => [Assign("reduce_accum", e)]
    case Take(limit) =>
      [Guard(AtLeast("take_count", limit), [], Broke),
       Assign("take_count", PlusOne("take_count")),
       Guard(AtLeast("take_count", limit), [("should_break", Const(1))], Fell)]
    case Skip(limit) =>
      [Guard(Truthy(Bin(Lt, Var("skip_count"), Const(limit))), [("skip_count", PlusOne("skip_count"))], Continued)]
    case TakeWhile(_) => [Guard(Not(Truthy(e)), [], Broke)]
    case SkipWhile(_) =>
      [Guard(And(Not(Truthy(Var("skip_while_passed"))), Truthy(e)), [], Continued),
       Assign("skip_while_passed", Const(1))]
    case DistinctUntilChanged(_) =>
      [Declare("key", e),
       Guard(And(Truthy(Var("has_last_key")), Truthy(Bin(Eq, Var("key"), Var("last_key")))), [], Continued),
       Assign("last_key", Var("key")),
       Assign("has_last_key", Const(1))]
    case Last => [Assign("last_value", VALUE), Assign("has_last_value", Const(1))]
    case First => [Assign("should_break", Const(1))]
    case _ => []
  }

  predicate Materializes(op: Op) {
    op.Filter? || op.TakeWhile? || op.SkipWhile? || op.DistinctUntilChanged? || op.Last? || op.First?
  }

  /** The current expression after the operator. */
  function NextCurrent(op: Op, e: Expr, current: Expr): Expr {
    match op
    case PairMap(_) => e
    case TripleMap(_) => e
    case Map(_) => e
    case Scan(_) => Var("scan_accum")
    case Reduce(_) => Var("reduce_accum")
    case _ => current
  }

  /** One case of `rx_try_emit_graph_optimized_loop_body`. */
  function EmitOp(fix: bool, op: Op, m: Emitter): Option<Emitter> {
    var m1 := if Materializes(op) then Materialize(m) else m;
    if !HasHelper(op) then Some(m1.(out := m1.out + Emission(op, m1.current)))
    else
      var e := Inline(fix, op, m1.current);
      if e.None? then None
      else
        var resets := op.PairMap? || op.TripleMap? || op.Map? || op.Scan? || op.Reduce?;
        Some(Emitter(NextCurrent(op, e.value, m1.current), m1.hasDecl && !resets, m1.out + Emission(op, e.value)))
  }

  function EmitOps(fix: bool, ops: seq<Op>, m: Emitter): Option<Emitter> {
    if ops == [] then Some(m)
    else
      var m1 := EmitOp(fix, ops[0], m);
      if m1.None? then None else EmitOps(fix, ops[1..], m1.value)
  }

  lemma {:induction false} EmitConcat(fix: bool, a: seq<Op>, b: seq<Op>, m: Emitter)
    ensures EmitOps(fix, a + b, m) ==
            (var m1 := EmitOps(fix, a, m); if m1.Some? then EmitOps(fix, b, m1.value) else None)
    decreases |a|
  {
    if a == [] {
      assert a + b == b;
    } else {
      assert (a + b)[1..] == a[1..] + b;
      var m1 := EmitOp(fix, a[0], m);
      if m1.Some? {
        EmitConcat(fix, a[1..], b, m1.value);
      }
    }
  }

  predicate AnyBreaking(ops: seq<Op>) {
    exists i | 0 <= i < |ops| :: Breaking(ops[i])
  }

  function Prologue(ops: seq<Op>): seq<Stmt> {
    if AnyBreaking(ops) then [Declare("should_break", Const(0))] else []
  }

  function Epilogue(ops: seq<Op>): seq<Stmt> {
    if AnyBreaking(ops) then [Guard(Truthy(Var("should_break")), [], Broke)] else []
  }

  /** The whole loop body, or nothing when some helper does not parse. */
  function LoopBody(fix: bool, ops: seq<Op>, source: Expr): Option<seq<Stmt>> {
    var m := EmitOps(fix, ops, Emitter(source, false, Prologue(ops)));
    if m.Some? then Some(m.value.out + Epilogue(ops)) else None
  }

  method PipelineHasBreakingOp(ops: seq<Op>) returns (breaking: bool)
    ensures breaking == exists i | 0 <= i < |ops| :: Breaking(ops[i])
    ensures breaking == exists i | 0 <= i < |ops| :: ops[i].Take? || ops[i].TakeWhile? || ops[i].First?
  {
    for i := 0 to |ops|
      invariant forall k | 0 <= k < i :: !Breaking(ops[k])
    {
      if Breaking(ops[i]) {
        return true;
      }
    }
    return false;
  }

  lemma EmitNext(fix: bool, ops: seq<Op>, i: nat, m: Emitter)
    requires i < |ops|
    ensures EmitOps(fix, ops[i..], m) ==
            (var next := EmitOp(fix, ops[i], m);
             if next.None? then None else EmitOps(fix, ops[i + 1..], next.value))
  {
    assert ops[i..][0] == ops[i] && ops[i..][1..] == ops[i + 1..];
  }

  /** The emitting loop itself: appends to the output operator by operator. */
  method EmitLoopBody(fix: bool, ops: seq<Op>, source: Expr) returns (body: Option<seq<Stmt>>)
    ensures body == LoopBody(fix, ops, source)
  {
    var breaking := PipelineHasBreakingOp(ops);
    var m := Emitter(source, false, if breaking then [Declare("should_break", Const(0))] else []);
    for i := 0 to |ops|
      invariant EmitOps(fix, ops, Emitter(source, false, Prologue(ops))) == EmitOps(fix, ops[i..], m)
    {
      EmitNext(fix, ops, i, m);
      var next := EmitOp(fix, ops[i], m);
      if next.None? {
        return None;
      }
      m := next.value;
    }
    return Some(m.out + (if breaking then [Guard(Truthy(Var("should_break")), [], Broke)] else []));
  }

  // ------------------------------------------------------- direct interpretation

  /** The names a helper sees when it is called: its parameters bound by position,
      every other name the global. */
  function Passed(params: seq<string>, args: seq<word>, globals: Env): Env {
    if params == [] || args == [] then globals
    else Passed(params[1..], args[1..], globals)[params[0] := args[0]]
  }

  /** And after its locals have been declared, one after the other. */
  function WithLocals(aliases: seq<(string, string)>, env: Env): Env {
    if aliases == [] then env
    else
      var n := |aliases| - 1;
      var before := WithLocals(aliases[..n], env);
      before[aliases[n].0 := Lookup(before, aliases[n].1)]
  }

  /** A helper called with values. */
  function Call(op: Op, args: seq<word>, globals: Env): word
    requires HasHelper(op)
  {
    var body := ParseAll(BARE, op.h.text);
    if body.None? then 0
    else Eval(body.value, WithLocals(op.h.aliases, Passed(op.h.params, args, globals)))
  }

  /** The values an operator's helper receives. */
  function Values(op: Op, vars: Env, value: word): seq<word> {
    match op
    case PairMap(_) => [Lookup(vars, "left"), Lookup(vars, "right")]
    case TripleMap(_) => [Lookup(vars, "zipped_left"), Lookup(vars, "zipped_right"), Lookup(vars, "right")]
    case Scan(_) => [Lookup(vars, "scan_accum"), value]
    case Reduce(_) => [Lookup(vars, "reduce_accum"), value]
    case _ => [value]
  }

  /** The unoptimised code of one operator on the variables and on `value`, `r` being
      the result of its helper. */
  function DirectWith(op: Op, vars: Env, value: word, r: word): (Env, word, Exit) {
    match op
    case PairMap(_) => (vars, r, Fell)
    case TripleMap(_) => (vars, r, Fell)
    case Map(_) => (vars, r, Fell)
    case Filter(_) => (vars, value, if r != 0 then Fell else Continued)
    case Scan(_) => (vars["scan_accum" := r], r, Fell)
    case Reduce(_) => (vars["reduce_accum" := r], r, Fell)
    case Take(limit) =>
      if Lookup(vars, "take_count") >= limit then (vars, value, Broke)
      else
        var n := Plus(Lookup(vars, "take_count"), 1);
        var counted := vars["take_count" := n];
        (if n >= limit then counted["should_break" := 1] else counted, value, Fell)
    case Skip(limit) =>
      if Lookup(vars, "skip_count") < limit
      then (vars["skip_count" := Plus(Lookup(vars, "skip_count"), 1)], value, Continued)
      else (vars, value, Fell)
    case TakeWhile(_) => (vars, value, if r != 0 then Fell else Broke)
    case SkipWhile(_) =>
      if Lookup(vars, "skip_while_passed") == 0 && r != 0 then (vars, value, Continued)
      else (vars["skip_while_passed" := 1], value, Fell)
    case DistinctUntilChanged(_) =>
      if Lookup(vars, "has_last_key") != 0 && r == Lookup(vars, "last_key") then (vars, value, Continued)
      else (vars["last_key" := r]["has_last_key" := 1], value, Fell)
    case Last => (vars["last_value" := value]["has_last_value" := 1], value, Fell)
    case First => (vars["should_break" := 1], value, Fell)
  }

  function DirectOp(op: Op, globals: Env, vars: Env, value: word): (Env, word, Exit) {
    DirectWith(op, vars, value, if HasHelper(op) then Call(op, Values(op, vars, value), globals) else 0)
  }

  function DirectOps(ops: seq<Op>, globals: Env, vars: Env, value: word): (Env, word, Exit) {
    if ops == [] then (vars, value, Fell)
    else
      var (vars1, v1, exit) := DirectOp(ops[0], globals, vars, value);
      if exit.Fell? then DirectOps(ops[1..], globals, vars1, v1) else (vars1, v1, exit)
  }

  lemma {:induction false} DirectConcat(a: seq<Op>, b: seq<Op>, globals: Env, vars: Env, value: word)
    ensures DirectOps(a + b, globals, vars, value) ==
            (var (vars', v', exit) := DirectOps(a, globals, vars, value);
             if exit.Fell? then DirectOps(b, globals, vars', v') else (vars', v', exit))
    decreases |a|
  {
    if a == [] {
      assert a + b == b;
    } else {
      assert (a + b)[1..] == a[1..] + b;
      var (vars1, v1, exit) := DirectOp(a[0], globals, vars, value);
      if exit.Fell? {
        DirectConcat(a[1..], b, globals, vars1, v1);
      }
    }
  }

  /** The unoptimised loop body on one item. */
  function DirectBody(ops: seq<Op>, globals: Env, vars: Env, value: word): (Env, Exit) {
    var start := if AnyBreaking(ops) then vars["should_break" := 0] else vars;
    var (end, v, exit) := DirectOps(ops, globals, start, value);
    (end, if exit.Fell? && AnyBreaking(ops) && Lookup(end, "should_break") != 0 then Broke else exit)
  }

  /** A final first ends the loop with the first item that reaches it. */
  lemma FirstEndsLoop(ops: seq<Op>, globals: Env, vars: Env, value: word)
    requires DirectOps(ops, globals, vars["should_break" := 0], value).2.Fell?
    ensures DirectBody(ops + [First], globals, vars, value).1.Broke?
  {
    var start := vars["should_break" := 0];
    assert (ops + [First])[|ops|] == First && Breaking(First);
    DirectConcat(ops, [First], globals, start, value);
    var (vars1, v1, _) := DirectOps(ops, globals, start, value);
    assert DirectOps([First], globals, vars1, v1) == (vars1["should_break" := 1], v1, Fell);
  }

  // ------------------------------------------------------------------ simulation

  /** The variables of the loop that outlive or feed an item; the emitted code has
      `value` and `key` besides. */
  const SHARED: set<string> := {
    "src", "left", "right", "zipped_left", "zipped_right",
    "scan_accum", "reduce_accum", "take_count", "skip_count", "skip_while_passed",
    "last_key", "has_last_key", "last_value", "has_last_value", "should_break" }

  /** The names the loop's own variables may have. */
  const LOCALS: set<string> := SHARED + {"value", "key", "N", "zip_n"}

  /** What the current expression may mention, besides globals. */
  const TRACKED: set<string> := {
    "src", "left", "right", "zipped_left", "zipped_right", "value", "scan_accum", "reduce_accum" }

  predicate Agree(env: Env, vars: Env) {
    forall x | x in SHARED :: Lookup(env, x) == Lookup(vars, x)
  }

  /** Every name that is not the loop's own is the global of that name. */
  ghost predicate SeesGlobals(env: Env, globals: Env) {
    forall x | x !in LOCALS :: Lookup(env, x) == Lookup(globals, x)
  }

  ghost predicate Tracked(e: Expr) {
    forall x | Uses(e, x) :: x in TRACKED || x !in LOCALS
  }

  /** The environment of the emitted code and the direct state are in step. */
  ghost predicate InStep(env: Env, globals: Env, vars: Env) {
    Agree(env, vars) && SeesGlobals(env, globals)
  }

  /** The emitter's symbolic state stands for the direct state. */
  ghost predicate Stands(current: Expr, env: Env, globals: Env, vars: Env, value: word) {
    InStep(env, globals, vars) && Tracked(current) && Eval(current, env) == value
  }

  /** What a name of a helper leads to through its locals: the last one of that name,
      and from there through the ones before it. */
  function Root(x: string, aliases: seq<(string, string)>): string
    decreases |aliases|
  {
    if aliases == [] then x
    else
      var n := |aliases| - 1;
      Root(if aliases[n].0 == x then aliases[n].1 else x, aliases[..n])
  }

  /** The variable of the loop that always holds argument `i` of an operator's helper,
      if there is one: the accumulator, a half of the source pair, or `value` where the
      current expression is materialised first. */
  function Holder(op: Op, i: nat): Option<string> {
    match op
    case PairMap(_) => if i == 0 then Some("left") else if i == 1 then Some("right") else None
    case TripleMap(_) =>
      if i == 0 then Some("zipped_left") else if i == 1 then Some("zipped_right")
      else if i == 2 then Some("right") else None
    case Scan(_) => if i == 0 then Some("scan_accum") else None
    case Reduce(_) => if i == 0 then Some("reduce_accum") else None
    case _ => if i == 0 && Materializes(op) then Some("value") else None
  }

  /** The splicing parser takes one step through the locals and then looks among its
      own parameter names; the call takes all steps and looks among the helper's. A
      name is kept when they find the same position, the variable that holds the
      argument at that position, or the same global, no variable of the loop. */
  predicate NameKept(op: Op, x: string)
    requires HasHelper(op)
  {
    var y, r := AliasTarget(x, op.h.aliases), Root(x, op.h.aliases);
    var i, j := IndexOf(y, Params(op)), IndexOf(r, op.h.params);
    if i < |Params(op)| then j == i && j < |op.h.params|
    else if j < |op.h.params| then Holder(op, j) == Some(y)
    else y == r && y !in LOCALS
  }

  /** Every name the helper mentions is kept. */
  ghost predicate NamesKept(op: Op) {
    HasHelper(op) && ParseAll(BARE, op.h.text).Some? ==>
      forall x | Uses(ParseAll(BARE, op.h.text).value, x) :: NameKept(op, x)
  }

  lemma {:induction false} AliasIsName(x: string, scope: Scope)
    requires AliasTarget(x, scope.aliases) in scope.params
    ensures x in Names(scope)
  {
    if x !in Names(scope) {
      NotAliased(x, scope.aliases);
    }
  }

  /** A name that leads to a parameter is bound to that parameter's argument. */
  lemma BoundParam(scope: Scope, env: Env, x: string)
    requires AliasTarget(x, scope.aliases) in scope.params && |scope.args| == |scope.params|
    ensures var i := IndexOf(AliasTarget(x, scope.aliases), scope.params);
            i < |scope.args| && Lookup(Bound(BindingOf(scope), env), x) == Eval(scope.args[i], env)
  {
    AliasIsName(x, scope);
  }

  /** A name that leads to no parameter is read in the environment. */
  lemma BoundFree(scope: Scope, env: Env, x: string)
    requires AliasTarget(x, scope.aliases) !in scope.params
    ensures Lookup(Bound(BindingOf(scope), env), x) == Lookup(env, AliasTarget(x, scope.aliases))
  {
    var y := AliasTarget(x, scope.aliases);
    if x in Names(scope) {
      assert Resolve(scope, x) == Var(y) && BindingOf(scope)[x] == Var(y);
      assert Bound(BindingOf(scope), env)[x] == Eval(Var(y), env);
    } else {
      NotAliased(x, scope.aliases);
    }
  }

  lemma ArgumentValues(op: Op, current: Expr, env: Env, vars: Env, value: word, i: nat)
    requires HasHelper(op) && Agree(env, vars) && Eval(current, env) == value
    requires i < |Params(op)|
    ensures |Arguments(op, current)| == |Values(op, vars, value)| == |Params(op)|
    ensures Eval(Arguments(op, current)[i], env) == Values(op, vars, value)[i]
  {
  }

  lemma HolderValue(op: Op, current: Expr, env: Env, vars: Env, value: word, i: nat, y: string)
    requires HasHelper(op) && Agree(env, vars) && Eval(current, env) == value
    requires (Materializes(op) ==> current == VALUE) && Holder(op, i) == Some(y)
    ensures i < |Values(op, vars, value)| && Lookup(env, y) == Values(op, vars, value)[i]
  {
  }

  /** The parameter of a name, or the global. */
  lemma {:induction false} PassedAt(params: seq<string>, args: seq<word>, globals: Env, x: string)
    ensures var i := IndexOf(x, params);
            Lookup(Passed(params, args, globals), x) ==
            if i < |params| && i < |args| then args[i] else Lookup(globals, x)
  {
    if params != [] && args != [] {
      PassedAt(params[1..], args[1..], globals, x);
    }
  }

  lemma {:induction false} LocalAt(aliases: seq<(string, string)>, env: Env, x: string)
    ensures Lookup(WithLocals(aliases, env), x) == Lookup(env, Root(x, aliases))
    decreases |aliases|
  {
    if aliases != [] {
      var n := |aliases| - 1;
      LocalAt(aliases[..n], env, if aliases[n].0 == x then aliases[n].1 else x);
    }
  }

  /** What a name of a helper means where the helper is spliced into the loop. */
  function Spliced(op: Op, current: Expr, env: Env, x: string): word
    requires HasHelper(op)
  {
    Lookup(Bound(BindingOf(Scope(Params(op), Arguments(op, current), op.h.aliases)), env), x)
  }

  /** What it means where the helper is called. */
  function Called(op: Op, args: seq<word>, globals: Env, x: string): word
    requires HasHelper(op)
  {
    Lookup(WithLocals(op.h.aliases, Passed(op.h.params, args, globals)), x)
  }

  lemma SplicedAt(op: Op, current: Expr, env: Env, vars: Env, value: word, x: string)
    requires HasHelper(op) && Agree(env, vars) && Eval(current, env) == value
    ensures var y := AliasTarget(x, op.h.aliases);
            var i := IndexOf(y, Params(op));
            Spliced(op, current, env, x) ==
            if i < |Params(op)| && i < |Values(op, vars, value)| then Values(op, vars, value)[i] else Lookup(env, y)
  {
    var scope := Scope(Params(op), Arguments(op, current), op.h.aliases);
    var y := AliasTarget(x, op.h.aliases);
    if y in Params(op) {
      ArgumentValues(op, current, env, vars, value, IndexOf(y, Params(op)));
      BoundParam(scope, env, x);
    } else {
      BoundFree(scope, env, x);
    }
  }

  lemma CalledAt(op: Op, args: seq<word>, globals: Env, x: string)
    requires HasHelper(op)
    ensures var r := Root(x, op.h.aliases);
            var j := IndexOf(r, op.h.params);
            Called(op, args, globals, x) ==
            if j < |op.h.params| && j < |args| then args[j] else Lookup(globals, r)
  {
    LocalAt(op.h.aliases, Passed(op.h.params, args, globals), x);
    PassedAt(op.h.params, args, globals, Root(x, op.h.aliases));
  }

  lemma ArgumentCount(op: Op, vars: Env, value: word)
    requires HasHelper(op)
    ensures |Values(op, vars, value)| == |Params(op)|
  {
  }

  /** The loop is about to run the operator: the emitter's state stands, with `value`
      current where the operator materialises. */
  ghost predicate Before(op: Op, current: Expr, env: Env, globals: Env, vars: Env, value: word) {
    Stands(current, env, globals, vars, value) && (Materializes(op) ==> current == VALUE)
  }

  /** A name that is kept means the same spliced and called. */
  lemma NameMeansSame(op: Op, current: Expr, env: Env, globals: Env, vars: Env, value: word, x: string)
    requires HasHelper(op) && Before(op, current, env, globals, vars, value) && NameKept(op, x)
    ensures Spliced(op, current, env, x) == Called(op, Values(op, vars, value), globals, x)
  {
    var y, r := AliasTarget(x, op.h.aliases), Root(x, op.h.aliases);
    ArgumentCount(op, vars, value);
    SplicedAt(op, current, env, vars, value, x);
    CalledAt(op, Values(op, vars, value), globals, x);
    if y !in Params(op) && r in op.h.params {
      HolderValue(op, current, env, vars, value, IndexOf(r, op.h.params), y);
    }
  }

  /** Whatever a helper mentions, inlining evaluates it with the parameters bound to
      their arguments and every other name read in the loop. */
  lemma InlineReadsLoop(op: Op, current: Expr, env: Env)
    requires HasHelper(op)
    ensures var scope := Scope(Params(op), Arguments(op, current), op.h.aliases);
            var body := ParseAll(BARE, op.h.text);
            && (Inline(true, op, current).Some? <==> body.Some?)
            && (body.Some? ==>
                  Eval(Inline(true, op, current).value, env) == Eval(body.value, Bound(BindingOf(scope), env)))
  {
    var scope := Scope(Params(op), Arguments(op, current), op.h.aliases);
    InliningIsBinding(scope, op.h.text, env);
    if ParseAll(BARE, op.h.text).Some? {
      SimplifyKeepsValue(ParseAll(scope, op.h.text).value, env);
    }
  }

  lemma InlineParses(fix: bool, op: Op, current: Expr)
    requires HasHelper(op)
    ensures Inline(fix, op, current).Some? <==> ParseAll(BARE, op.h.text).Some?
  {
    CmpIsSubst(Scope(Params(op), Arguments(op, current), op.h.aliases), op.h.text);
  }

  predicate Parses(op: Op) {
    HasHelper(op) ==> ParseAll(BARE, op.h.text).Some?
  }

  lemma {:induction false} EmitsExact(fix: bool, ops: seq<Op>, m: Emitter)
    ensures EmitOps(fix, ops, m).Some? <==> forall op | op in ops :: Parses(op)
    decreases |ops|
  {
    if ops != [] {
      var m1 := if Materializes(ops[0]) then Materialize(m) else m;
      if HasHelper(ops[0]) {
        InlineParses(fix, ops[0], m1.current);
      }
      assert EmitOp(fix, ops[0], m).Some? <==> Parses(ops[0]);
      if Parses(ops[0]) {
        EmitsExact(fix, ops[1..], EmitOp(fix, ops[0], m).value);
      }
      assert forall op :: op in ops <==> op == ops[0] || op in ops[1..];
    }
  }

  /** A body is emitted exactly when every helper parses, whatever is spliced. */
  lemma EmittedExact(fix: bool, ops: seq<Op>, source: Expr)
    ensures LoopBody(fix, ops, source).Some? <==> forall op | op in ops :: Parses(op)
  {
    EmitsExact(fix, ops, Emitter(source, false, Prologue(ops)));
  }

  /** Inlining, then simplifying with signs respected, gives the value of the call. */
  lemma InlineIsCall(op: Op, current: Expr, env: Env, globals: Env, vars: Env, value: word)
    requires HasHelper(op) && NamesKept(op) && Before(op, current, env, globals, vars, value)
    ensures Inline(true, op, current).Some? <==> ParseAll(BARE, op.h.text).Some?
    ensures Inline(true, op, current).Some? ==>
              Eval(Inline(true, op, current).value, env) == Call(op, Values(op, vars, value), globals)
  {
    InlineReadsLoop(op, current, env);
    if ParseAll(BARE, op.h.text).Some? {
      var body := ParseAll(BARE, op.h.text).value;
      var spliced := Bound(BindingOf(Scope(Params(op), Arguments(op, current), op.h.aliases)), env);
      var called := WithLocals(op.h.aliases, Passed(op.h.params, Values(op, vars, value), globals));
      forall x | Uses(body, x)
        ensures Lookup(spliced, x) == Lookup(called, x)
      {
        NameMeansSame(op, current, env, globals, vars, value, x);
        assert Spliced(op, current, env, x) == Called(op, Values(op, vars, value), globals, x);
      }
      EvalAgrees(body, spliced, called);
    }
  }

  // ------------------------------------------------------- the names in use

  /** A helper written for its place: it has no locals, and its parameters have the
      names the optimiser looks for. */
  predicate Conventional(op: Op)
    requires HasHelper(op)
  {
    && op.h.aliases == []
    && match op
       case PairMap(h) => h.params == ["left_raw", "right_raw"]
       case TripleMap(h) => h.params == ["zipped_left_raw", "zipped_right_raw", "right_raw"]
       case Scan(h) => h.params == ["raw_accum", "raw_next"]
       case Reduce(h) => h.params == ["raw_accum", "raw_next"]
       case Map(h) => h.params == ["raw"]
       case Filter(h) => h.params == ["raw"]
       case TakeWhile(h) => h.params == ["raw"]
       case SkipWhile(h) => h.params == ["raw"]
       case DistinctUntilChanged(h) => h.params == ["raw"]
  }

  lemma ConventionalParams(op: Op)
    requires HasHelper(op) && Conventional(op)
    ensures op.h.params == Params(op)
  {
  }

  /** Such a helper keeps all its names when it mentions nothing of the loop's. */
  lemma ConventionalKept(op: Op)
    requires HasHelper(op) && Conventional(op)
    requires forall x | ParseAll(BARE, op.h.text).Some? && Uses(ParseAll(BARE, op.h.text).value, x) ::
               x in op.h.params || x !in LOCALS
    ensures NamesKept(op)
  {
    ConventionalParams(op);
    if ParseAll(BARE, op.h.text).Some? {
      forall x | Uses(ParseAll(BARE, op.h.text).value, x)
        ensures NameKept(op, x)
      {
        assert AliasTarget(x, op.h.aliases) == x == Root(x, op.h.aliases);
      }
    }
  }

  /** `x`, spliced into the loop or called, has the value `v`. */
  predicate ReadsAs(op: Op, current: Expr, env: Env, globals: Env, vars: Env, value: word, x: string, v: word)
    requires HasHelper(op)
  {
    Spliced(op, current, env, x) == v && Called(op, Values(op, vars, value), globals, x) == v
  }

  lemma ParamReads(op: Op, current: Expr, env: Env, globals: Env, vars: Env, value: word, i: nat)
    requires HasHelper(op) && Conventional(op) && Before(op, current, env, globals, vars, value)
    requires i < |op.h.params| && IndexOf(op.h.params[i], op.h.params) == i
    ensures |Values(op, vars, value)| == |op.h.params|
    ensures ReadsAs(op, current, env, globals, vars, value, op.h.params[i], Values(op, vars, value)[i])
  {
    var x := op.h.params[i];
    ConventionalParams(op);
    ArgumentCount(op, vars, value);
    SplicedAt(op, current, env, vars, value, x);
    CalledAt(op, Values(op, vars, value), globals, x);
  }

  /** What the parameters stand for: the halves of the source pair, the parts of the
      source triple, the accumulator and the item, or the item. */
  lemma PairReads(op: Op, current: Expr, env: Env, globals: Env, vars: Env, value: word)
    requires op.PairMap? && Conventional(op) && Before(op, current, env, globals, vars, value)
    ensures ReadsAs(op, current, env, globals, vars, value, "left_raw", Lookup(vars, "left"))
    ensures ReadsAs(op, current, env, globals, vars, value, "right_raw", Lookup(vars, "right"))
  {
    assert op.h.params[0] == "left_raw" && op.h.params[1] == "right_raw";
    ParamReads(op, current, env, globals, vars, value, 0);
    ParamReads(op, current, env, globals, vars, value, 1);
  }

  lemma TripleReads(op: Op, current: Expr, env: Env, globals: Env, vars: Env, value: word)
    requires op.TripleMap? && Conventional(op) && Before(op, current, env, globals, vars, value)
    ensures ReadsAs(op, current, env, globals, vars, value, "zipped_left_raw", Lookup(vars, "zipped_left"))
    ensures ReadsAs(op, current, env, globals, vars, value, "zipped_right_raw", Lookup(vars, "zipped_right"))
    ensures ReadsAs(op, current, env, globals, vars, value, "right_raw", Lookup(vars, "right"))
  {
    var ps := op.h.params;
    assert ps[0] == "zipped_left_raw" && ps[1] == "zipped_right_raw" && ps[2] == "right_raw";
    ParamReads(op, current, env, globals, vars, value, 0);
    ParamReads(op, current, env, globals, vars, value, 1);
    ParamReads(op, current, env, globals, vars, value, 2);
  }

  lemma FoldReads(op: Op, current: Expr, env: Env, globals: Env, vars: Env, value: word)
    requires (op.Scan? || op.Reduce?) && Conventional(op) && Before(op, current, env, globals, vars, value)
    ensures ReadsAs(op, current, env, globals, vars, value, "raw_accum",
                    Lookup(vars, if op.Scan? then "scan_accum" else "reduce_accum"))
    ensures ReadsAs(op, current, env, globals, vars, value, "raw_next", value)
  {
    assert op.h.params[0] == "raw_accum" && op.h.params[1] == "raw_next";
    ParamReads(op, current, env, globals, vars, value, 0);
    ParamReads(op, current, env, globals, vars, value, 1);
  }

  lemma ItemReads(op: Op, current: Expr, env: Env, globals: Env, vars: Env, value: word)
    requires HasHelper(op) && !op.PairMap? && !op.TripleMap? && !op.Scan? && !op.Reduce?
    requires Conventional(op) && Before(op, current, env, globals, vars, value)
    ensures ReadsAs(op, current, env, globals, vars, value, "raw", value)
  {
    assert op.h.params[0] == "raw";
    ParamReads(op, current, env, globals, vars, value, 0);
  }

  lemma TwoLocals(a: string, b: string, p: string)
    requires a != p && b != p && a != b
    ensures Root(a, [(a, p), (b, a)]) == p && Root(b, [(a, p), (b, a)]) == p
    ensures AliasTarget(a, [(a, p), (b, a)]) == p && AliasTarget(b, [(a, p), (b, a)]) == a
  {
    var aliases := [(a, p), (b, a)];
    assert aliases[..1] == [(a, p)] && [(a, p)][..0] == [] && aliases[1..] == [(b, a)];
    assert Root(a, [(a, p)]) == Root(p, []) == p;
  }

  /** A local set to a parameter means its argument, spliced or called. A local set to
      such a local does so only when called: the parser takes one step, and reads the
      first local in the loop. */
  lemma LocalsRead(op: Op, current: Expr, env: Env, globals: Env, vars: Env, value: word, a: string, b: string)
    requires op.Map? && op.h.params == ["raw"] && op.h.aliases == [(a, "raw"), (b, a)]
    requires a != "raw" && b != "raw" && a != b && Before(op, current, env, globals, vars, value)
    ensures ReadsAs(op, current, env, globals, vars, value, a, value)
    ensures Called(op, Values(op, vars, value), globals, b) == value
    ensures Spliced(op, current, env, b) == Lookup(env, a)
  {
    TwoLocals(a, b, "raw");
    SplicedAt(op, current, env, vars, value, a);
    SplicedAt(op, current, env, vars, value, b);
    CalledAt(op, Values(op, vars, value), globals, a);
    CalledAt(op, Values(op, vars, value), globals, b);
  }

  // ---------------------------------------------------- names that are not kept

  /** The variable that argument `i` is read from where `src` is current, and `value`
      where the operator materialises. */
  function ReadFrom(op: Op, i: nat): string
    requires HasHelper(op)
  {
    if Holder(op, i).Some? then Holder(op, i).value else "src"
  }

  function Plainest(op: Op): Expr {
    if Materializes(op) then VALUE else Var("src")
  }

  lemma ReadFromLocals(op: Op, i: nat)
    requires HasHelper(op)
    ensures ReadFrom(op, i) in LOCALS
  {
  }

  /** A state in which the loop's variables and the globals are what `env` and
      `globals` say, the current expression being a plain variable. */
  lemma PlainState(op: Op, env: Env, globals: Env)
    requires HasHelper(op) && SeesGlobals(env, globals)
    ensures var value := Eval(Plainest(op), env);
            && Before(op, Plainest(op), env, globals, env, value)
            && |Values(op, env, value)| == |Params(op)|
            && forall i | 0 <= i < |Params(op)| :: Values(op, env, value)[i] == Lookup(env, ReadFrom(op, i))
  {
  }

  lemma ReadFromApart(op: Op, i: nat, j: nat)
    requires HasHelper(op) && i < |Params(op)| && j < |Params(op)| && i != j
    ensures ReadFrom(op, i) != ReadFrom(op, j)
  {
  }

  /** Where the parser finds no parameter but the helper has one, and no variable of
      the loop holds its argument. */
  lemma UnseenDiffers(op: Op, j: nat, y: string) returns (current: Expr, env: Env, value: word)
    requires HasHelper(op) && j < |Params(op)| && Holder(op, j) != Some(y)
    ensures Before(op, current, env, map[], env, value)
    ensures |Values(op, env, value)| == |Params(op)| && Lookup(env, y) != Values(op, env, value)[j]
  {
    ReadFromLocals(op, j);
    if y == ReadFrom(op, j) {
      current, env, value := Const(1), map[], 1;
    } else {
      current, env := Plainest(op), map[ReadFrom(op, j) := 1];
      value := Eval(current, env);
      PlainState(op, env, map[]);
    }
  }

  /** Where the parser finds another position than the call. */
  lemma MisplacedDiffers(op: Op, i: nat, j: nat) returns (env: Env)
    requires HasHelper(op) && i < |Params(op)| && j < |Params(op)| && i != j
    ensures var value := Eval(Plainest(op), env);
            && Before(op, Plainest(op), env, map[], env, value) && |Values(op, env, value)| == |Params(op)|
            && Values(op, env, value)[i] != Values(op, env, value)[j]
  {
    ReadFromLocals(op, i);
    ReadFromApart(op, i, j);
    env := map[ReadFrom(op, i) := 1];
    PlainState(op, env, map[]);
  }

  /** Where the call reads the global `r`: no variable of the loop, and no other name,
      need have its value. */
  lemma GlobalDiffers(op: Op, r: string) returns (env: Env, globals: Env)
    requires HasHelper(op)
    ensures var value := Eval(Plainest(op), env);
            && Before(op, Plainest(op), env, globals, env, value) && |Values(op, env, value)| == |Params(op)|
            && (forall i | 0 <= i < |Params(op)| :: Values(op, env, value)[i] == 0)
    ensures Lookup(globals, r) == 1 && forall y | y != r || y in LOCALS :: Lookup(env, y) == 0
  {
    globals := map[r := 1];
    env := if r in LOCALS then map[] else globals;
    forall i: nat
      ensures ReadFrom(op, i) in LOCALS
    {
      ReadFromLocals(op, i);
    }
    PlainState(op, env, globals);
  }

  /** A name that is not kept: a state of the loop, and globals, for which the spliced
      helper reads something else than the called one. */
  lemma NameDiffers(op: Op, x: string) returns (current: Expr, env: Env, globals: Env, value: word)
    requires HasHelper(op) && |op.h.params| == |Params(op)| && !NameKept(op, x)
    ensures Before(op, current, env, globals, env, value)
    ensures Spliced(op, current, env, x) != Called(op, Values(op, env, value), globals, x)
  {
    var y, r := AliasTarget(x, op.h.aliases), Root(x, op.h.aliases);
    var i, j := IndexOf(y, Params(op)), IndexOf(r, op.h.params);
    if j == |op.h.params| {
      current := Plainest(op);
      env, globals := GlobalDiffers(op, r);
      value := Eval(current, env);
    } else {
      globals := map[];
      if i < |Params(op)| {
        current := Plainest(op);
        env := MisplacedDiffers(op, i, j);
        value := Eval(current, env);
      } else {
        current, env, value := UnseenDiffers(op, j, y);
      }
    }
    SplicedAt(op, current, env, env, value, x);
    CalledAt(op, Values(op, env, value), globals, x);
  }

  /** Exactly when a name of a helper means the same spliced and called, in every state
      of the loop and whatever the globals are; and for a helper that returns that one
      name, when the inlined code returns what the call does. */
  lemma CapturedExact(op: Op, x: string)
    requires HasHelper(op) && |op.h.params| == |Params(op)|
    ensures (forall current, env, globals, vars, value | Before(op, current, env, globals, vars, value) ::
               Spliced(op, current, env, x) == Called(op, Values(op, vars, value), globals, x))
            <==> NameKept(op, x)
    ensures ParseAll(BARE, op.h.text) == Some(Var(x)) ==>
              ((forall current, env, globals, vars, value | Before(op, current, env, globals, vars, value) ::
                  && Inline(true, op, current).Some?
                  && Eval(Inline(true, op, current).value, env) == Call(op, Values(op, vars, value), globals))
               <==> NameKept(op, x))
  {
    forall current, env, globals, vars, value | Before(op, current, env, globals, vars, value)
      ensures NameKept(op, x) ==> Spliced(op, current, env, x) == Called(op, Values(op, vars, value), globals, x)
      ensures ParseAll(BARE, op.h.text) == Some(Var(x)) ==>
                && Inline(true, op, current).Some?
                && Eval(Inline(true, op, current).value, env) == Spliced(op, current, env, x)
                && Call(op, Values(op, vars, value), globals) == Called(op, Values(op, vars, value), globals, x)
    {
      if NameKept(op, x) {
        NameMeansSame(op, current, env, globals, vars, value, x);
      }
      InlineReadsLoop(op, current, env);
    }
    if !NameKept(op, x) {
      var current, env, globals, value := NameDiffers(op, x);
      assert Before(op, current, env, globals, env, value);
    }
  }

  lemma SplicedFree(op: Op, current: Expr, env: Env, x: string)
    requires HasHelper(op) && AliasTarget(x, op.h.aliases) !in Params(op)
    ensures Spliced(op, current, env, x) == Lookup(env, AliasTarget(x, op.h.aliases))
  {
    BoundFree(Scope(Params(op), Arguments(op, current), op.h.aliases), env, x);
  }

  lemma IdentitySpliced(op: Op, p: string, current: Expr, env: Env)
    requires HasHelper(op) && p !in Params(op) && op.h.aliases == [] && ParseAll(BARE, op.h.text) == Some(Var(p))
    ensures Inline(true, op, current).Some? && Eval(Inline(true, op, current).value, env) == Lookup(env, p)
  {
    InlineReadsLoop(op, current, env);
    SplicedFree(op, current, env, p);
  }

  /** So the identity helper, its parameter called anything but `raw`, returns its
      argument when called; inlined it returns what that name is in the loop. */
  lemma IdentityMisread(h: Helper, p: string, current: Expr, env: Env, a: word, globals: Env)
    requires p != "raw" && h.params == [p] && h.aliases == [] && ParseAll(BARE, h.text) == Some(Var(p))
    ensures Call(Map(h), [a], globals) == a
    ensures Inline(true, Map(h), current).Some? && Eval(Inline(true, Map(h), current).value, env) == Lookup(env, p)
  {
    PassedAt([p], [a], globals, p);
    IdentitySpliced(Map(h), p, current, env);
  }

  // -------------------------------------------------- what expressions mention

  lemma {:induction false} SubstUses(e: Expr, b: Binding, x: string) returns (y: string)
    requires Uses(Subst(e, b), x)
    ensures Uses(e, y) && Uses(if y in b then b[y] else Var(y), x)
  {
    match e
    case Const(_) =>
    case Var(z) => y := z;
    case Bin(_, l, r) =>
      if Uses(Subst(l, b), x) {
        y := SubstUses(l, b, x);
      } else {
        y := SubstUses(r, b, x);
      }
  }

  lemma ArgumentsTracked(op: Op, current: Expr, i: nat)
    requires HasHelper(op) && Tracked(current) && i < |Params(op)|
    ensures |Arguments(op, current)| == |Params(op)| && Tracked(Arguments(op, current)[i])
  {
  }

  lemma HolderTracked(op: Op, i: nat)
    ensures Holder(op, i).Some? ==> Holder(op, i).value in TRACKED
  {
  }

  /** What a kept name of a helper brings in. */
  lemma NameTracked(op: Op, current: Expr, y: string, x: string)
    requires HasHelper(op) && NameKept(op, y) && Tracked(current)
    requires var b := BindingOf(Scope(Params(op), Arguments(op, current), op.h.aliases));
             Uses(if y in b then b[y] else Var(y), x)
    ensures x in TRACKED || x !in LOCALS
  {
    var scope := Scope(Params(op), Arguments(op, current), op.h.aliases);
    var z := AliasTarget(y, op.h.aliases);
    if z in Params(op) {
      AliasIsName(y, scope);
      ArgumentsTracked(op, current, IndexOf(z, Params(op)));
    } else {
      if y in Names(scope) {
        assert BindingOf(scope)[y] == Var(z);
      } else {
        NotAliased(y, op.h.aliases);
      }
      HolderTracked(op, IndexOf(Root(y, op.h.aliases), op.h.params));
    }
  }

  lemma InlineTracked(op: Op, current: Expr)
    requires HasHelper(op) && NamesKept(op) && Tracked(current) && Inline(true, op, current).Some?
    ensures Tracked(Inline(true, op, current).value)
  {
    var scope := Scope(Params(op), Arguments(op, current), op.h.aliases);
    var body := ParseAll(BARE, op.h.text);
    CmpIsSubst(scope, op.h.text);
    var e := ParseAll(scope, op.h.text).value;
    forall x | Uses(Simplify(true, e), x)
      ensures x in TRACKED || x !in LOCALS
    {
      SimplifyKeepsUses(true, e, x);
      var y := SubstUses(body.value, BindingOf(scope), x);
      NameTracked(op, current, y, x);
    }
  }

  // ----------------------------------------------- emitted code, case by case

  lemma ExecCons(s: Stmt, rest: seq<Stmt>, env: Env)
    ensures Exec([s] + rest, env) ==
            (var (env', exit) := ExecOne(s, env); if exit.Fell? then Exec(rest, env') else (env', exit))
  {
  }

  lemma Exec1(s: Stmt, env: Env)
    ensures Exec([s], env) == ExecOne(s, env)
  {
  }

  lemma Exec2(s: Stmt, t: Stmt, env: Env)
    ensures Exec([s, t], env) ==
            (var (env', exit) := ExecOne(s, env); if exit.Fell? then ExecOne(t, env') else (env', exit))
  {
    assert [s, t] == [s] + [t];
    ExecCons(s, [t], env);
    Exec1(t, ExecOne(s, env).0);
  }

  /** `env` and `vars` changed alike. */
  lemma AgreeSet(env: Env, vars: Env, x: string, v: word)
    requires Agree(env, vars)
    ensures Agree(env[x := v], vars[x := v])
    ensures x !in SHARED ==> Agree(env[x := v], vars)
  {
  }

  /** The environment an operator's code works on: a distinct declares `key` first. */
  function Keyed(op: Op, env: Env, r: word): Env {
    if op.DistinctUntilChanged? then env["key" := r] else env
  }

  /** The code of an operator does to the environment what the operator does to the
      variables. */
  ghost predicate ActsDirectly(op: Op, e: Expr, env: Env, value: word) {
    var r := Eval(e, env);
    var (env', _, exit) := DirectWith(op, Keyed(op, env, r), value, r);
    Exec(Emission(op, e), env) == (env', exit)
  }

  lemma LimitTests(x: string, limit: word, env: Env)
    ensures Holds(AtLeast(x, limit), env) == (Lookup(env, x) >= limit)
    ensures Holds(Truthy(Bin(Lt, Var(x), Const(limit))), env) == (Lookup(env, x) < limit)
    ensures Eval(PlusOne(x), env) == Plus(Lookup(env, x), 1)
  {
    var e := Bin(Lt, Var(x), Const(limit));
    assert Eval(e, env) == if Lookup(env, x) < limit then 1 else 0;
    assert Holds(Truthy(e), env) == (Eval(e, env) != 0);
  }

  /** A guard, its condition and its effect known. */
  lemma GuardActs(c: Cond, sets: seq<(string, Expr)>, exit: Exit, env: Env)
    ensures sets == [] ==> ExecOne(Guard(c, sets, exit), env) == (env, if Holds(c, env) then exit else Fell)
    ensures |sets| == 1 ==>
              ExecOne(Guard(c, sets, exit), env) ==
              if Holds(c, env) then (env[sets[0].0 := Eval(sets[0].1, env)], exit) else (env, Fell)
  {
    if |sets| == 1 {
      assert SetAll(sets, env) == SetAll(sets[1..], env[sets[0].0 := Eval(sets[0].1, env)]);
    }
  }

  lemma TakeActs(op: Op, e: Expr, env: Env, value: word)
    requires op.Take?
    ensures ActsDirectly(op, e, env, value)
  {
    var code := Emission(op, e);
    assert code == [code[0]] + [code[1], code[2]];
    var counted := env["take_count" := Plus(Lookup(env, "take_count"), 1)];
    LimitTests("take_count", op.limit, env);
    LimitTests("take_count", op.limit, counted);
    GuardActs(code[0].c, [], Broke, env);
    GuardActs(code[2].c, code[2].sets, Fell, counted);
    ExecCons(code[0], [code[1], code[2]], env);
    Exec2(code[1], code[2], env);
  }

  lemma SkipActs(op: Op, e: Expr, env: Env, value: word)
    requires op.Skip?
    ensures ActsDirectly(op, e, env, value)
  {
    var guard := Emission(op, e)[0];
    LimitTests("skip_count", op.limit, env);
    GuardActs(guard.c, guard.sets, Continued, env);
    Exec1(guard, env);
  }

  lemma DistinctActs(op: Op, e: Expr, env: Env, value: word)
    requires op.DistinctUntilChanged?
    ensures ActsDirectly(op, e, env, value)
  {
    var code, r := Emission(op, e), Eval(e, env);
    var env1 := env["key" := r];
    var same := Bin(Eq, Var("key"), Var("last_key"));
    assert code == [code[0]] + ([code[1]] + [code[2], code[3]]);
    assert Eval(same, env1) == if r == Lookup(env1, "last_key") then 1 else 0;
    assert Holds(Truthy(same), env1) == (r == Lookup(env1, "last_key"));
    assert Holds(Truthy(Var("has_last_key")), env1) == (Lookup(env1, "has_last_key") != 0);
    GuardActs(code[1].c, [], Continued, env1);
    ExecCons(code[0], [code[1]] + [code[2], code[3]], env);
    ExecCons(code[1], [code[2], code[3]], env1);
    Exec2(code[2], code[3], env1);
  }

  lemma SkipWhileActs(op: Op, e: Expr, env: Env, value: word)
    requires op.SkipWhile?
    ensures ActsDirectly(op, e, env, value)
  {
    var code := Emission(op, e);
    var waiting := Not(Truthy(Var("skip_while_passed")));
    assert Holds(waiting, env) == !Holds(Truthy(Var("skip_while_passed")), env);
    assert Holds(And(waiting, Truthy(e)), env) == (Holds(waiting, env) && Holds(Truthy(e), env));
    GuardActs(code[0].c, [], Continued, env);
    Exec2(code[0], code[1], env);
  }

  lemma OtherActs(op: Op, e: Expr, env: Env, value: word)
    requires !op.Take? && !op.Skip? && !op.DistinctUntilChanged? && !op.SkipWhile?
    requires Materializes(op) ==> Lookup(env, "value") == value
    ensures ActsDirectly(op, e, env, value)
  {
    var code := Emission(op, e);
    if op.Last? {
      Exec2(code[0], code[1], env);
    } else if code != [] {
      Exec1(code[0], env);
      if code[0].Guard? {
        assert Holds(code[0].c, env) == !Holds(Truthy(e), env);
        GuardActs(code[0].c, [], code[0].exit, env);
      }
    }
  }

  lemma EmissionActs(op: Op, e: Expr, env: Env, value: word)
    requires Materializes(op) ==> Lookup(env, "value") == value
    ensures ActsDirectly(op, e, env, value)
  {
    match op
    case Take(_) => TakeActs(op, e, env, value);
    case Skip(_) => SkipActs(op, e, env, value);
    case DistinctUntilChanged(_) => DistinctActs(op, e, env, value);
    case SkipWhile(_) => SkipWhileActs(op, e, env, value);
    case _ => OtherActs(op, e, env, value);
  }

  // -------------------------------------------------------- the whole loop body

  lemma AgreeAt(env: Env, vars: Env, x: string)
    requires Agree(env, vars) && x in SHARED
    ensures Lookup(env, x) == Lookup(vars, x)
  {
  }

  /** An operator does the same to variables that agree, as far as they agree. */
  ghost predicate AgreeAfter(op: Op, env: Env, vars: Env, value: word, r: word) {
    var (env', v, exit) := DirectWith(op, Keyed(op, env, r), value, r);
    var (vars', v', exit') := DirectWith(op, vars, value, r);
    Agree(env', vars') && v == v' && exit == exit'
  }

  lemma CountingAgrees(op: Op, env: Env, vars: Env, value: word, r: word)
    requires Agree(env, vars) && (op.Take? || op.Skip?)
    ensures AgreeAfter(op, env, vars, value, r)
  {
    var x := if op.Take? then "take_count" else "skip_count";
    AgreeAt(env, vars, x);
    var n := Plus(Lookup(vars, x), 1);
    AgreeSet(env, vars, x, n);
    AgreeSet(env[x := n], vars[x := n], "should_break", 1);
  }

  lemma DistinctAgrees(op: Op, env: Env, vars: Env, value: word, r: word)
    requires Agree(env, vars) && op.DistinctUntilChanged?
    ensures AgreeAfter(op, env, vars, value, r)
  {
    AgreeSet(env, vars, "key", r);
    var keyed := env["key" := r];
    AgreeAt(keyed, vars, "last_key");
    AgreeAt(keyed, vars, "has_last_key");
    AgreeSet(keyed, vars, "last_key", r);
    AgreeSet(keyed["last_key" := r], vars["last_key" := r], "has_last_key", 1);
  }

  lemma FlaggedAgrees(op: Op, env: Env, vars: Env, value: word, r: word)
    requires Agree(env, vars) && (op.SkipWhile? || op.Last? || op.First?)
    ensures AgreeAfter(op, env, vars, value, r)
  {
    AgreeAt(env, vars, "skip_while_passed");
    AgreeSet(env, vars, "skip_while_passed", 1);
    AgreeSet(env, vars, "should_break", 1);
    AgreeSet(env, vars, "last_value", value);
    AgreeSet(env["last_value" := value], vars["last_value" := value], "has_last_value", 1);
  }

  lemma DirectAgrees(op: Op, env: Env, vars: Env, value: word, r: word)
    requires Agree(env, vars)
    ensures AgreeAfter(op, env, vars, value, r)
  {
    match op
    case Take(_) => CountingAgrees(op, env, vars, value, r);
    case Skip(_) => CountingAgrees(op, env, vars, value, r);
    case DistinctUntilChanged(_) => DistinctAgrees(op, env, vars, value, r);
    case SkipWhile(_) => FlaggedAgrees(op, env, vars, value, r);
    case Last => FlaggedAgrees(op, env, vars, value, r);
    case First => FlaggedAgrees(op, env, vars, value, r);
    case Scan(_) => AgreeSet(env, vars, "scan_accum", r);
    case Reduce(_) => AgreeSet(env, vars, "reduce_accum", r);
    case _ =>
  }

  /** What an operator without an accumulator writes, no current expression mentions;
      and no operator writes a global. */
  lemma DirectKeeps(op: Op, env: Env, value: word, r: word, x: string)
    requires if x in TRACKED then !op.Scan? && !op.Reduce? else x !in LOCALS
    ensures Lookup(DirectWith(op, Keyed(op, env, r), value, r).0, x) == Lookup(env, x)
  {
  }

  lemma DirectKeepsGlobals(op: Op, env: Env, globals: Env, value: word, r: word)
    requires SeesGlobals(env, globals)
    ensures SeesGlobals(DirectWith(op, Keyed(op, env, r), value, r).0, globals)
  {
    var env' := DirectWith(op, Keyed(op, env, r), value, r).0;
    forall x | x !in LOCALS
      ensures Lookup(env', x) == Lookup(globals, x)
    {
      assert x !in TRACKED;
      DirectKeeps(op, env, value, r, x);
    }
  }

  /** Materialising sets `value` to what the current expression stands for. */
  lemma MaterializeStands(m: Emitter, env: Env, globals: Env, vars: Env, value: word)
      returns (code: seq<Stmt>, env': Env)
    requires Stands(m.current, env, globals, vars, value)
    ensures Materialize(m).out == m.out + code && Exec(code, env) == (env', Fell)
    ensures Materialize(m).current == VALUE && Stands(VALUE, env', globals, vars, value)
  {
    if m.current == VALUE {
      code, env' := [], env;
      assert m.out + [] == m.out;
    } else {
      code := Materialize(m).out[|m.out|..];
      env' := env["value" := value];
      Exec1(code[0], env);
      AgreeSet(env, vars, "value", value);
    }
  }

  /** The current expression after an operator stands for the value after it. */
  lemma NextStands(op: Op, e: Expr, current: Expr, env: Env, globals: Env, vars: Env, value: word)
    requires Stands(current, env, globals, vars, value) && Tracked(e)
    ensures var r := Eval(e, env);
            var (env', v, _) := DirectWith(op, Keyed(op, env, r), value, r);
            Tracked(NextCurrent(op, e, current)) && Eval(NextCurrent(op, e, current), env') == v
  {
    var r := Eval(e, env);
    if !op.Scan? && !op.Reduce? {
      var env' := DirectWith(op, Keyed(op, env, r), value, r).0;
      forall x | x in TRACKED || x !in LOCALS
        ensures Lookup(env', x) == Lookup(env, x)
      {
        DirectKeeps(op, env, value, r, x);
      }
      EvalAgrees(current, env, env');
      EvalAgrees(e, env, env');
    }
  }

  /** The emission of an operator, then what the emitter holds. */
  lemma EmissionSimulates(op: Op, e: Expr, current: Expr, env: Env, globals: Env, vars: Env, value: word)
      returns (env': Env)
    requires Stands(current, env, globals, vars, value) && Tracked(e)
    requires Materializes(op) ==> current == VALUE
    ensures var (vars', v, exit) := DirectWith(op, vars, value, Eval(e, env));
            && Exec(Emission(op, e), env) == (env', exit)
            && Stands(NextCurrent(op, e, current), env', globals, vars', v)
  {
    var r := Eval(e, env);
    env' := DirectWith(op, Keyed(op, env, r), value, r).0;
    EmissionActs(op, e, env, value);
    NextStands(op, e, current, env, globals, vars, value);
    DirectAgrees(op, env, vars, value, r);
    DirectKeepsGlobals(op, env, globals, value, r);
  }

  /** What the emitter puts in front of an operator's code, and the expression it
      works on: the current one, materialised where the program does so. */
  lemma Prepared(op: Op, m: Emitter, env: Env, globals: Env, vars: Env, value: word)
      returns (m1: Emitter, before: seq<Stmt>, env1: Env)
    requires Stands(m.current, env, globals, vars, value)
    ensures m1 == if Materializes(op) then Materialize(m) else m
    ensures m1.out == m.out + before && Exec(before, env) == (env1, Fell)
    ensures Stands(m1.current, env1, globals, vars, value) && (Materializes(op) ==> m1.current == VALUE)
  {
    m1, before, env1 := m, [], env;
    if Materializes(op) {
      m1 := Materialize(m);
      before, env1 := MaterializeStands(m, env, globals, vars, value);
    }
    assert m.out + [] == m.out;
  }

  /** The expression an operator's code is made of evaluates to its helper's result. */
  lemma HelperValue(op: Op, current: Expr, env: Env, globals: Env, vars: Env, value: word) returns (e: Expr)
    requires NamesKept(op) && Before(op, current, env, globals, vars, value)
    requires HasHelper(op) ==> Inline(true, op, current).Some?
    ensures e == if HasHelper(op) then Inline(true, op, current).value else current
    ensures Tracked(e) && (HasHelper(op) ==> Eval(e, env) == Call(op, Values(op, vars, value), globals))
  {
    e := current;
    if HasHelper(op) {
      e := Inline(true, op, current).value;
      InlineIsCall(op, current, env, globals, vars, value);
      InlineTracked(op, current);
    }
  }

  /** The result of a helper matters only where there is one. */
  lemma DirectOpIs(op: Op, globals: Env, vars: Env, value: word, r: word)
    requires HasHelper(op) ==> r == Call(op, Values(op, vars, value), globals)
    ensures DirectOp(op, globals, vars, value) == DirectWith(op, vars, value, r)
  {
  }

  lemma EmitOpIs(op: Op, m: Emitter, m1: Emitter, e: Expr)
    requires EmitOp(true, op, m).Some? && m1 == if Materializes(op) then Materialize(m) else m
    requires HasHelper(op) ==> Inline(true, op, m1.current) == Some(e)
    requires !HasHelper(op) ==> e == m1.current
    ensures EmitOp(true, op, m).value.out == m1.out + Emission(op, e)
    ensures EmitOp(true, op, m).value.current == NextCurrent(op, e, m1.current)
  {
  }

  /** What the emitter appends for one operator does, to the environment, what the
      operator does to the variables and the value. */
  lemma OpSimulates(op: Op, m: Emitter, env: Env, globals: Env, vars: Env, value: word)
      returns (code: seq<Stmt>, env': Env)
    requires NamesKept(op) && Stands(m.current, env, globals, vars, value) && EmitOp(true, op, m).Some?
    ensures var (vars', v, exit) := DirectOp(op, globals, vars, value);
            var m' := EmitOp(true, op, m).value;
            && m'.out == m.out + code && Exec(code, env) == (env', exit)
            && Stands(m'.current, env', globals, vars', v)
  {
    var m1, before, env1 := Prepared(op, m, env, globals, vars, value);
    var e := HelperValue(op, m1.current, env1, globals, vars, value);
    EmitOpIs(op, m, m1, e);
    env' := EmissionSimulates(op, e, m1.current, env1, globals, vars, value);
    DirectOpIs(op, globals, vars, value, Eval(e, env1));
    code := before + Emission(op, e);
    ExecConcat(before, Emission(op, e), env);
    AppendAssoc(m.out, before, Emission(op, e));
  }

  /** The same for a chain of operators. */
  lemma {:induction false} OpsSimulate(ops: seq<Op>, m: Emitter, env: Env, globals: Env, vars: Env, value: word)
      returns (code: seq<Stmt>, env': Env)
    requires (forall op | op in ops :: NamesKept(op)) && Stands(m.current, env, globals, vars, value)
    requires EmitOps(true, ops, m).Some?
    ensures var (vars', _, exit) := DirectOps(ops, globals, vars, value);
            && EmitOps(true, ops, m).value.out == m.out + code
            && Exec(code, env) == (env', exit) && InStep(env', globals, vars')
    decreases |ops|
  {
    if ops == [] {
      code, env' := [], env;
      assert m.out + [] == m.out;
    } else {
      var m1 := EmitOp(true, ops[0], m).value;
      var (vars1, v1, exit1) := DirectOp(ops[0], globals, vars, value);
      var code1, env1 := OpSimulates(ops[0], m, env, globals, vars, value);
      var rest, env2 := OpsSimulate(ops[1..], m1, env1, globals, vars1, v1);
      code, env' := code1 + rest, if exit1.Fell? then env2 else env1;
      AppendAssoc(m.out, code1, rest);
      ExecConcat(code1, rest, env);
    }
  }

  /** On every item the emitted body and the operators decide alike to fall through,
      continue or break, and leave every slot alike. */
  lemma BodyIsDirect(ops: seq<Op>, source: Expr, env: Env, globals: Env, vars: Env, value: word)
    requires (forall op | op in ops :: NamesKept(op)) && LoopBody(true, ops, source).Some?
    requires Stands(source, env, globals, vars, value)
    ensures var (env', exit) := Exec(LoopBody(true, ops, source).value, env);
            var (vars', exit') := DirectBody(ops, globals, vars, value);
            exit == exit' && InStep(env', globals, vars')
  {
    var env0, vars0 := env, vars;
    if AnyBreaking(ops) {
      env0, vars0 := env["should_break" := 0], vars["should_break" := 0];
      AgreeSet(env, vars, "should_break", 0);
      Exec1(Prologue(ops)[0], env);
    }
    assert Exec(Prologue(ops), env) == (env0, Fell);
    EvalAgrees(source, env, env0);
    var start := Emitter(source, false, Prologue(ops));
    var code, env1 := OpsSimulate(ops, start, env0, globals, vars0, value);
    ExecConcat(Prologue(ops), code, env);
    ExecConcat(Prologue(ops) + code, Epilogue(ops), env);
    if AnyBreaking(ops) {
      Exec1(Epilogue(ops)[0], env1);
      GuardActs(Truthy(Var("should_break")), [], Broke, env1);
    }
  }

  // ------------------------------------------------------------- over all items

  /** What the head of the loop binds: `src`; both halves of a pair; or the cell of
      the nested zip_merge_map source. */
  datatype Item = Plain(src: word) | Zipped(src: word) | Merged(right: word, src: word)

  function Feed(item: Item, env: Env): Env {
    match item
    case Plain(s) => env["src" := s]
    case Zipped(s) => env["src" := s]["left" := s]["right" := s]
    case Merged(r, s) => env["right" := r]["src" := s]["zipped_left" := s]["zipped_right" := s]
  }

  /** A loop over one row of items: `break` leaves the row. */
  function RunRow(body: seq<Stmt>, row: seq<Item>, env: Env): Env {
    if row == [] then env
    else
      var (env', exit) := Exec(body, Feed(row[0], env));
      if exit.Broke? then env' else RunRow(body, row[1..], env')
  }

  /** The nested loop; the plain sources have one row. */
  function RunRows(body: seq<Stmt>, rows: seq<seq<Item>>, env: Env): Env {
    if rows == [] then env else RunRows(body, rows[1..], RunRow(body, rows[0], env))
  }

  function DirectRow(ops: seq<Op>, globals: Env, row: seq<Item>, vars: Env): Env {
    if row == [] then vars
    else
      var (vars', exit) := DirectBody(ops, globals, Feed(row[0], vars), row[0].src);
      if exit.Broke? then vars' else DirectRow(ops, globals, row[1..], vars')
  }

  function DirectRows(ops: seq<Op>, globals: Env, rows: seq<seq<Item>>, vars: Env): Env {
    if rows == [] then vars else DirectRows(ops, globals, rows[1..], DirectRow(ops, globals, rows[0], vars))
  }

  lemma InStepSet(env: Env, globals: Env, vars: Env, x: string, v: word)
    requires InStep(env, globals, vars) && x in SHARED
    ensures InStep(env[x := v], globals, vars[x := v])
  {
    AgreeSet(env, vars, x, v);
  }

  lemma FeedAgrees(item: Item, env: Env, globals: Env, vars: Env)
    requires InStep(env, globals, vars)
    ensures Stands(Var("src"), Feed(item, env), globals, Feed(item, vars), item.src)
  {
    var s := item.src;
    match item
    case Plain(_) => InStepSet(env, globals, vars, "src", s);
    case Zipped(_) =>
      InStepSet(env, globals, vars, "src", s);
      InStepSet(env["src" := s], globals, vars["src" := s], "left", s);
      InStepSet(env["src" := s]["left" := s], globals, vars["src" := s]["left" := s], "right", s);
    case Merged(r, _) =>
      var env1, vars1 := env["right" := r]["src" := s], vars["right" := r]["src" := s];
      InStepSet(env, globals, vars, "right", r);
      InStepSet(env["right" := r], globals, vars["right" := r], "src", s);
      InStepSet(env1, globals, vars1, "zipped_left", s);
      InStepSet(env1["zipped_left" := s], globals, vars1["zipped_left" := s], "zipped_right", s);
  }

  lemma {:induction false} RowIsDirect(ops: seq<Op>, body: seq<Stmt>, row: seq<Item>, env: Env, globals: Env,
                                       vars: Env)
    requires (forall op | op in ops :: NamesKept(op)) && LoopBody(true, ops, Var("src")) == Some(body)
    requires InStep(env, globals, vars)
    ensures InStep(RunRow(body, row, env), globals, DirectRow(ops, globals, row, vars))
    decreases |row|
  {
    if row != [] {
      var env0, vars0 := Feed(row[0], env), Feed(row[0], vars);
      FeedAgrees(row[0], env, globals, vars);
      BodyIsDirect(ops, Var("src"), env0, globals, vars0, row[0].src);
      RowIsDirect(ops, body, row[1..], Exec(body, env0).0, globals, DirectBody(ops, globals, vars0, row[0].src).0);
    }
  }

  /** The graph optimiser is a correct compiler: over any number of items, from slots
      that agree, the emitted loop and the operators end with slots that agree. */
  lemma {:induction false} CompiledLoopIsDirect(ops: seq<Op>, body: seq<Stmt>, rows: seq<seq<Item>>, env: Env,
                                                globals: Env, vars: Env)
    requires (forall op | op in ops :: NamesKept(op)) && LoopBody(true, ops, Var("src")) == Some(body)
    requires InStep(env, globals, vars)
    ensures InStep(RunRows(body, rows, env), globals, DirectRows(ops, globals, rows, vars))
    decreases |rows|
  {
    if rows != [] {
      var env1, vars1 := RunRow(body, rows[0], env), DirectRow(ops, globals, rows[0], vars);
      RowIsDirect(ops, body, rows[0], env, globals, vars);
      CompiledLoopIsDirect(ops, body, rows[1..], env1, globals, vars1);
    }
  }
}
