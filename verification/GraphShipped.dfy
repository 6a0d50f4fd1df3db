/** The graph optimiser with its simplifier as shipped (core/planner/graph_opt.c:545-567):
    where its code is right, and by how much it is off where it is not. */
module GraphShipped {
  import opened Lists
  import opened CInt
  import opened Exprs
  import opened ExprText
  import opened GraphOpt

  // ------------------------------------------------------ no merge meets a SUB

  function SplicedHelper(op: GraphOpt.Op, current: Expr): Option<Expr>
    requires HasHelper(op)
  {
    ParseAll(Scope(Params(op), Arguments(op, current), op.h.aliases), op.h.text)
  }

  /** No helper spliced along the way puts an inner subtraction under a merge. */
  predicate MergesClean(ops: seq<GraphOpt.Op>, m: Emitter) {
    if ops == [] then true
    else
      var current := if Materializes(ops[0]) then VALUE else m.current;
      var raw := if HasHelper(ops[0]) then SplicedHelper(ops[0], current) else None;
      var next := EmitOp(true, ops[0], m);
      && (raw.Some? ==> !SomeMergeMeetsSub(raw.value))
      && (next.Some? ==> MergesClean(ops[1..], next.value))
  }

  lemma {:induction false} ShippedOpsSame(ops: seq<GraphOpt.Op>, m: Emitter)
    requires MergesClean(ops, m)
    ensures EmitOps(false, ops, m) == EmitOps(true, ops, m)
    decreases |ops|
  {
    if ops != [] {
      var op := ops[0];
      if HasHelper(op) {
        var raw := SplicedHelper(op, if Materializes(op) then VALUE else m.current);
        if raw.Some? {
          ShippedIsSound(raw.value);
        }
      }
      assert EmitOp(false, op, m) == EmitOp(true, op, m);
      if EmitOp(true, op, m).Some? {
        ShippedOpsSame(ops[1..], EmitOp(true, op, m).value);
      }
    }
  }

  /** Where no merge meets an inner subtraction the shipped optimiser is correct. */
  lemma ShippedLoopIsDirect(ops: seq<GraphOpt.Op>, body: seq<Stmt>, rows: seq<seq<Item>>, env: Env, globals: Env,
                            vars: Env)
    requires forall op | op in ops :: NamesKept(op)
    requires MergesClean(ops, Emitter(Var("src"), false, Prologue(ops)))
    requires LoopBody(false, ops, Var("src")) == Some(body) && InStep(env, globals, vars)
    ensures InStep(RunRows(body, rows, env), globals, DirectRows(ops, globals, rows, vars))
  {
    ShippedOpsSame(ops, Emitter(Var("src"), false, Prologue(ops)));
    CompiledLoopIsDirect(ops, body, rows, env, globals, vars);
  }

  // ------------------------------------------------ chains of constant shifts

  /** The helper returns its parameter plus or minus a constant. */
  predicate Shifts(h: Helper, t: Term) {
    ParseAll(BARE, h.text) == Some(Bin(t.op, Var("raw"), Const(t.value))) && h.aliases == [] && h.params == ["raw"]
  }

  predicate AllShift(hs: seq<Helper>, ts: seq<Term>) {
    |hs| == |ts| && AdditiveTerms(ts) && forall i | 0 <= i < |hs| :: Shifts(hs[i], ts[i])
  }

  function Maps(hs: seq<Helper>): (r: seq<GraphOpt.Op>)
    ensures |r| == |hs| && forall i | 0 <= i < |hs| :: r[i] == Map(hs[i])
  {
    seq(|hs|, i requires 0 <= i < |hs| => Map(hs[i]))
  }

  lemma ShiftsPrefix(hs: seq<Helper>, ts: seq<Term>)
    requires AllShift(hs, ts) && hs != []
    ensures var n := |hs| - 1;
            && AllShift(hs[..n], ts[..n]) && Shifts(hs[n], ts[n])
            && Maps(hs) == Maps(hs[..n]) + [Map(hs[n])]
  {
  }

  /** The shifts applied to a value, one after the other. */
  function ShiftAll(v: word, ts: seq<Term>): word {
    if ts == [] then v
    else var n := |ts| - 1; Apply(ts[n].op, ShiftAll(v, ts[..n]), ts[n].value)
  }

  lemma {:induction false} ChainValue(x: string, ts: seq<Term>, env: Env)
    ensures Eval(Chain(x, ts), env) == ShiftAll(Lookup(env, x), ts)
  {
    if ts != [] {
      ChainValue(x, ts[..|ts| - 1], env);
    }
  }

  lemma SubstShift(t: Term, current: Expr, b: Binding)
    requires "raw" in b && b["raw"] == current
    ensures Subst(Bin(t.op, Var("raw"), Const(t.value)), b) == Bin(t.op, current, Const(t.value))
  {
    assert Subst(Var("raw"), b) == current && Subst(Const(t.value), b) == Const(t.value);
  }

  lemma ShiftSplices(h: Helper, t: Term, current: Expr)
    requires Shifts(h, t)
    ensures SplicedHelper(Map(h), current) == Some(Bin(t.op, current, Const(t.value)))
  {
    var scope := Scope(["raw"], [current], []);
    CmpIsSubst(scope, h.text);
    assert scope.params[0] == "raw" && "raw" in Names(scope);
    assert Resolve(scope, "raw") == current;
    SubstShift(t, current, BindingOf(scope));
  }

  lemma ShiftValue(t: Term, env: Env)
    ensures Eval(Bin(t.op, Var("raw"), Const(t.value)), env) == Apply(t.op, Lookup(env, "raw"), t.value)
  {
    assert Eval(Var("raw"), env) == Lookup(env, "raw") && Eval(Const(t.value), env) == t.value;
  }

  lemma ShiftCalled(h: Helper, t: Term, v: word, globals: Env)
    requires Shifts(h, t)
    ensures Call(Map(h), [v], globals) == Apply(t.op, v, t.value)
  {
    var called := Passed(["raw"], [v], globals);
    PassedAt(["raw"], [v], globals, "raw");
    ShiftValue(t, called);
  }

  lemma MapEmits(fix: bool, h: Helper, m: Emitter, raw: Expr)
    requires SplicedHelper(Map(h), m.current) == Some(raw)
    ensures EmitOps(fix, [Map(h)], m) == Some(Emitter(Simplify(fix, raw), false, m.out))
  {
    assert m.out + [] == m.out;
    assert EmitOps(fix, [Map(h)][1..], Emitter(Simplify(fix, raw), false, m.out)).Some?;
  }

  lemma ShiftEmits(fix: bool, h: Helper, t: Term, pre: Expr)
    requires Shifts(h, t)
    ensures EmitOps(fix, [Map(h)], Emitter(Simplify(fix, pre), false, [])) ==
            Some(Emitter(Simplify(fix, Bin(t.op, pre, Const(t.value))), false, []))
  {
    var raw := Bin(t.op, Simplify(fix, pre), Const(t.value));
    ShiftSplices(h, t, Simplify(fix, pre));
    MapEmits(fix, h, Emitter(Simplify(fix, pre), false, []), raw);
    SimplifyIdempotent(fix, pre);
    assert Simplify(fix, raw) == Node(fix, t.op, Simplify(fix, pre), Const(t.value));
  }

  /** The maps emit nothing: the current expression becomes the simplified chain. */
  lemma {:induction false} ShiftsEmit(fix: bool, hs: seq<Helper>, ts: seq<Term>)
    requires AllShift(hs, ts)
    ensures EmitOps(fix, Maps(hs), Emitter(Var("src"), false, [])) ==
            Some(Emitter(Simplify(fix, Chain("src", ts)), false, []))
    decreases |hs|
  {
    if hs != [] {
      var n := |hs| - 1;
      var h, t, pre := hs[n], ts[n], Chain("src", ts[..n]);
      ShiftsPrefix(hs, ts);
      ShiftsEmit(fix, hs[..n], ts[..n]);
      EmitConcat(fix, Maps(hs[..n]), [Map(h)], Emitter(Var("src"), false, []));
      ShiftEmits(fix, h, t, pre);
    }
  }

  lemma ShiftedUses(k: Term)
    ensures Shifted(Var("src"), k) != VALUE && !Uses(Shifted(Var("src"), k), "value")
  {
  }

  lemma LastEmits(fix: bool, current: Expr)
    requires current != VALUE && !Uses(current, "value")
    ensures EmitOps(fix, [Last], Emitter(current, false, [])) ==
            Some(Emitter(VALUE, true, [Declare("value", current)] + Emission(Last, VALUE)))
  {
    var m := Emitter(current, false, []);
    assert [] + [Declare("value", current)] == [Declare("value", current)];
    assert EmitOps(fix, [Last], m) == EmitOps(fix, [Last][1..], EmitOp(fix, Last, m).value);
  }

  /** The code of a chain of shifts ending in last. */
  lemma ShiftsBody(fix: bool, hs: seq<Helper>, ts: seq<Term>)
    requires AllShift(hs, ts)
    ensures LoopBody(fix, Maps(hs) + [Last], Var("src")) ==
            Some([Declare("value", Simplify(fix, Chain("src", ts)))] + Emission(Last, VALUE))
  {
    var ops, current := Maps(hs) + [Last], Simplify(fix, Chain("src", ts));
    var code := [Declare("value", current)] + Emission(Last, VALUE);
    ShiftsEmit(fix, hs, ts);
    EmitConcat(fix, Maps(hs), [Last], Emitter(Var("src"), false, []));
    SimplifiedChain(fix, "src", ts);
    ShiftedUses(Carried(fix, ts));
    LastEmits(fix, current);
    assert !AnyBreaking(ops);
    assert code + [] == code;
  }

  lemma LastStores(e: Expr, env: Env)
    ensures var (env', exit) := Exec([Declare("value", e)] + Emission(Last, VALUE), env);
            exit.Fell? && Lookup(env', "last_value") == Eval(e, env)
  {
    var tail := Emission(Last, VALUE);
    ExecCons(Declare("value", e), tail, env);
    Exec2(tail[0], tail[1], env["value" := Eval(e, env)]);
  }

  lemma OneDirect(op: GraphOpt.Op, globals: Env, vars: Env, v: word)
    ensures DirectOps([op], globals, vars, v) == DirectOp(op, globals, vars, v)
  {
    var (vars1, v1, exit) := DirectOp(op, globals, vars, v);
    assert DirectOps([op][1..], globals, vars1, v1) == (vars1, v1, Fell);
  }

  lemma ShiftDirect(h: Helper, t: Term, globals: Env, vars: Env, v: word)
    requires Shifts(h, t)
    ensures DirectOps([Map(h)], globals, vars, v) == (vars, Apply(t.op, v, t.value), Fell)
  {
    ShiftCalled(h, t, v, globals);
    OneDirect(Map(h), globals, vars, v);
    assert Values(Map(h), vars, v) == [v];
  }

  lemma {:induction false} ShiftsDirect(hs: seq<Helper>, ts: seq<Term>, globals: Env, vars: Env, v: word)
    requires AllShift(hs, ts)
    ensures DirectOps(Maps(hs), globals, vars, v) == (vars, ShiftAll(v, ts), Fell)
    decreases |hs|
  {
    if hs != [] {
      var n := |hs| - 1;
      ShiftsPrefix(hs, ts);
      ShiftsDirect(hs[..n], ts[..n], globals, vars, v);
      DirectConcat(Maps(hs[..n]), [Map(hs[n])], globals, vars, v);
      ShiftDirect(hs[n], ts[n], globals, vars, ShiftAll(v, ts[..n]));
    }
  }

  lemma ShiftsDirectBody(hs: seq<Helper>, ts: seq<Term>, globals: Env, vars: Env, v: word)
    requires AllShift(hs, ts)
    ensures DirectBody(Maps(hs) + [Last], globals, vars, v) ==
            (vars["last_value" := ShiftAll(v, ts)]["has_last_value" := 1], Fell)
  {
    ShiftsDirect(hs, ts, globals, vars, v);
    DirectConcat(Maps(hs), [Last], globals, vars, v);
    OneDirect(Last, globals, vars, ShiftAll(v, ts));
    assert !AnyBreaking(Maps(hs) + [Last]);
  }

  /** One item, from any two states: the shipped code stores the wrong mass more than
      the operators do. */
  lemma ShippedShiftsError(hs: seq<Helper>, ts: seq<Term>, body: seq<Stmt>, src: word, env: Env, globals: Env,
                           vars: Env)
    requires AllShift(hs, ts) && LoopBody(false, Maps(hs) + [Last], Var("src")) == Some(body)
    ensures var (env', exit) := Exec(body, Feed(Plain(src), env));
            var (vars', exit') := DirectBody(Maps(hs) + [Last], globals, Feed(Plain(src), vars), src);
            && exit.Fell? && exit'.Fell?
            && Lookup(env', "last_value") == Plus(Lookup(vars', "last_value"), WrongMass(ts))
  {
    var env0 := Feed(Plain(src), env);
    ShiftsBody(false, hs, ts);
    ShiftsDirectBody(hs, ts, globals, Feed(Plain(src), vars), src);
    LastStores(Simplify(false, Chain("src", ts)), env0);
    ShippedChainError("src", ts, env0);
    ChainValue("src", ts, env0);
  }

  predicate AllPlain(row: seq<Item>) {
    forall item | item in row :: item.Plain?
  }

  /** Any row of items: the value stored last is off by the wrong mass. */
  lemma {:induction false} ShippedRowError(hs: seq<Helper>, ts: seq<Term>, body: seq<Stmt>, row: seq<Item>, env: Env,
                                           globals: Env, vars: Env)
    requires AllShift(hs, ts) && LoopBody(false, Maps(hs) + [Last], Var("src")) == Some(body)
    requires row != [] && AllPlain(row)
    ensures Lookup(RunRow(body, row, env), "last_value") ==
            Plus(Lookup(DirectRow(Maps(hs) + [Last], globals, row, vars), "last_value"), WrongMass(ts))
    decreases |row|
  {
    var ops, item := Maps(hs) + [Last], row[0];
    ShippedShiftsError(hs, ts, body, item.src, env, globals, vars);
    var env1 := Exec(body, Feed(item, env)).0;
    var vars1 := DirectBody(ops, globals, Feed(item, vars), item.src).0;
    if |row| > 1 {
      ShippedRowError(hs, ts, body, row[1..], env1, globals, vars1);
    } else {
      assert RunRow(body, row[1..], env1) == env1 && DirectRow(ops, globals, row[1..], vars1) == vars1;
    }
  }

  /** Maps by constants ending in last: over any row of items the shipped code stores
      what the operators store exactly when the wrong mass of the constants is 0. */
  lemma ShippedShiftsExact(hs: seq<Helper>, ts: seq<Term>, row: seq<Item>, env: Env, globals: Env, vars: Env)
    requires AllShift(hs, ts) && row != [] && AllPlain(row)
    ensures LoopBody(false, Maps(hs) + [Last], Var("src")).Some?
    ensures var body := LoopBody(false, Maps(hs) + [Last], Var("src")).value;
            Lookup(RunRow(body, row, env), "last_value") ==
            Lookup(DirectRow(Maps(hs) + [Last], globals, row, vars), "last_value")
            <==> WrongMass(ts) == 0
  {
    ShiftsBody(false, hs, ts);
    var body := LoopBody(false, Maps(hs) + [Last], Var("src")).value;
    ShippedRowError(hs, ts, body, row, env, globals, vars);
    PlusCancels(Lookup(DirectRow(Maps(hs) + [Last], globals, row, vars), "last_value"), WrongMass(ts));
  }

  lemma DownUpMass(a: word, b: word)
    requires a != 0 && b != 0
    ensures WrongMass([Term(Sub, a), Term(Add, b)]) == Twice(a)
  {
    var ts := [Term(Sub, a), Term(Add, b)];
    assert ts[..1] == [Term(Sub, a)] && ts[..1][..0] == [];
    assert Carried(false, ts[..1]) == CarryStep(false, Carried(false, []), Term(Sub, a)) == Term(Sub, a);
    assert WrongMass(ts[..1]) == 0;
  }

  /** So on map(x - a), map(x + b), last the shipped optimiser stores, for every
      item, 2a more than the operators do. */
  lemma ShippedLoopError(down: Helper, up: Helper, a: word, b: word, src: word, env: Env, globals: Env)
    requires Shifts(down, Term(Sub, a)) && Shifts(up, Term(Add, b)) && a != 0 && b != 0
    ensures var ops := [Map(down), Map(up), Last];
            var body := LoopBody(false, ops, Var("src"));
            && body.Some?
            && Lookup(Exec(body.value, Feed(Plain(src), env)).0, "last_value") ==
               Plus(Lookup(DirectBody(ops, globals, Feed(Plain(src), env), src).0, "last_value"), Twice(a))
  {
    var hs, ts := [down, up], [Term(Sub, a), Term(Add, b)];
    assert Maps(hs) + [Last] == [Map(down), Map(up), Last];
    ShiftsBody(false, hs, ts);
    ShippedShiftsError(hs, ts, LoopBody(false, Maps(hs) + [Last], Var("src")).value, src, env, globals, env);
    DownUpMass(a, b);
  }
}
