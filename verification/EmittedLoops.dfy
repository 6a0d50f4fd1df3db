/** The graph optimiser's emitted code against the planner's loops and the list
    transforms: the operators between the source and the terminal, with their helpers
    as functions. */
module EmittedLoops {
  import opened Lists
  import opened CInt
  import opened Exprs
  import G = GraphOpt
  import Loops = GeneratedLoops
  import LoopOps

  /** The operators between source and terminal that both emitters handle. */
  predicate Middle(op: G.Op) {
    op.Map? || op.Filter? || op.Scan? || op.Take? || op.Skip? || op.TakeWhile? || op.SkipWhile?
    || op.DistinctUntilChanged?
  }

  /** A helper as a function on integers; only words occur. */
  function Unary(op: G.Op, globals: Env): int -> int
    requires G.HasHelper(op)
  {
    x => if MIN <= x <= MAX then G.Call(op, [x], globals) else 0
  }

  function Binary(op: G.Op, globals: Env): (int, int) -> int
    requires G.HasHelper(op)
  {
    (a, x) => if MIN <= a <= MAX && MIN <= x <= MAX then G.Call(op, [a, x], globals) else 0
  }

  /** The operator with its helper as a function. */
  function Meaning(op: G.Op, globals: Env): LoopOps.Op
    requires Middle(op)
  {
    match op
    case Map(_) => LoopOps.Map(Unary(op, globals))
    case Filter(_) => var f := Unary(op, globals); LoopOps.Filter(x => f(x) != 0)
    case Scan(_) => LoopOps.Scan(Binary(op, globals))
    case Take(limit) => LoopOps.Take(limit)
    case Skip(limit) => LoopOps.Skip(limit)
    case TakeWhile(_) => var f := Unary(op, globals); LoopOps.TakeWhile(x => f(x) != 0)
    case SkipWhile(_) => var f := Unary(op, globals); LoopOps.SkipWhile(x => f(x) != 0)
    case DistinctUntilChanged(_) => LoopOps.DistinctUntilChanged(Unary(op, globals))
  }

  function Meanings(ops: seq<G.Op>, globals: Env): (r: seq<LoopOps.Op>)
    requires forall op | op in ops :: Middle(op)
    ensures |r| == |ops| && forall i | 0 <= i < |ops| :: r[i] == Meaning(ops[i], globals)
  {
    seq(|ops|, i requires 0 <= i < |ops| => Meaning(ops[i], globals))
  }

  /** The variables hold the slots. */
  predicate Holds(vars: Env, s: LoopOps.Slots) {
    && Lookup(vars, "scan_accum") == s.scan
    && Lookup(vars, "take_count") == s.takeCount
    && Lookup(vars, "skip_count") == s.skipCount
    && (Lookup(vars, "skip_while_passed") != 0) == s.passed
    && Lookup(vars, "last_key") == s.lastKey
    && (Lookup(vars, "has_last_key") != 0) == s.hasKey
  }

  /** The variables of the terminal are the same. */
  predicate SameSink(a: Env, b: Env) {
    && Lookup(a, "reduce_accum") == Lookup(b, "reduce_accum")
    && Lookup(a, "last_value") == Lookup(b, "last_value")
    && Lookup(a, "has_last_value") == Lookup(b, "has_last_value")
  }

  /** The direct code leaves the body the way the list step does. */
  predicate SameWay(exit: G.Exit, v: word, flow: LoopOps.Flow) {
    match flow
    case Next(w) => exit.Fell? && v == w
    case Continue => exit.Continued?
    case Break => exit.Broke?
  }

  predicate UsedUp(op: G.Op, s: LoopOps.Slots) {
    op.Take? && s.takeCount >= op.limit
  }

  /** The step of an operator whose helper returned `r`. */
  function StepWith(op: G.Op, s: LoopOps.Slots, v: int, r: int): (LoopOps.Slots, LoopOps.Flow)
    requires Middle(op)
  {
    match op
    case Map(_) => (s, LoopOps.Next(r))
    case Filter(_) => (s, if r != 0 then LoopOps.Next(v) else LoopOps.Continue)
    case Scan(_) => (s.(scan := r), LoopOps.Next(r))
    case Take(limit) =>
      if s.takeCount >= limit then (s, LoopOps.Break) else (s.(takeCount := s.takeCount + 1), LoopOps.Next(v))
    case Skip(limit) =>
      if s.skipCount < limit then (s.(skipCount := s.skipCount + 1), LoopOps.Continue) else (s, LoopOps.Next(v))
    case TakeWhile(_) => (s, if r != 0 then LoopOps.Next(v) else LoopOps.Break)
    case SkipWhile(_) => if !s.passed && r != 0 then (s, LoopOps.Continue) else (s.(passed := true), LoopOps.Next(v))
    case DistinctUntilChanged(_) =>
      if s.hasKey && r == s.lastKey then (s, LoopOps.Continue) else (s.(lastKey := r, hasKey := true), LoopOps.Next(v))
  }

  function Returned(op: G.Op, globals: Env, vars: Env, v: word): word {
    if G.HasHelper(op) then G.Call(op, G.Values(op, vars, v), globals) else 0
  }

  lemma UnaryValue(op: G.Op, globals: Env, vars: Env, v: word)
    requires Middle(op) && G.HasHelper(op) && !op.Scan?
    ensures Unary(op, globals)(v) == Returned(op, globals, vars, v)
  {
  }

  lemma BinaryValue(op: G.Op, globals: Env, vars: Env, v: word)
    requires op.Scan?
    ensures Binary(op, globals)(Lookup(vars, "scan_accum"), v) == Returned(op, globals, vars, v)
  {
  }

  lemma StepIsStepWith(op: G.Op, globals: Env, s: LoopOps.Slots, v: word, r: word)
    requires Middle(op)
    requires G.HasHelper(op) ==> r == if op.Scan? then Binary(op, globals)(s.scan, v) else Unary(op, globals)(v)
    ensures LoopOps.Step(Meaning(op, globals), s, v) == StepWith(op, s, v, r)
  {
  }

  lemma DirectIsStepWith(op: G.Op, vars: Env, s: LoopOps.Slots, v: word, r: word)
    requires Middle(op) && Holds(vars, s)
    ensures var (vars', v', exit) := G.DirectWith(op, vars, v, r);
            var (s', flow) := StepWith(op, s, v, r);
            Holds(vars', s') && SameWay(exit, v', flow)
  {
  }

  lemma DirectKeeps(op: G.Op, vars: Env, s: LoopOps.Slots, v: word, r: word)
    requires Middle(op) && Holds(vars, s)
    ensures var (vars', _, exit) := G.DirectWith(op, vars, v, r);
            && SameSink(vars, vars')
            && (exit.Fell? ==>
                  (Lookup(vars', "should_break") != 0) ==
                  (Lookup(vars, "should_break") != 0 || UsedUp(op, StepWith(op, s, v, r).0)))
  {
  }

  lemma OpIsStep(op: G.Op, globals: Env, vars: Env, s: LoopOps.Slots, v: word)
    requires Middle(op) && Holds(vars, s)
    ensures var (vars', v', exit) := G.DirectOp(op, globals, vars, v);
            var (s', flow) := LoopOps.Step(Meaning(op, globals), s, v);
            && Holds(vars', s') && SameSink(vars, vars') && SameWay(exit, v', flow)
            && (exit.Fell? ==>
                  (Lookup(vars', "should_break") != 0) == (Lookup(vars, "should_break") != 0 || UsedUp(op, s')))
  {
    var r := Returned(op, globals, vars, v);
    if op.Scan? {
      BinaryValue(op, globals, vars, v);
    } else if G.HasHelper(op) {
      UnaryValue(op, globals, vars, v);
    }
    StepIsStepWith(op, globals, s, v, r);
    DirectIsStepWith(op, vars, s, v, r);
    DirectKeeps(op, vars, s, v, r);
  }

  /** Some take of the chain is used up. */
  predicate SomeUsedUp(ops: seq<G.Op>, s: LoopOps.Slots) {
    exists i | 0 <= i < |ops| :: UsedUp(ops[i], s)
  }

  lemma UsedUpTail(ops: seq<G.Op>, s: LoopOps.Slots)
    requires ops != []
    ensures SomeUsedUp(ops, s) <==> UsedUp(ops[0], s) || SomeUsedUp(ops[1..], s)
  {
  }

  lemma MeaningsTail(ops: seq<G.Op>, globals: Env)
    requires ops != [] && forall op | op in ops :: Middle(op)
    ensures |Meanings(ops, globals)| > 0 && Meanings(ops, globals)[0] == Meaning(ops[0], globals)
    ensures Meanings(ops, globals)[1..] == Meanings(ops[1..], globals)
  {
  }

  /** A take that was used up stays so through the rest of the chain. */
  lemma UsedUpStays(ops: seq<G.Op>, globals: Env, s: LoopOps.Slots, v: int)
    requires ops != [] && (forall op | op in ops :: Middle(op)) && LoopOps.OncePerFamily(Meanings(ops, globals))
    ensures UsedUp(ops[0], LoopOps.Push(Meanings(ops[1..], globals), s, v).0) == UsedUp(ops[0], s)
  {
    if ops[0].Take? {
      forall i | 0 <= i < |ops| - 1
        ensures LoopOps.FamilyOf(Meanings(ops[1..], globals)[i]) != LoopOps.TakeState
      {
        assert Meanings(ops, globals)[i + 1] == Meanings(ops[1..], globals)[i];
        assert LoopOps.FamilyOf(Meanings(ops, globals)[0]) != LoopOps.FamilyOf(Meanings(ops, globals)[i + 1]);
      }
      LoopOps.PushFrame(Meanings(ops[1..], globals), s, v, LoopOps.TakeState);
    }
  }

  /** One item through all the operators. */
  lemma {:induction false} OpsArePush(ops: seq<G.Op>, globals: Env, vars: Env, s: LoopOps.Slots, v: word)
    requires (forall op | op in ops :: Middle(op)) && LoopOps.OncePerFamily(Meanings(ops, globals)) && Holds(vars, s)
    ensures var (vars', v', exit) := G.DirectOps(ops, globals, vars, v);
            var (s', flow) := LoopOps.Push(Meanings(ops, globals), s, v);
            && Holds(vars', s') && SameSink(vars, vars') && SameWay(exit, v', flow)
            && (exit.Fell? ==>
                  (Lookup(vars', "should_break") != 0) == (Lookup(vars, "should_break") != 0 || SomeUsedUp(ops, s')))
    decreases |ops|
  {
    if ops != [] {
      MeaningsTail(ops, globals);
      LoopOps.OnceTail(Meanings(ops, globals));
      OpIsStep(ops[0], globals, vars, s, v);
      var (vars1, v1, exit) := G.DirectOp(ops[0], globals, vars, v);
      var s1 := LoopOps.Step(Meaning(ops[0], globals), s, v).0;
      if exit.Fell? {
        OpsArePush(ops[1..], globals, vars1, s1, v1);
        UsedUpStays(ops, globals, s1, v1);
        UsedUpTail(ops, LoopOps.Push(Meanings(ops[1..], globals), s1, v1).0);
      }
    }
  }

  /** At most one operator, a terminal one. */
  predicate Terminal(t: seq<G.Op>) {
    |t| <= 1 && (|t| == 1 ==> t[0].Reduce? || t[0].Last?)
  }

  /** What the terminal makes of a value that reaches it. */
  predicate Sunk(t: seq<G.Op>, globals: Env, before: Env, after: Env, w: int)
    requires Terminal(t)
  {
    if t == [] then SameSink(before, after)
    else if t[0].Reduce? then Lookup(after, "reduce_accum") == Binary(t[0], globals)(Lookup(before, "reduce_accum"), w)
    else Lookup(after, "last_value") == w && Lookup(after, "has_last_value") != 0
  }

  lemma OneSinks(t: seq<G.Op>, globals: Env, vars: Env, s: LoopOps.Slots, v: word)
    requires Terminal(t) && t != [] && Holds(vars, s)
    ensures var (vars', _, exit) := G.DirectOp(t[0], globals, vars, v);
            && Holds(vars', s) && exit.Fell? && Sunk(t, globals, vars, vars', v)
            && Lookup(vars', "should_break") == Lookup(vars, "should_break")
  {
  }

  lemma TerminalSinks(t: seq<G.Op>, globals: Env, vars: Env, s: LoopOps.Slots, v: word)
    requires Terminal(t) && Holds(vars, s)
    ensures var (vars', _, exit) := G.DirectOps(t, globals, vars, v);
            && Holds(vars', s) && exit.Fell? && Sunk(t, globals, vars, vars', v)
            && Lookup(vars', "should_break") == Lookup(vars, "should_break")
  {
    if t != [] {
      var (vars', v', exit) := G.DirectOp(t[0], globals, vars, v);
      assert G.DirectOps(t, globals, vars, v) == (vars', v', exit) by {
        assert t[1..] == [];
      }
      OneSinks(t, globals, vars, s, v);
    }
  }

  /** A leading map of the source pair or triple, if any. */
  predicate Leads(lead: seq<G.Op>) {
    |lead| <= 1 && (|lead| == 1 ==> lead[0].PairMap? || lead[0].TripleMap?)
  }

  /** What the leading map makes of the source variables. */
  function LeadValue(lead: seq<G.Op>, globals: Env, vars: Env, v: word): word
    requires Leads(lead)
  {
    if lead == [] then v else G.Call(lead[0], G.Values(lead[0], vars, v), globals)
  }

  lemma LeadDirect(lead: seq<G.Op>, globals: Env, vars: Env, v: word)
    requires Leads(lead)
    ensures G.DirectOps(lead, globals, vars, v) == (vars, LeadValue(lead, globals, vars, v), G.Fell)
  {
    if lead != [] {
      assert lead[1..] == [];
    }
  }

  lemma BreakingWithin(lead: seq<G.Op>, ops: seq<G.Op>, t: seq<G.Op>)
    requires Leads(lead) && Terminal(t)
    ensures G.AnyBreaking(lead + (ops + t)) == G.AnyBreaking(ops)
  {
    if G.AnyBreaking(ops) {
      var i :| 0 <= i < |ops| && G.Breaking(ops[i]);
      assert G.Breaking((lead + (ops + t))[|lead| + i]);
    }
  }

  lemma UsedUpIsExhausted(ops: seq<G.Op>, globals: Env, s: LoopOps.Slots)
    requires forall op | op in ops :: Middle(op)
    ensures SomeUsedUp(ops, s) == LoopOps.Exhausted(Meanings(ops, globals), s)
    ensures SomeUsedUp(ops, s) ==> G.AnyBreaking(ops)
  {
  }

  predicate Pipeline(lead: seq<G.Op>, ops: seq<G.Op>, t: seq<G.Op>, globals: Env) {
    && Leads(lead) && Terminal(t)
    && (forall op | op in ops :: Middle(op)) && LoopOps.OncePerFamily(Meanings(ops, globals))
  }

  lemma SunkFrom(t: seq<G.Op>, globals: Env, a: Env, b: Env, c: Env, w: int)
    requires Terminal(t) && SameSink(a, b) && Sunk(t, globals, b, c, w)
    ensures Sunk(t, globals, a, c, w)
  {
  }

  /** What a pass over one item leaves: slots, the sink, and how it ends; `broke`
      says whether a take was used up on the way. */
  predicate Passed(t: seq<G.Op>, globals: Env, vars: Env, vars': Env, exit: G.Exit, s': LoopOps.Slots,
                   flow: LoopOps.Flow)
    requires Terminal(t)
  {
    && Holds(vars', s')
    && (exit.Broke? <==> flow.Break?) && (exit.Fell? <==> flow.Next?)
    && (if flow.Next? then Sunk(t, globals, vars, vars', flow.value) else SameSink(vars, vars'))
  }

  /** The operators fell through to the terminal. */
  lemma TerminalPasses(t: seq<G.Op>, globals: Env, vars: Env, vars1: Env, s: LoopOps.Slots, v: word)
    requires Terminal(t) && Holds(vars1, s) && SameSink(vars, vars1)
    ensures var (vars', _, exit) := G.DirectOps(t, globals, vars1, v);
            && Passed(t, globals, vars, vars', exit, s, LoopOps.Next(v))
            && Lookup(vars', "should_break") == Lookup(vars1, "should_break")
  {
    TerminalSinks(t, globals, vars1, s, v);
    SunkFrom(t, globals, vars, vars1, G.DirectOps(t, globals, vars1, v).0, v);
  }

  /** The operators and the terminal behind the leading map. */
  lemma TailIsPush(ops: seq<G.Op>, t: seq<G.Op>, globals: Env, vars: Env, s: LoopOps.Slots, v: word)
    requires Pipeline([], ops, t, globals) && Holds(vars, s)
    ensures var (vars', _, exit) := G.DirectOps(ops + t, globals, vars, v);
            var (s', flow) := LoopOps.Push(Meanings(ops, globals), s, v);
            && Passed(t, globals, vars, vars', exit, s', flow)
            && (exit.Fell? ==>
                  (Lookup(vars', "should_break") != 0) == (Lookup(vars, "should_break") != 0 || SomeUsedUp(ops, s')))
  {
    G.DirectConcat(ops, t, globals, vars, v);
    OpsArePush(ops, globals, vars, s, v);
    var (vars1, v1, exit) := G.DirectOps(ops, globals, vars, v);
    var (s', flow) := LoopOps.Push(Meanings(ops, globals), s, v);
    if exit.Fell? {
      assert flow == LoopOps.Next(v1);
      TerminalPasses(t, globals, vars, vars1, s', v1);
    } else {
      assert G.DirectOps(ops + t, globals, vars, v) == (vars1, v1, exit);
      assert Passed(t, globals, vars, vars1, exit, s', flow);
    }
  }

  predicate SameAt(a: Env, b: Env, x: string) {
    Lookup(a, x) == Lookup(b, x)
  }

  /** A leading map reads the source variables only. */
  lemma LeadReads(lead: seq<G.Op>, globals: Env, a: Env, b: Env, v: word)
    requires Leads(lead)
    requires lead != [] && lead[0].PairMap? ==> SameAt(a, b, "left") && SameAt(a, b, "right")
    requires lead != [] && lead[0].TripleMap? ==>
               SameAt(a, b, "zipped_left") && SameAt(a, b, "zipped_right") && SameAt(a, b, "right")
    ensures LeadValue(lead, globals, a, v) == LeadValue(lead, globals, b, v)
  {
    if lead != [] {
      assert G.Values(lead[0], a, v) == G.Values(lead[0], b, v);
    }
  }

  lemma OtherName(vars: Env, x: string, b: word)
    requires x != "should_break"
    ensures SameAt(vars["should_break" := b], vars, x)
  {
  }

  lemma LeadUnaware(lead: seq<G.Op>, globals: Env, vars: Env, v: word)
    requires Leads(lead)
    ensures LeadValue(lead, globals, vars["should_break" := 0], v) == LeadValue(lead, globals, vars, v)
  {
    OtherName(vars, "left", 0);
    OtherName(vars, "right", 0);
    OtherName(vars, "zipped_left", 0);
    OtherName(vars, "zipped_right", 0);
    LeadReads(lead, globals, vars["should_break" := 0], vars, v);
  }

  /** The direct body in terms of the operators behind the leading map. */
  lemma BodyIsTail(lead: seq<G.Op>, ops: seq<G.Op>, t: seq<G.Op>, globals: Env, vars: Env, v: word)
    requires Leads(lead) && Terminal(t)
    ensures var start := if G.AnyBreaking(ops) then vars["should_break" := 0] else vars;
            var (vars', _, exit) := G.DirectOps(ops + t, globals, start, LeadValue(lead, globals, vars, v));
            G.DirectBody(lead + (ops + t), globals, vars, v) ==
            (vars', if exit.Fell? && G.AnyBreaking(ops) && Lookup(vars', "should_break") != 0 then G.Broke else exit)
  {
    var start := if G.AnyBreaking(ops) then vars["should_break" := 0] else vars;
    BreakingWithin(lead, ops, t);
    G.DirectConcat(lead, ops + t, globals, start, v);
    LeadDirect(lead, globals, start, v);
    LeadUnaware(lead, globals, vars, v);
  }

  /** The start of a body changes neither the slots nor the sink. */
  lemma StartHolds(vars: Env, s: LoopOps.Slots)
    requires Holds(vars, s)
    ensures Holds(vars["should_break" := 0], s) && SameSink(vars, vars["should_break" := 0])
  {
  }

  lemma PassedFrom(t: seq<G.Op>, globals: Env, a: Env, b: Env, c: Env, exit: G.Exit, s: LoopOps.Slots,
                   flow: LoopOps.Flow)
    requires Terminal(t) && SameSink(a, b) && Passed(t, globals, b, c, exit, s, flow)
    ensures Passed(t, globals, a, c, exit, s, flow)
  {
    if flow.Next? {
      SunkFrom(t, globals, a, b, c, flow.value);
    }
  }

  /** The whole direct body on one item is one pass of the planner's loop. */
  lemma BodyIsPush(lead: seq<G.Op>, ops: seq<G.Op>, t: seq<G.Op>, globals: Env, vars: Env, s: LoopOps.Slots, v: word)
    requires Pipeline(lead, ops, t, globals) && Holds(vars, s)
    ensures var (vars', exit) := G.DirectBody(lead + (ops + t), globals, vars, v);
            var (s', flow) := LoopOps.Push(Meanings(ops, globals), s, LeadValue(lead, globals, vars, v));
            && Holds(vars', s')
            && (exit.Broke? <==> flow.Break? || (flow.Next? && LoopOps.Exhausted(Meanings(ops, globals), s')))
            && (if flow.Next? then Sunk(t, globals, vars, vars', flow.value) else SameSink(vars, vars'))
  {
    var start := if G.AnyBreaking(ops) then vars["should_break" := 0] else vars;
    var v0 := LeadValue(lead, globals, vars, v);
    var (s', flow) := LoopOps.Push(Meanings(ops, globals), s, v0);
    StartHolds(vars, s);
    BodyIsTail(lead, ops, t, globals, vars, v);
    TailIsPush(ops, t, globals, start, s, v0);
    var (vars', _, exit) := G.DirectOps(ops + t, globals, start, v0);
    PassedFrom(t, globals, vars, start, vars', exit, s', flow);
    UsedUpIsExhausted(ops, globals, s');
  }

  /** The source a leading map reads. */
  predicate Fits(lead: seq<G.Op>, item: G.Item)
    requires Leads(lead)
  {
    if lead == [] then item.Plain? else if lead[0].PairMap? then item.Zipped? else item.Merged?
  }

  /** The value an item gives: itself, or what the leading map makes of it. */
  function Given(lead: seq<G.Op>, globals: Env, item: G.Item): word
    requires Leads(lead) && Fits(lead, item)
  {
    LeadValue(lead, globals, G.Feed(item, map[]), item.src)
  }

  lemma FedAlike(item: G.Item, vars: Env)
    ensures var a, b := G.Feed(item, vars), G.Feed(item, map[]);
            && (item.Zipped? ==> SameAt(a, b, "left") && SameAt(a, b, "right"))
            && (item.Merged? ==> SameAt(a, b, "zipped_left") && SameAt(a, b, "zipped_right") && SameAt(a, b, "right"))
  {
  }

  lemma FedValue(lead: seq<G.Op>, globals: Env, item: G.Item, vars: Env)
    requires Leads(lead) && Fits(lead, item)
    ensures LeadValue(lead, globals, G.Feed(item, vars), item.src) == Given(lead, globals, item)
  {
    FedAlike(item, vars);
    LeadReads(lead, globals, G.Feed(item, vars), G.Feed(item, map[]), item.src);
  }

  predicate RowFits(lead: seq<G.Op>, row: seq<G.Item>)
    requires Leads(lead)
  {
    forall item | item in row :: Fits(lead, item)
  }

  function GivenRow(lead: seq<G.Op>, globals: Env, row: seq<G.Item>): (r: seq<int>)
    requires Leads(lead) && RowFits(lead, row)
    ensures |r| == |row|
  {
    if row == [] then [] else [Given(lead, globals, row[0])] + GivenRow(lead, globals, row[1..])
  }

  predicate RowsFit(lead: seq<G.Op>, rows: seq<seq<G.Item>>)
    requires Leads(lead)
  {
    forall row | row in rows :: RowFits(lead, row)
  }

  function GivenRows(lead: seq<G.Op>, globals: Env, rows: seq<seq<G.Item>>): (r: seq<seq<int>>)
    requires Leads(lead) && RowsFit(lead, rows)
    ensures |r| == |rows|
  {
    if rows == [] then [] else [GivenRow(lead, globals, rows[0])] + GivenRows(lead, globals, rows[1..])
  }

  /** The terminal's variables after `out` has reached it. */
  predicate Collected(t: seq<G.Op>, globals: Env, before: Env, after: Env, out: seq<int>)
    requires Terminal(t)
  {
    if t == [] || out == [] then SameSink(before, after)
    else if t[0].Reduce? then
      Lookup(after, "reduce_accum") == Fold(Binary(t[0], globals), Lookup(before, "reduce_accum"), out)
    else Lookup(after, "last_value") == out[|out| - 1] && Lookup(after, "has_last_value") != 0
  }

  lemma CollectedConcat(t: seq<G.Op>, globals: Env, a: Env, b: Env, c: Env, xs: seq<int>, ys: seq<int>)
    requires Terminal(t) && Collected(t, globals, a, b, xs) && Collected(t, globals, b, c, ys)
    ensures Collected(t, globals, a, c, xs + ys)
  {
    if xs == [] {
      assert xs + ys == ys;
    } else if ys == [] {
      assert xs + ys == xs;
    } else if t != [] && t[0].Reduce? {
      FoldConcat(Binary(t[0], globals), Lookup(a, "reduce_accum"), xs, ys);
    }
  }

  lemma SunkIsCollected(t: seq<G.Op>, globals: Env, a: Env, b: Env, v: int)
    requires Terminal(t) && Sunk(t, globals, a, b, v)
    ensures Collected(t, globals, a, b, [v])
  {
    if t != [] && t[0].Reduce? {
      var f, r := Binary(t[0], globals), Lookup(a, "reduce_accum");
      assert Fold(f, r, [v]) == Fold(f, f(r, v), [v][1..]) == f(r, v);
    }
  }

  /** Feeding an item changes neither the slots nor the sink. */
  lemma FeedHolds(item: G.Item, vars: Env, s: LoopOps.Slots)
    requires Holds(vars, s)
    ensures Holds(G.Feed(item, vars), LoopOps.FreshFlags(s)) && SameSink(vars, G.Feed(item, vars))
  {
  }

  /** One item: what it hands to the terminal. */
  lemma ItemCollects(lead: seq<G.Op>, ops: seq<G.Op>, t: seq<G.Op>, globals: Env, item: G.Item, vars: Env,
                     s: LoopOps.Slots)
    requires Pipeline(lead, ops, t, globals) && Fits(lead, item) && Holds(vars, s)
    ensures var (vars', exit) := G.DirectBody(lead + (ops + t), globals, G.Feed(item, vars), item.src);
            var (s', flow) := LoopOps.Push(Meanings(ops, globals), LoopOps.FreshFlags(s), Given(lead, globals, item));
            && Holds(vars', s')
            && (exit.Broke? <==> flow.Break? || (flow.Next? && LoopOps.Exhausted(Meanings(ops, globals), s')))
            && Collected(t, globals, vars, vars', if flow.Next? then [flow.value] else [])
  {
    var fed, s0, v0 := G.Feed(item, vars), LoopOps.FreshFlags(s), Given(lead, globals, item);
    FeedHolds(item, vars, s);
    FedValue(lead, globals, item, vars);
    BodyIsPush(lead, ops, t, globals, fed, s0, item.src);
    var vars' := G.DirectBody(lead + (ops + t), globals, fed, item.src).0;
    var flow := LoopOps.Push(Meanings(ops, globals), s0, v0).1;
    if flow.Next? {
      SunkFrom(t, globals, vars, fed, vars', flow.value);
      SunkIsCollected(t, globals, vars, vars', flow.value);
    }
  }

  lemma {:induction false} RowIsLoop(lead: seq<G.Op>, ops: seq<G.Op>, t: seq<G.Op>, globals: Env, row: seq<G.Item>,
                                     vars: Env, s: LoopOps.Slots)
    requires Pipeline(lead, ops, t, globals) && RowFits(lead, row) && Holds(vars, s)
    ensures var vars' := G.DirectRow(lead + (ops + t), globals, row, vars);
            var (s', out) := LoopOps.Loop(LoopOps.Planner, Meanings(ops, globals), s, GivenRow(lead, globals, row));
            Holds(vars', s') && Collected(t, globals, vars, vars', out)
    decreases |row|
  {
    if row != [] {
      var ms, all := Meanings(ops, globals), lead + (ops + t);
      assert GivenRow(lead, globals, row)[1..] == GivenRow(lead, globals, row[1..]);
      ItemCollects(lead, ops, t, globals, row[0], vars, s);
      var (vars1, exit) := G.DirectBody(all, globals, G.Feed(row[0], vars), row[0].src);
      var (s1, flow) := LoopOps.Push(ms, LoopOps.FreshFlags(s), Given(lead, globals, row[0]));
      if !exit.Broke? {
        RowIsLoop(lead, ops, t, globals, row[1..], vars1, s1);
        var out := LoopOps.Loop(LoopOps.Planner, ms, s1, GivenRow(lead, globals, row[1..])).1;
        CollectedConcat(t, globals, vars, vars1, G.DirectRow(all, globals, row[1..], vars1),
                        if flow.Next? then [flow.value] else [], out);
        assert [] + out == out;
      }
    }
  }

  lemma {:induction false} RowsAreLoops(lead: seq<G.Op>, ops: seq<G.Op>, t: seq<G.Op>, globals: Env,
                                        rows: seq<seq<G.Item>>, vars: Env, s: LoopOps.Slots)
    requires Pipeline(lead, ops, t, globals) && RowsFit(lead, rows) && Holds(vars, s)
    ensures Collected(t, globals, vars, G.DirectRows(lead + (ops + t), globals, rows, vars),
                      Loops.LoopRows(Meanings(ops, globals), s, GivenRows(lead, globals, rows)).1)
    decreases |rows|
  {
    if rows != [] {
      var ms, all := Meanings(ops, globals), lead + (ops + t);
      assert GivenRows(lead, globals, rows)[1..] == GivenRows(lead, globals, rows[1..]);
      RowIsLoop(lead, ops, t, globals, rows[0], vars, s);
      var vars1 := G.DirectRow(all, globals, rows[0], vars);
      var (s1, out) := LoopOps.Loop(LoopOps.Planner, ms, s, GivenRow(lead, globals, rows[0]));
      RowsAreLoops(lead, ops, t, globals, rows[1..], vars1, s1);
      CollectedConcat(t, globals, vars, vars1, G.DirectRows(all, globals, rows[1..], vars1), out,
                      Loops.LoopRows(ms, s1, GivenRows(lead, globals, rows[1..])).1);
    }
  }

  lemma MeaningsAccepted(ops: seq<G.Op>, globals: Env)
    requires (forall op | op in ops :: Middle(op)) && LoopOps.OncePerFamily(Meanings(ops, globals))
    ensures LoopOps.Accepts(LoopOps.Planner, Meanings(ops, globals))
    ensures (forall op | op in ops :: !op.TakeWhile?) ==> Loops.NoTakeWhile(Meanings(ops, globals))
  {
    forall i | 0 <= i < |ops|
      ensures !LoopOps.DslOnly(Meanings(ops, globals)[i])
    {
      assert Middle(ops[i]);
    }
  }

  lemma AgreeCollected(t: seq<G.Op>, globals: Env, before: Env, emitted: Env, direct: Env, out: seq<int>)
    requires Terminal(t) && G.Agree(emitted, direct) && Collected(t, globals, before, direct, out)
    ensures Collected(t, globals, before, emitted, out)
  {
  }

  /** The variables before the loop: nothing counted, passed or kept, and the seed of
      the scan. */
  predicate FreshVariables(env: Env, seed: word) {
    && Lookup(env, "scan_accum") == seed
    && Lookup(env, "take_count") == 0 && Lookup(env, "skip_count") == 0
    && Lookup(env, "skip_while_passed") == 0 && Lookup(env, "has_last_key") == 0 && Lookup(env, "last_key") == 0
  }

  lemma FreshHolds(env: Env, seed: word)
    requires FreshVariables(env, seed)
    ensures Holds(env, LoopOps.Start(seed))
  {
  }

  /** The emitted code, on plain, zipped and nested sources, leaves in the terminal's
      variables what the planner's loops hand to the terminal. */
  lemma EmittedCodeIsPlannerLoop(lead: seq<G.Op>, ops: seq<G.Op>, t: seq<G.Op>, body: seq<G.Stmt>,
                                 rows: seq<seq<G.Item>>, env: Env, globals: Env, seed: word)
    requires Pipeline(lead, ops, t, globals) && RowsFit(lead, rows)
    requires forall op | op in lead + (ops + t) :: G.NamesKept(op)
    requires G.LoopBody(true, lead + (ops + t), Var("src")) == Some(body)
    requires FreshVariables(env, seed) && G.SeesGlobals(env, globals)
    ensures Collected(t, globals, env, G.RunRows(body, rows, env),
                      Loops.LoopRows(Meanings(ops, globals), LoopOps.Start(seed), GivenRows(lead, globals, rows)).1)
  {
    var all := lead + (ops + t);
    FreshHolds(env, seed);
    assert G.InStep(env, globals, env);
    G.CompiledLoopIsDirect(all, body, rows, env, globals, env);
    RowsAreLoops(lead, ops, t, globals, rows, env, LoopOps.Start(seed));
    AgreeCollected(t, globals, env, G.RunRows(body, rows, env), G.DirectRows(all, globals, rows, env),
                   Loops.LoopRows(Meanings(ops, globals), LoopOps.Start(seed), GivenRows(lead, globals, rows)).1);
  }

  /** So it computes the list transforms of the operators: the fold, or the last item,
      of the chain applied to all the values of the source, over any one row for every
      chain, and over any number of rows for chains without takeWhile. */
  lemma EmittedCodeIsListTransforms(lead: seq<G.Op>, ops: seq<G.Op>, t: seq<G.Op>, body: seq<G.Stmt>,
                                    rows: seq<seq<G.Item>>, env: Env, globals: Env, seed: word)
    requires Pipeline(lead, ops, t, globals) && RowsFit(lead, rows)
    requires forall op | op in lead + (ops + t) :: G.NamesKept(op)
    requires G.LoopBody(true, lead + (ops + t), Var("src")) == Some(body)
    requires FreshVariables(env, seed) && G.SeesGlobals(env, globals)
    requires |rows| <= 1 || forall op | op in ops :: !op.TakeWhile?
    ensures Collected(t, globals, env, G.RunRows(body, rows, env),
                      LoopOps.PlainChain(Meanings(ops, globals), seed, Flatten(GivenRows(lead, globals, rows))))
  {
    var ms, given := Meanings(ops, globals), GivenRows(lead, globals, rows);
    EmittedCodeIsPlannerLoop(lead, ops, t, body, rows, env, globals, seed);
    MeaningsAccepted(ops, globals);
    Loops.RowsAreChain(ms, LoopOps.Start(seed), given);
    LoopOps.FreshChainIsPlain(ms, seed, Flatten(given));
  }

  // ------------------------------------- the sources, and both generators' results

  ghost predicate IsPairMap(f: (int, int) -> int, op: G.Op, globals: Env)
    requires G.HasHelper(op)
  {
    forall i: word :: f(i, i) == G.Call(op, [i, i], globals)
  }

  ghost predicate IsTripleMap(f: (int, int, int) -> int, op: G.Op, globals: Env)
    requires G.HasHelper(op)
  {
    forall i: word, right: word :: f(i, i, right) == G.Call(op, [i, i, right], globals)
  }

  /** The source read by a leading map, which is the helper on equal counters; the
      counters stay within a word. */
  ghost predicate Reads(src: Loops.Source, lead: seq<G.Op>, globals: Env)
    requires Leads(lead)
  {
    match src
    case Range(n) => lead == [] && n <= MAX
    case SyntheticRecords(n) => lead == [] && n <= MAX
    case ZipRange(n, f) => lead != [] && lead[0].PairMap? && IsPairMap(f, lead[0], globals) && n <= MAX
    case ZipSynthetic(a, b, f) =>
      lead != [] && lead[0].PairMap? && IsPairMap(f, lead[0], globals) && a <= MAX && b <= MAX
    case ZipMergeMapRange(n, inner, f) =>
      lead != [] && lead[0].TripleMap? && IsTripleMap(f, lead[0], globals) && n <= MAX && inner <= MAX
  }

  /** The variables the loop header binds at counters `right` and `i`. */
  function ItemAt(src: Loops.Source, right: word, i: word): G.Item {
    match src
    case Range(_) => G.Plain(i)
    case SyntheticRecords(_) => G.Plain(i)
    case ZipRange(_, _) => G.Zipped(i)
    case ZipSynthetic(_, _, _) => G.Zipped(i)
    case ZipMergeMapRange(_, _, _) => G.Merged(right, i)
  }

  function ItemRow(src: Loops.Source, lead: seq<G.Op>, globals: Env, right: word): (r: seq<G.Item>)
    requires Leads(lead) && Reads(src, lead, globals)
    ensures |r| == Loops.RowLength(src)
    ensures forall i | 0 <= i < |r| :: r[i] == ItemAt(src, right, i + 1)
  {
    seq(Loops.RowLength(src), i requires 0 <= i < Loops.RowLength(src) => ItemAt(src, right, i + 1))
  }

  function ItemRows(src: Loops.Source, lead: seq<G.Op>, globals: Env): (r: seq<seq<G.Item>>)
    requires Leads(lead) && Reads(src, lead, globals)
    ensures |r| == Loops.RowCount(src)
    ensures forall k | 0 <= k < |r| :: r[k] == ItemRow(src, lead, globals, k + 1)
  {
    seq(Loops.RowCount(src), k requires 0 <= k < Loops.RowCount(src) => ItemRow(src, lead, globals, k + 1))
  }

  lemma GivenIsInitial(src: Loops.Source, lead: seq<G.Op>, globals: Env, right: word, i: word)
    requires Leads(lead) && Reads(src, lead, globals)
    ensures var item := ItemAt(src, right, i);
            Fits(lead, item) && Given(lead, globals, item) == Loops.Initial(src, right, i)
  {
  }

  lemma {:induction false} GivenRowAt(lead: seq<G.Op>, globals: Env, row: seq<G.Item>, i: nat)
    requires Leads(lead) && RowFits(lead, row) && i < |row|
    ensures GivenRow(lead, globals, row)[i] == Given(lead, globals, row[i])
  {
    if i > 0 {
      GivenRowAt(lead, globals, row[1..], i - 1);
    }
  }

  lemma {:induction false} GivenRowsAt(lead: seq<G.Op>, globals: Env, rows: seq<seq<G.Item>>, k: nat)
    requires Leads(lead) && RowsFit(lead, rows) && k < |rows|
    ensures RowFits(lead, rows[k]) && GivenRows(lead, globals, rows)[k] == GivenRow(lead, globals, rows[k])
  {
    if k > 0 {
      GivenRowsAt(lead, globals, rows[1..], k - 1);
    }
  }

  lemma ItemRowGiven(src: Loops.Source, lead: seq<G.Op>, globals: Env, right: word)
    requires Leads(lead) && Reads(src, lead, globals)
    ensures var row := ItemRow(src, lead, globals, right);
            RowFits(lead, row) && GivenRow(lead, globals, row) == Loops.Row(src, right)
  {
    var row := ItemRow(src, lead, globals, right);
    forall i | 0 <= i < |row|
      ensures Fits(lead, row[i]) && Given(lead, globals, row[i]) == Loops.Row(src, right)[i]
    {
      GivenIsInitial(src, lead, globals, right, i + 1);
    }
    forall i | 0 <= i < |row|
      ensures GivenRow(lead, globals, row)[i] == Loops.Row(src, right)[i]
    {
      GivenRowAt(lead, globals, row, i);
    }
  }

  lemma ItemRowsFit(src: Loops.Source, lead: seq<G.Op>, globals: Env)
    requires Leads(lead) && Reads(src, lead, globals)
    ensures RowsFit(lead, ItemRows(src, lead, globals))
  {
    var rows := ItemRows(src, lead, globals);
    forall k | 0 <= k < |rows|
      ensures RowFits(lead, rows[k])
    {
      ItemRowGiven(src, lead, globals, k + 1);
    }
  }

  lemma GivenItemRow(src: Loops.Source, lead: seq<G.Op>, globals: Env, rows: seq<seq<G.Item>>, k: nat)
    requires Leads(lead) && Reads(src, lead, globals) && rows == ItemRows(src, lead, globals)
    requires RowsFit(lead, rows) && k < |rows|
    ensures GivenRows(lead, globals, rows)[k] == Loops.Row(src, k + 1)
  {
    GivenRowsAt(lead, globals, rows, k);
    ItemRowGiven(src, lead, globals, k + 1);
  }

  /** What the emitted code is fed is what the planner's loop reads: the rows of the
      source are the values of the items its loop headers bind. */
  lemma SourceRows(src: Loops.Source, lead: seq<G.Op>, globals: Env)
    requires Leads(lead) && Reads(src, lead, globals)
    ensures var rows := ItemRows(src, lead, globals);
            RowsFit(lead, rows) && GivenRows(lead, globals, rows) == Loops.RowsFrom(src, 0)
  {
    var rows := ItemRows(src, lead, globals);
    ItemRowsFit(src, lead, globals);
    Loops.RowsFromAt(src, 0);
    forall k | 0 <= k < |rows|
      ensures GivenRows(lead, globals, rows)[k] == Loops.RowsFrom(src, 0)[k]
    {
      GivenItemRow(src, lead, globals, rows, k);
    }
  }

  /** The scalar a segment function returns from the terminal's variables. */
  function ReturnedScalar(t: seq<G.Op>, vars: Env): word
    requires Terminal(t)
  {
    if t == [] then 0
    else if t[0].Reduce? then Lookup(vars, "reduce_accum")
    else if Lookup(vars, "has_last_value") != 0 then Lookup(vars, "last_value") else 0
  }

  /** The terminal as the planner's loop has it, `accum` being the reduction's seed. */
  function TerminalOf(t: seq<G.Op>, globals: Env, accum: int): Loops.Terminal
    requires Terminal(t)
  {
    if t == [] then Loops.NoTerminal
    else if t[0].Reduce? then Loops.Reduce(Binary(t[0], globals), accum)
    else Loops.Last
  }

  lemma CollectedScalar(t: seq<G.Op>, globals: Env, before: Env, after: Env, out: seq<int>, accum: word)
    requires Terminal(t) && Collected(t, globals, before, after, out)
    requires Lookup(before, "reduce_accum") == accum && Lookup(before, "has_last_value") == 0
    ensures ReturnedScalar(t, after) == Loops.Scalar(TerminalOf(t, globals, accum), out)
  {
  }

  /** The optimised and the plain function of one pipeline return the same: for every
      source and with fresh variables, the scalar of the plain list transforms. */
  lemma EmittedReturnsScalar(src: Loops.Source, lead: seq<G.Op>, ops: seq<G.Op>, t: seq<G.Op>, body: seq<G.Stmt>,
                             env: Env, globals: Env, seed: word, accum: word)
    requires Pipeline(lead, ops, t, globals) && Reads(src, lead, globals)
    requires forall op | op in lead + (ops + t) :: G.NamesKept(op)
    requires G.LoopBody(true, lead + (ops + t), Var("src")) == Some(body)
    requires FreshVariables(env, seed) && G.SeesGlobals(env, globals)
    requires Lookup(env, "reduce_accum") == accum && Lookup(env, "has_last_value") == 0
    ensures ReturnedScalar(t, G.RunRows(body, ItemRows(src, lead, globals), env)) ==
            Loops.Scalar(TerminalOf(t, globals, accum),
                         Loops.LoopRows(Meanings(ops, globals), LoopOps.Start(seed), Loops.RowsFrom(src, 0)).1)
  {
    var rows := ItemRows(src, lead, globals);
    SourceRows(src, lead, globals);
    EmittedCodeIsPlannerLoop(lead, ops, t, body, rows, env, globals, seed);
    CollectedScalar(t, globals, env, G.RunRows(body, rows, env),
                    Loops.LoopRows(Meanings(ops, globals), LoopOps.Start(seed), Loops.RowsFrom(src, 0)).1, accum);
  }
}
