/** The operators of the generated loops, read two ways: as transforms of whole
    lists, and as steps of one loop body with break and continue. */
module LoopOps {
  import opened Lists

  /** The operators of the planner's loop (core/planner/astgen.c) and of the DSL's
      fused function (core/tools/dsl_codegen.c), without the terminal ones. */
  datatype Op =
    | Map(f: int -> int)
    | MapTo(value: int)
    | Filter(p: int -> bool)
    | Scan(acc: (int, int) -> int)
    | Take(limit: int)
    | First
    | Skip(limit: int)
    | TakeWhile(p: int -> bool)
    | SkipWhile(p: int -> bool)
    | DistinctUntilChanged(key: int -> int)
    | TakeUntil(value: int)
    | SkipUntil(value: int)

  /** Operators of one family share a variable of the generated code. */
  datatype Family = NoState | ScanState | TakeState | SkipState | SkipWhileState | KeyState | StopState | StartState

  function FamilyOf(op: Op): Family {
    match op
    case Scan(_) => ScanState
    case Take(_) => TakeState
    case First => TakeState
    case Skip(_) => SkipState
    case SkipWhile(_) => SkipWhileState
    case DistinctUntilChanged(_) => KeyState
    case TakeUntil(_) => StopState
    case SkipUntil(_) => StartState
    case _ => NoState
  }

  /** The variables of the generated code. `stop` is the DSL's `break_after_emit`. */
  datatype Slots = Slots(
    scan: int, takeCount: int, skipCount: int, passed: bool,
    lastKey: int, hasKey: bool, stop: bool, started: bool)

  /** Fresh variables, with the seed of the scan. */
  function Start(seed: int): Slots {
    Slots(seed, 0, 0, false, 0, false, false, false)
  }

  predicate OncePerFamily(ops: seq<Op>) {
    forall i, j | 0 <= i < j < |ops| :: FamilyOf(ops[i]) != FamilyOf(ops[j]) || FamilyOf(ops[i]).NoState?
  }

  // ------------------------------------------------------------ whole lists

  function PrevKey(s: Slots): Option<int> {
    if s.hasKey then Some(s.lastKey) else None
  }

  function TakeLimit(op: Op): int
    requires op.Take? || op.First?
  {
    if op.Take? then op.limit else 1
  }

  /** An operator as a list transform, resumed from the state it is in. */
  function OpList(op: Op, s: Slots, xs: seq<int>): seq<int> {
    match op
    case Map(f) => Lists.Map(f, xs)
    case MapTo(v) => Lists.Map(x => v, xs)
    case Filter(p) => Lists.Filter(p, xs)
    case Scan(acc) => Lists.Scan(acc, s.scan, xs)
    case Take(limit) => Lists.Take(limit - s.takeCount, xs)
    case First => Lists.Take(1 - s.takeCount, xs)
    case Skip(limit) => Drop(limit - s.skipCount, xs)
    case TakeWhile(p) => Lists.TakeWhile(p, xs)
    case SkipWhile(p) => if s.passed then xs else DropWhile(p, xs)
    case DistinctUntilChanged(key) => Dedup(key, PrevKey(s), xs)
    case TakeUntil(c) => if s.stop then [] else ThroughFirst(c, xs)
    case SkipUntil(c) => if s.started then xs else DropWhile(x => x != c, xs)
  }

  /** The operators in order, each on the whole list the one before it left. */
  function ChainList(ops: seq<Op>, s: Slots, xs: seq<int>): seq<int> {
    if |ops| == 0 then xs else ChainList(ops[1..], s, OpList(ops[0], s, xs))
  }

  // ------------------------------------------------------------ fresh variables

  /** An operator as its documentation has it: a list transform without variables. */
  function PlainOp(op: Op, seed: int, xs: seq<int>): seq<int> {
    match op
    case Map(f) => seq(|xs|, i requires 0 <= i < |xs| => f(xs[i]))
    case MapTo(v) => seq(|xs|, i => v)
    case Filter(p) => Lists.Filter(p, xs)
    case Scan(acc) => Lists.Scan(acc, seed, xs)
    case Take(limit) => Lists.Take(limit, xs)
    case First => if xs == [] then [] else [xs[0]]
    case Skip(limit) => Drop(limit, xs)
    case TakeWhile(p) => Lists.TakeWhile(p, xs)
    case SkipWhile(p) => DropWhile(p, xs)
    case DistinctUntilChanged(key) => Dedup(key, None, xs)
    case TakeUntil(c) => ThroughFirst(c, xs)
    case SkipUntil(c) => FromFirst(c, xs)
  }

  function PlainChain(ops: seq<Op>, seed: int, xs: seq<int>): seq<int> {
    if |ops| == 0 then xs else PlainChain(ops[1..], seed, PlainOp(ops[0], seed, xs))
  }

  lemma {:induction false} FromFirstIsDropWhile(c: int, xs: seq<int>, differs: int -> bool)
    requires forall x :: differs(x) == (x != c)
    ensures DropWhile(differs, xs) == FromFirst(c, xs)
  {
    if xs != [] && xs[0] != c {
      FromFirstIsDropWhile(c, xs[1..], differs);
    }
  }

  lemma FreshIsPlain(op: Op, seed: int, xs: seq<int>)
    ensures OpList(op, Start(seed), xs) == PlainOp(op, seed, xs)
  {
    match op
    case SkipUntil(c) => FromFirstIsDropWhile(c, xs, x => x != c);
    case _ =>
  }

  /** With fresh variables every chain is the chain of the plain transforms: nothing
      counted, nothing passed, no key, no stop. */
  lemma {:induction false} FreshChainIsPlain(ops: seq<Op>, seed: int, xs: seq<int>)
    ensures ChainList(ops, Start(seed), xs) == PlainChain(ops, seed, xs)
    decreases |ops|
  {
    if |ops| > 0 {
      FreshIsPlain(ops[0], seed, xs);
      FreshChainIsPlain(ops[1..], seed, PlainOp(ops[0], seed, xs));
    }
  }

  // -------------------------------------------------------------- loop steps

  /** How the loop body goes on after an operator. */
  datatype Flow = Next(value: int) | Continue | Break

  /** The code emitted for one operator. */
  function Step(op: Op, s: Slots, v: int): (Slots, Flow) {
    match op
    case Map(f) => (s, Next(f(v)))
    case MapTo(c) => (s, Next(c))
    case Filter(p) => (s, if p(v) then Next(v) else Continue)
    case Scan(acc) => var n := acc(s.scan, v); (s.(scan := n), Next(n))
    case Take(limit) =>
      if s.takeCount >= limit then (s, Break) else (s.(takeCount := s.takeCount + 1), Next(v))
    case First =>
      if s.takeCount >= 1 then (s, Break) else (s.(takeCount := s.takeCount + 1), Next(v))
    case Skip(limit) =>
      if s.skipCount < limit then (s.(skipCount := s.skipCount + 1), Continue) else (s, Next(v))
    case TakeWhile(p) => (s, if p(v) then Next(v) else Break)
    case SkipWhile(p) => if !s.passed && p(v) then (s, Continue) else (s.(passed := true), Next(v))
    case DistinctUntilChanged(key) =>
      var k := key(v);
      if s.hasKey && k == s.lastKey then (s, Continue) else (s.(lastKey := k, hasKey := true), Next(v))
    case TakeUntil(c) => if s.stop then (s, Break) else (s.(stop := v == c), Next(v))
    case SkipUntil(c) =>
      if s.started || v == c then (s.(started := true), Next(v)) else (s, Continue)
  }

  /** The loop body up to its end or to its first `continue` or `break`. */
  function Push(ops: seq<Op>, s: Slots, v: int): (Slots, Flow) {
    if |ops| == 0 then (s, Next(v))
    else
      var (s1, flow) := Step(ops[0], s, v);
      if flow.Next? then Push(ops[1..], s1, flow.value) else (s1, flow)
  }

  /** What a pass hands to the terminal. */
  function Emitted(flow: Flow): seq<int> {
    if flow.Next? then [flow.value] else []
  }

  // ------------------------------------------------ a step does what a list does

  lemma OpNil(op: Op, s: Slots)
    ensures OpList(op, s, []) == []
  {
  }

  lemma {:induction false} ChainNil(ops: seq<Op>, s: Slots)
    ensures ChainList(ops, s, []) == []
  {
    if |ops| > 0 {
      OpNil(ops[0], s);
      ChainNil(ops[1..], s);
    }
  }

  /** What an operator makes of `[x] + xs`, going by its step on `x`. */
  function AfterStep(op: Op, s: Slots, x: int, xs: seq<int>): seq<int> {
    var (s1, flow) := Step(op, s, x);
    match flow
    case Next(v) => [v] + OpList(op, s1, xs)
    case Continue => OpList(op, s1, xs)
    case Break => []
  }

  lemma OpConsPure(op: Op, s: Slots, x: int, xs: seq<int>)
    requires op.Map? || op.MapTo? || op.Filter? || op.TakeWhile? || op.Scan?
    ensures OpList(op, s, [x] + xs) == AfterStep(op, s, x, xs)
  {
  }

  lemma OpConsState(op: Op, s: Slots, x: int, xs: seq<int>)
    requires op.SkipWhile? || op.DistinctUntilChanged? || op.SkipUntil? || op.TakeUntil?
    ensures OpList(op, s, [x] + xs) == AfterStep(op, s, x, xs)
  {
  }

  lemma TakeCons(n: int, x: int, xs: seq<int>)
    ensures Lists.Take(n, [x] + xs) == if n <= 0 then [] else [x] + Lists.Take(n - 1, xs)
  {
  }

  lemma DropCons(n: int, x: int, xs: seq<int>)
    ensures Drop(n, [x] + xs) == if n <= 0 then [x] + xs else Drop(n - 1, xs)
  {
    assert ([x] + xs)[1..] == xs;
  }

  /** One operator on `[x] + xs`: the step on `x`, then the operator resumed on `xs`. */
  lemma OpCons(op: Op, s: Slots, x: int, xs: seq<int>)
    ensures OpList(op, s, [x] + xs) == AfterStep(op, s, x, xs)
  {
    match op
    case Take(limit) => TakeCons(limit - s.takeCount, x, xs);
    case First => TakeCons(1 - s.takeCount, x, xs);
    case Skip(limit) => DropCons(limit - s.skipCount, x, xs);
    case _ =>
      if op.SkipWhile? || op.DistinctUntilChanged? || op.SkipUntil? || op.TakeUntil? {
        OpConsState(op, s, x, xs);
      } else {
        OpConsPure(op, s, x, xs);
      }
  }

  /** The part of the state an operator of a family reads. */
  predicate SameFor(family: Family, a: Slots, b: Slots) {
    match family
    case NoState => true
    case ScanState => a.scan == b.scan
    case TakeState => a.takeCount == b.takeCount
    case SkipState => a.skipCount == b.skipCount
    case SkipWhileState => a.passed == b.passed
    case KeyState => a.lastKey == b.lastKey && a.hasKey == b.hasKey
    case StopState => a.stop == b.stop
    case StartState => a.started == b.started
  }

  lemma OpFrame(op: Op, a: Slots, b: Slots, xs: seq<int>)
    requires SameFor(FamilyOf(op), a, b)
    ensures OpList(op, a, xs) == OpList(op, b, xs)
  {
  }

  lemma {:induction false} ChainFrame(ops: seq<Op>, a: Slots, b: Slots, xs: seq<int>)
    requires forall i | 0 <= i < |ops| :: SameFor(FamilyOf(ops[i]), a, b)
    ensures ChainList(ops, a, xs) == ChainList(ops, b, xs)
  {
    if |ops| > 0 {
      OpFrame(ops[0], a, b, xs);
      ChainFrame(ops[1..], a, b, OpList(ops[0], a, xs));
    }
  }

  lemma StepFrame(op: Op, s: Slots, v: int, family: Family)
    requires FamilyOf(op) != family
    ensures SameFor(family, s, Step(op, s, v).0)
  {
  }

  lemma {:induction false} PushFrame(ops: seq<Op>, s: Slots, v: int, family: Family)
    requires forall i | 0 <= i < |ops| :: FamilyOf(ops[i]) != family
    ensures SameFor(family, s, Push(ops, s, v).0)
  {
    if |ops| > 0 {
      StepFrame(ops[0], s, v, family);
      var (s1, flow) := Step(ops[0], s, v);
      if flow.Next? {
        PushFrame(ops[1..], s1, flow.value, family);
      }
    }
  }

  /** The rest of a chain does not see the state of its first operator. */
  lemma RestUnaware(ops: seq<Op>, s: Slots, v: int, xs: seq<int>)
    requires |ops| > 0 && OncePerFamily(ops)
    ensures ChainList(ops[1..], s, xs) == ChainList(ops[1..], Step(ops[0], s, v).0, xs)
  {
    var s1 := Step(ops[0], s, v).0;
    forall i | 0 <= i < |ops| - 1
      ensures SameFor(FamilyOf(ops[1..][i]), s, s1)
    {
      assert ops[1..][i] == ops[i + 1];
      if !FamilyOf(ops[i + 1]).NoState? {
        StepFrame(ops[0], s, v, FamilyOf(ops[i + 1]));
      }
    }
    ChainFrame(ops[1..], s, s1, xs);
  }

  lemma FirstUnaware(ops: seq<Op>, s: Slots, v: int, xs: seq<int>)
    requires |ops| > 0 && OncePerFamily(ops)
    ensures OpList(ops[0], Push(ops[1..], s, v).0, xs) == OpList(ops[0], s, xs)
  {
    if !FamilyOf(ops[0]).NoState? {
      forall i | 0 <= i < |ops| - 1
        ensures FamilyOf(ops[1..][i]) != FamilyOf(ops[0])
      {
        assert ops[1..][i] == ops[i + 1];
      }
      PushFrame(ops[1..], s, v, FamilyOf(ops[0]));
    }
    OpFrame(ops[0], Push(ops[1..], s, v).0, s, xs);
  }

  lemma OnceTail(ops: seq<Op>)
    requires |ops| > 0 && OncePerFamily(ops)
    ensures OncePerFamily(ops[1..])
  {
  }

  /** The whole chain on `[x] + xs`: one pass of the loop body on `x`, then the
      chain resumed on `xs`. */
  lemma {:induction false} PushCons(ops: seq<Op>, s: Slots, x: int, xs: seq<int>)
    requires OncePerFamily(ops)
    ensures var (s1, flow) := Push(ops, s, x);
            ChainList(ops, s, [x] + xs) ==
            match flow
            case Next(v) => [v] + ChainList(ops, s1, xs)
            case Continue => ChainList(ops, s1, xs)
            case Break => []
    decreases |ops|
  {
    if |ops| > 0 {
      var op, rest := ops[0], ops[1..];
      var (s1, flow) := Step(op, s, x);
      OnceTail(ops);
      OpCons(op, s, x, xs);
      var ys := OpList(op, s1, xs);
      RestUnaware(ops, s, x, OpList(op, s, [x] + xs));
      match flow {
        case Next(v) =>
          PushCons(rest, s1, v, ys);
          FirstUnaware(ops, s1, v, xs);
        case Continue =>
        case Break =>
          ChainNil(rest, s);
      }
    }
  }

  // ------------------------------------------------------------------- loops

  /** Which generator: the planner tests `should_break` at the end of the body, set
      when a take is used up; the DSL tests `break_after_emit`, set by takeUntil. */
  datatype Generator = Planner | Dsl

  predicate Exhausted(ops: seq<Op>, s: Slots) {
    exists i | 0 <= i < |ops| :: (ops[i].Take? || ops[i].First?) && s.takeCount >= TakeLimit(ops[i])
  }

  predicate EndsLoop(gen: Generator, ops: seq<Op>, s: Slots) {
    match gen
    case Planner => Exhausted(ops, s)
    case Dsl => s.stop
  }

  /** The flags declared inside the loop body are fresh for each item. */
  function FreshFlags(s: Slots): Slots {
    s.(stop := false)
  }

  /** The generated loop over `xs`: the slots it leaves and the values that reach the
      end of the operators. */
  function Loop(gen: Generator, ops: seq<Op>, s: Slots, xs: seq<int>): (Slots, seq<int>)
    decreases |xs|
  {
    if xs == [] then (s, [])
    else
      var (s1, flow) := Push(ops, FreshFlags(s), xs[0]);
      match flow
      case Break => (s1, [])
      case Continue => Loop(gen, ops, s1, xs[1..])
      case Next(v) =>
        if EndsLoop(gen, ops, s1) then (s1, [v])
        else var (s2, ys) := Loop(gen, ops, s1, xs[1..]); (s2, [v] + ys)
  }

  /** The planner's emitter has no case for these. */
  predicate DslOnly(op: Op) {
    op.MapTo? || op.First? || op.TakeUntil? || op.SkipUntil?
  }

  predicate Skips(op: Op) {
    op.Filter? || op.Skip? || op.SkipWhile? || op.DistinctUntilChanged? || op.SkipUntil?
  }

  /** What a generator accepts here: each family once; for the planner the operators
      it emits, for the DSL no item-skipping operator after a takeUntil. */
  predicate Accepts(gen: Generator, ops: seq<Op>) {
    && OncePerFamily(ops)
    && match gen
       case Planner => forall i | 0 <= i < |ops| :: !DslOnly(ops[i])
       case Dsl => forall i, j | 0 <= i < j < |ops| :: ops[i].TakeUntil? ==> !Skips(ops[j])
  }

  lemma {:induction false} ExhaustedIsNil(ops: seq<Op>, s: Slots, xs: seq<int>)
    requires Exhausted(ops, s)
    ensures ChainList(ops, s, xs) == []
  {
    var i :| 0 <= i < |ops| && (ops[i].Take? || ops[i].First?) && s.takeCount >= TakeLimit(ops[i]);
    if i == 0 {
      ChainNil(ops[1..], s);
    } else {
      assert ops[1..][i - 1] == ops[i];
      ExhaustedIsNil(ops[1..], s, OpList(ops[0], s, xs));
    }
  }

  lemma {:induction false} StoppedIsNil(ops: seq<Op>, s: Slots, xs: seq<int>, i: nat)
    requires s.stop && i < |ops| && ops[i].TakeUntil?
    ensures ChainList(ops, s, xs) == []
  {
    if i == 0 {
      ChainNil(ops[1..], s);
    } else {
      StoppedIsNil(ops[1..], s, OpList(ops[0], s, xs), i - 1);
    }
  }

  lemma {:induction false} NeverSkips(ops: seq<Op>, s: Slots, v: int)
    requires forall j | 0 <= j < |ops| :: !Skips(ops[j])
    ensures !Push(ops, s, v).1.Continue?
  {
    if |ops| > 0 {
      var (s1, flow) := Step(ops[0], s, v);
      if flow.Next? {
        NeverSkips(ops[1..], s1, flow.value);
      }
    }
  }

  /** When a body pass sets `stop`, the chain has a takeUntil; and where no skipping
      operator follows it, the pass is not cut short by a `continue`. */
  lemma {:induction false} StopSet(ops: seq<Op>, s: Slots, v: int) returns (at: nat)
    requires !s.stop && Push(ops, s, v).0.stop
    ensures at < |ops| && ops[at].TakeUntil?
    ensures (forall j | at < j < |ops| :: !Skips(ops[j])) ==> !Push(ops, s, v).1.Continue?
  {
    var (s1, flow) := Step(ops[0], s, v);
    if s1.stop {
      at := 0;
      if forall j | 0 < j < |ops| :: !Skips(ops[j]) {
        NeverSkips(ops[1..], s1, v);
      }
    } else {
      var k := StopSet(ops[1..], s1, flow.value);
      at := k + 1;
      assert forall j | k < j < |ops| - 1 :: ops[1..][j] == ops[j + 1];
    }
  }

  lemma {:induction false} NoStopSet(ops: seq<Op>, s: Slots, v: int)
    requires !s.stop && forall i | 0 <= i < |ops| :: !ops[i].TakeUntil?
    ensures !Push(ops, s, v).0.stop
  {
    if |ops| > 0 {
      var (s1, flow) := Step(ops[0], s, v);
      if flow.Next? {
        NoStopSet(ops[1..], s1, flow.value);
      }
    }
  }

  lemma StopEndsLoop(gen: Generator, ops: seq<Op>, s: Slots, x: int)
    requires Accepts(gen, ops) && !s.stop && Push(ops, s, x).0.stop
    ensures gen.Dsl? && !Push(ops, s, x).1.Continue?
  {
    if gen.Planner? {
      NoStopSet(ops, s, x);
    } else {
      var at := StopSet(ops, s, x);
    }
  }

  /** The single generated loop computes the list transforms: limits of zero and
      less, breaks, and a `continue` that skips the end-of-body test included. */
  lemma {:induction false} LoopIsChain(gen: Generator, ops: seq<Op>, s: Slots, xs: seq<int>)
    requires Accepts(gen, ops) && !s.stop
    ensures Loop(gen, ops, s, xs).1 == ChainList(ops, s, xs)
    decreases |xs|
  {
    if xs == [] {
      ChainNil(ops, s);
    } else {
      var x, rest := xs[0], xs[1..];
      assert xs == [x] + rest && FreshFlags(s) == s;
      PushCons(ops, s, x, rest);
      var (s1, flow) := Push(ops, s, x);
      if s1.stop {
        StopEndsLoop(gen, ops, s, x);
        var at := StopSet(ops, s, x);
        StoppedIsNil(ops, s1, rest, at);
      } else if flow.Next? && EndsLoop(gen, ops, s1) {
        ExhaustedIsNil(ops, s1, rest);
      } else if !flow.Break? {
        LoopIsChain(gen, ops, s1, rest);
      }
    }
  }
}
