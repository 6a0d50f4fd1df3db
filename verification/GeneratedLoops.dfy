/** The loops that the planner (core/planner/astgen.c) and the DSL compiler
    (core/tools/dsl_codegen.c) generate, run as programs and proved to compute the
    list transforms of their operators. */
module GeneratedLoops {
  import opened Lists
  import opened LoopOps

  // ---------------------------------------------------------------- terminals

  datatype Terminal = NoTerminal | Reduce(acc: (int, int) -> int, seed: int) | Last

  /** The variables of the terminal operator. */
  datatype Sink = Sink(accum: int, lastValue: int, hasLast: bool)

  function EmptySink(t: Terminal): Sink {
    Sink(if t.Reduce? then t.seed else 0, 0, false)
  }

  function Absorb(t: Terminal, k: Sink, v: int): Sink {
    match t
    case NoTerminal => k
    case Reduce(acc, _) => k.(accum := acc(k.accum, v))
    case Last => k.(lastValue := v, hasLast := true)
  }

  /** `out` has reached the terminal. */
  ghost predicate Absorbed(t: Terminal, k: Sink, out: seq<int>) {
    match t
    case NoTerminal => true
    case Reduce(acc, seed) => k.accum == Fold(acc, seed, out)
    case Last => k.hasLast == (out != []) && (out != [] ==> k.lastValue == out[|out| - 1])
  }

  lemma AbsorbMore(t: Terminal, k: Sink, out: seq<int>, v: int)
    requires Absorbed(t, k, out)
    ensures Absorbed(t, Absorb(t, k, v), out + [v])
  {
    if t.Reduce? {
      FoldSnoc(t.acc, t.seed, out, v);
    }
  }

  /** The scalar a segment function returns for the values that reach its end. */
  function Scalar(t: Terminal, out: seq<int>): int {
    match t
    case NoTerminal => 0
    case Reduce(acc, seed) => Fold(acc, seed, out)
    case Last => if out == [] then 0 else out[|out| - 1]
  }

  // ------------------------------------------------------------------ planner

  datatype Source =
    | Range(n: int)
    | SyntheticRecords(count: int)
    | ZipRange(n: int, pairMap: (int, int) -> int)
    | ZipSynthetic(a: int, b: int, pairMap: (int, int) -> int)
    | ZipMergeMapRange(n: int, inner: int, tripleMap: (int, int, int) -> int)

  function RowCount(src: Source): nat {
    if src.ZipMergeMapRange? then (if src.inner < 0 then 0 else src.inner) else 1
  }

  function RowLength(src: Source): nat {
    var n := match src
             case Range(n) => n
             case SyntheticRecords(count) => count
             case ZipRange(n, _) => n
             case ZipSynthetic(a, b, _) => if a < b then a else b
             case ZipMergeMapRange(n, _, _) => n;
    if n < 0 then 0 else n
  }

  /** `value` as the loop header and the leading pair or triple map set it. */
  function Initial(src: Source, right: int, i: int): int {
    match src
    case Range(_) => i
    case SyntheticRecords(_) => i
    case ZipRange(_, f) => f(i, i)
    case ZipSynthetic(_, _, f) => f(i, i)
    case ZipMergeMapRange(_, _, f) => f(i, i, right)
  }

  function Row(src: Source, right: int): (r: seq<int>)
    ensures |r| == RowLength(src)
  {
    seq(RowLength(src), i requires 0 <= i < RowLength(src) => Initial(src, right, i + 1))
  }

  /** The rows from `right` on; one row unless the source is the nested one. */
  function RowsFrom(src: Source, right: nat): seq<seq<int>>
    decreases RowCount(src) - right
  {
    if right >= RowCount(src) then [] else [Row(src, right + 1)] + RowsFrom(src, right + 1)
  }

  lemma {:induction false} RowsFromAt(src: Source, right: nat)
    requires right <= RowCount(src)
    ensures |RowsFrom(src, right)| == RowCount(src) - right
    ensures forall r | 0 <= r < RowCount(src) - right :: RowsFrom(src, right)[r] == Row(src, right + r + 1)
    decreases RowCount(src) - right
  {
    if right < RowCount(src) {
      RowsFromAt(src, right + 1);
    }
  }

  /** The numbers from 1 to `n`, and no number when `n` is not positive. */
  predicate CountsUp(xs: seq<int>, n: int) {
    |xs| == (if n < 0 then 0 else n) && forall i | 0 <= i < |xs| :: xs[i] == i + 1
  }

  /** The rows of every source by index: one row of counters for a range, the pairs
      of equal counters for a zip, and for the nested source one such row for each
      value of the outer counter, which every cell of the row receives last. */
  lemma RowsByIndex(src: Source)
    ensures var rows := RowsFrom(src, 0);
            match src
            case Range(n) => |rows| == 1 && CountsUp(rows[0], n)
            case SyntheticRecords(n) => |rows| == 1 && CountsUp(rows[0], n)
            case ZipRange(n, f) =>
              && |rows| == 1 && |rows[0]| == (if n < 0 then 0 else n)
              && forall i | 0 <= i < n :: rows[0][i] == f(i + 1, i + 1)
            case ZipSynthetic(a, b, f) =>
              && |rows| == 1 && |rows[0]| == (if a < 0 || b < 0 then 0 else if a < b then a else b)
              && forall i | 0 <= i < a && i < b :: rows[0][i] == f(i + 1, i + 1)
            case ZipMergeMapRange(n, inner, f) =>
              && |rows| == (if inner < 0 then 0 else inner)
              && (forall r | 0 <= r < inner :: |rows[r]| == (if n < 0 then 0 else n))
              && forall r, i | 0 <= r < inner && 0 <= i < n :: rows[r][i] == f(i + 1, i + 1, r + 1)
  {
    RowsFromAt(src, 0);
  }

  /** The nested loop: `break` leaves the inner loop only. */
  function LoopRows(ops: seq<Op>, s: Slots, rows: seq<seq<int>>): (Slots, seq<int>)
    decreases |rows|
  {
    if rows == [] then (s, [])
    else
      var (s1, ys) := Loop(Planner, ops, s, rows[0]);
      var (s2, zs) := LoopRows(ops, s1, rows[1..]);
      (s2, ys + zs)
  }

  // ------------------------------------ the shared value view is always current

  predicate UsesView(op: Op) {
    op.Filter? || op.TakeWhile? || op.SkipWhile? || op.DistinctUntilChanged?
  }

  /** `starts_shared_value_run`: the view is taken afresh unless the operator before
      used it and left the value alone. */
  predicate StartsRun(ops: seq<Op>, k: nat)
    requires k < |ops|
  {
    UsesView(ops[k]) && (k == 0 || !UsesView(ops[k - 1]))
  }

  /** Taking one more operator into account: only a take can be newly used up. */
  lemma ExhaustedStep(ops: seq<Op>, k: nat, s: Slots, v: int)
    requires k < |ops| && OncePerFamily(ops) && !ops[k].First?
    ensures var (s1, flow) := Step(ops[k], s, v);
            flow.Next? ==>
              Exhausted(ops[..k + 1], s1) ==
              (Exhausted(ops[..k], s) || (ops[k].Take? && s1.takeCount >= ops[k].limit))
  {
  }

  lemma PushStep(ops: seq<Op>, k: nat, s: Slots, v: int)
    requires k < |ops|
    ensures var (s1, flow) := Step(ops[k], s, v);
            Push(ops[k..], s, v) == if flow.Next? then Push(ops[k + 1..], s1, flow.value) else (s1, flow)
  {
    assert ops[k..][0] == ops[k] && ops[k..][1..] == ops[k + 1..];
  }

  /** One pass of the planner's loop body. `view` is `__rx_value_view`, declared once
      for a run of operators that only look at the value. */
  method PlannerBody(ops: seq<Op>, s0: Slots, v0: int) returns (s: Slots, flow: Flow, shouldBreak: bool)
    requires Accepts(Planner, ops)
    ensures (s, flow) == Push(ops, s0, v0)
    ensures flow.Next? ==> shouldBreak == Exhausted(ops, s)
  {
    var value, view := v0, 0;
    s, shouldBreak := s0, false;
    for k := 0 to |ops|
      invariant Push(ops, s0, v0) == Push(ops[k..], s, value)
      invariant k > 0 && UsesView(ops[k - 1]) ==> view == value
      invariant shouldBreak == Exhausted(ops[..k], s)
    {
      var op := ops[k];
      PushStep(ops, k, s, value);
      ExhaustedStep(ops, k, s, value);
      if StartsRun(ops, k) {
        view := value;
      }
      match op {
        case Take(limit) =>
          if s.takeCount >= limit {
            return s, Break, shouldBreak;
          }
          s := s.(takeCount := s.takeCount + 1);
          if s.takeCount >= limit {
            shouldBreak := true;
          }
        case Filter(p) =>
          if !p(view) {
            return s, Continue, shouldBreak;
          }
        case TakeWhile(p) =>
          if !p(view) {
            return s, Break, shouldBreak;
          }
        case SkipWhile(p) =>
          if !s.passed && p(view) {
            return s, Continue, shouldBreak;
          }
          s := s.(passed := true);
        case DistinctUntilChanged(key) =>
          var projected := key(view);
          if s.hasKey && projected == s.lastKey {
            return s, Continue, shouldBreak;
          }
          s := s.(lastKey := projected, hasKey := true);
        case Map(f) =>
          value := f(value);
        case Scan(acc) =>
          s := s.(scan := acc(s.scan, value));
          value := s.scan;
        case Skip(limit) =>
          if s.skipCount < limit {
            s := s.(skipCount := s.skipCount + 1);
            return s, Continue, shouldBreak;
          }
        case _ =>
          assert false;
      }
    }
    assert ops[..|ops|] == ops;
    flow := Next(value);
  }

  /** `out` has been produced; the loop resumed from `r` does the rest. */
  function Joined(out: seq<int>, r: (Slots, seq<int>)): (Slots, seq<int>) {
    (r.0, out + r.1)
  }

  lemma LoopStep(gen: Generator, ops: seq<Op>, s: Slots, xs: seq<int>, i: nat, whole: (Slots, seq<int>), out: seq<int>)
    requires i < |xs| && whole == Joined(out, Loop(gen, ops, s, xs[i..]))
    ensures var (s1, flow) := Push(ops, FreshFlags(s), xs[i]);
            match flow
            case Break => whole == (s1, out)
            case Continue => whole == Joined(out, Loop(gen, ops, s1, xs[i + 1..]))
            case Next(v) =>
              if EndsLoop(gen, ops, s1) then whole == (s1, out + [v])
              else whole == Joined(out + [v], Loop(gen, ops, s1, xs[i + 1..]))
  {
    var (s1, flow) := Push(ops, FreshFlags(s), xs[i]);
    assert xs[i..][0] == xs[i] && xs[i..][1..] == xs[i + 1..];
    if flow.Next? {
      AppendAssoc(out, [flow.value], Loop(gen, ops, s1, xs[i + 1..]).1);
    } else if flow.Break? {
      assert out + [] == out;
    }
  }

  lemma LoopStart(gen: Generator, ops: seq<Op>, s: Slots, xs: seq<int>)
    ensures Loop(gen, ops, s, xs) == Joined([], Loop(gen, ops, s, xs[0..]))
  {
    assert xs[0..] == xs;
    assert [] + Loop(gen, ops, s, xs).1 == Loop(gen, ops, s, xs).1;
  }

  lemma LoopEnd(gen: Generator, ops: seq<Op>, s: Slots, xs: seq<int>, out: seq<int>)
    ensures Joined(out, Loop(gen, ops, s, xs[|xs|..])) == (s, out)
  {
    assert xs[|xs|..] == [] && out + [] == out;
  }

  /** The inner `for` of the planner's function: one row, terminal included. */
  method PlannerRow(src: Source, right: int, ops: seq<Op>, t: Terminal, s0: Slots, k0: Sink, ghost before: seq<int>)
    returns (s: Slots, k: Sink, ghost out: seq<int>)
    requires Accepts(Planner, ops) && !s0.stop && Absorbed(t, k0, before)
    ensures (s, out) == Loop(Planner, ops, s0, Row(src, right)) && !s.stop
    ensures Absorbed(t, k, before + out)
  {
    ghost var row := Row(src, right);
    ghost var whole := Loop(Planner, ops, s0, row);
    s, k, out := s0, k0, [];
    LoopStart(Planner, ops, s0, row);
    assert before + [] == before;
    for i := 0 to RowLength(src)
      invariant !s.stop && whole == Joined(out, Loop(Planner, ops, s, row[i..]))
      invariant Absorbed(t, k, before + out)
    {
      LoopStep(Planner, ops, s, row, i, whole, out);
      var value := Initial(src, right, i + 1);
      NoStopSet(ops, s, value);
      var s1, flow, shouldBreak := PlannerBody(ops, s, value);
      s := s1;
      match flow {
        case Break =>
          return;
        case Continue =>
        case Next(v) =>
          AbsorbMore(t, k, before + out, v);
          AppendAssoc(before, out, [v]);
          k, out := Absorb(t, k, v), out + [v];
          if shouldBreak {
            return;
          }
      }
    }
    LoopEnd(Planner, ops, s, row, out);
  }

  lemma AbsorbedScalar(t: Terminal, k: Sink, out: seq<int>)
    requires Absorbed(t, k, out)
    ensures Scalar(t, out) ==
            match t
            case NoTerminal => 0
            case Reduce(_, _) => k.accum
            case Last => if k.hasLast then k.lastValue else 0
  {
  }

  // ------------------------------------------- the nested loop and list transforms

  lemma {:induction false} BreakMeansExhausted(ops: seq<Op>, s: Slots, v: int)
    requires Push(ops, s, v).1.Break?
    requires forall i | 0 <= i < |ops| :: !ops[i].TakeWhile? && !ops[i].TakeUntil?
    ensures Exhausted(ops, Push(ops, s, v).0)
  {
    if |ops| > 0 {
      var (s1, flow) := Step(ops[0], s, v);
      if flow.Next? {
        BreakMeansExhausted(ops[1..], s1, flow.value);
        var s2 := Push(ops, s, v).0;
        var i :| 0 <= i < |ops| - 1 && (ops[1..][i].Take? || ops[1..][i].First?)
                 && s2.takeCount >= TakeLimit(ops[1..][i]);
        assert ops[i + 1] == ops[1..][i];
      } else {
        assert s1.takeCount >= TakeLimit(ops[0]);
      }
    }
  }

  predicate NoTakeWhile(ops: seq<Op>) {
    forall i | 0 <= i < |ops| :: !ops[i].TakeWhile?
  }

  /** After a loop that may have broken off, the chain resumed on more items gives
      what it would have given on all of them. */
  lemma {:induction false} LoopThen(ops: seq<Op>, s: Slots, xs: seq<int>, ys: seq<int>)
    requires Accepts(Planner, ops) && NoTakeWhile(ops) && !s.stop
    ensures var (s', out) := Loop(Planner, ops, s, xs);
            !s'.stop && ChainList(ops, s, xs + ys) == out + ChainList(ops, s', ys)
    decreases |xs|
  {
    if xs == [] {
      assert xs + ys == ys && [] + ChainList(ops, s, ys) == ChainList(ops, s, ys);
    } else {
      var x, rest := xs[0], xs[1..];
      assert xs + ys == [x] + (rest + ys) && FreshFlags(s) == s;
      PushCons(ops, s, x, rest + ys);
      NoStopSet(ops, s, x);
      var (s1, flow) := Push(ops, s, x);
      if flow.Break? {
        BreakMeansExhausted(ops, s, x);
        ExhaustedIsNil(ops, s1, ys);
      } else if flow.Next? && Exhausted(ops, s1) {
        ExhaustedIsNil(ops, s1, rest + ys);
        ExhaustedIsNil(ops, s1, ys);
        assert [flow.value] + [] == [flow.value];
      } else {
        LoopThen(ops, s1, rest, ys);
        var (s', out) := Loop(Planner, ops, s1, rest);
        if flow.Next? {
          AppendAssoc([flow.value], out, ChainList(ops, s', ys));
        }
      }
    }
  }

  lemma {:induction false} RowsThen(ops: seq<Op>, s: Slots, rows: seq<seq<int>>)
    requires Accepts(Planner, ops) && NoTakeWhile(ops) && !s.stop
    ensures LoopRows(ops, s, rows).1 == ChainList(ops, s, Flatten(rows))
    decreases |rows|
  {
    if rows == [] {
      ChainNil(ops, s);
    } else {
      LoopThen(ops, s, rows[0], Flatten(rows[1..]));
      RowsThen(ops, Loop(Planner, ops, s, rows[0]).0, rows[1..]);
    }
  }

  /** The nested loop computes the list transforms: over one row for every chain, over
      any rows for chains without takeWhile, where a `break` of the inner loop cannot
      matter. */
  lemma RowsAreChain(ops: seq<Op>, s: Slots, rows: seq<seq<int>>)
    requires Accepts(Planner, ops) && !s.stop
    requires |rows| <= 1 || NoTakeWhile(ops)
    ensures LoopRows(ops, s, rows).1 == ChainList(ops, s, Flatten(rows))
  {
    if NoTakeWhile(ops) {
      RowsThen(ops, s, rows);
    } else if rows == [] {
      ChainNil(ops, s);
    } else {
      LoopIsChain(Planner, ops, s, rows[0]);
      assert rows[1..] == [] && Flatten(rows) == rows[0] + [] == rows[0];
      var out := Loop(Planner, ops, s, rows[0]).1;
      assert out + [] == out;
    }
  }

  /** So the planner's function returns the scalar of the list transforms: on a single
      loop for every chain, on the nested source for chains without takeWhile. */
  lemma PlannerLoopIsListTransforms(src: Source, ops: seq<Op>, t: Terminal, seed: int)
    requires Accepts(Planner, ops)
    requires RowCount(src) <= 1 || NoTakeWhile(ops)
    ensures Scalar(t, LoopRows(ops, Start(seed), RowsFrom(src, 0)).1) ==
            Scalar(t, PlainChain(ops, seed, Flatten(RowsFrom(src, 0))))
  {
    if RowCount(src) == 1 {
      assert RowsFrom(src, 1) == [];
    }
    RowsAreChain(ops, Start(seed), RowsFrom(src, 0));
    FreshChainIsPlain(ops, seed, Flatten(RowsFrom(src, 0)));
  }

  /** One more row of the nested loop. */
  lemma RowsStep(src: Source, ops: seq<Op>, s: Slots, right: nat, whole: (Slots, seq<int>), out: seq<int>)
    requires right < RowCount(src) && whole == Joined(out, LoopRows(ops, s, RowsFrom(src, right)))
    ensures var (s1, more) := Loop(Planner, ops, s, Row(src, right + 1));
            whole == Joined(out + more, LoopRows(ops, s1, RowsFrom(src, right + 1)))
  {
    var rows := RowsFrom(src, right);
    assert rows[0] == Row(src, right + 1) && rows[1..] == RowsFrom(src, right + 1);
    var (s1, more) := Loop(Planner, ops, s, rows[0]);
    AppendAssoc(out, more, LoopRows(ops, s1, rows[1..]).1);
  }

  lemma RowsEnd(src: Source, ops: seq<Op>, s: Slots, out: seq<int>)
    ensures Joined(out, LoopRows(ops, s, RowsFrom(src, RowCount(src)))) == (s, out)
  {
    assert RowsFrom(src, RowCount(src)) == [] && out + [] == out;
  }

  /** The segment function: all rows, then the returned scalar. */
  method RunPlanner(src: Source, ops: seq<Op>, t: Terminal, seed: int) returns (result: int)
    requires Accepts(Planner, ops)
    ensures result == Scalar(t, LoopRows(ops, Start(seed), RowsFrom(src, 0)).1)
    ensures RowCount(src) <= 1 || NoTakeWhile(ops) ==>
              result == Scalar(t, PlainChain(ops, seed, Flatten(RowsFrom(src, 0))))
  {
    if RowCount(src) <= 1 || NoTakeWhile(ops) {
      PlannerLoopIsListTransforms(src, ops, t, seed);
    }
    var s, k := Start(seed), EmptySink(t);
    ghost var whole := LoopRows(ops, s, RowsFrom(src, 0));
    ghost var out: seq<int> := [];
    assert [] + whole.1 == whole.1;
    for right := 0 to RowCount(src)
      invariant !s.stop && Absorbed(t, k, out)
      invariant whole == Joined(out, LoopRows(ops, s, RowsFrom(src, right)))
    {
      RowsStep(src, ops, s, right, whole, out);
      ghost var more: seq<int>;
      s, k, more := PlannerRow(src, right + 1, ops, t, s, k, out);
      out := out + more;
    }
    RowsEnd(src, ops, s, out);
    AbsorbedScalar(t, k, out);
    match t {
      case NoTerminal => return 0;
      case Reduce(_, _) => return k.accum;
      case Last => return if k.hasLast then k.lastValue else 0;
    }
  }

  // --------------------------------------------------------------------- DSL

  datatype DslSource = Between(first: int, last: int) | Of(values: seq<int>) | Empty

  /** A range holds its first number, its last one and all between, in order. */
  function Items(src: DslSource): (xs: seq<int>)
    ensures src.Between? ==> |xs| == if src.last < src.first then 0 else src.last - src.first + 1
    ensures src.Between? ==> forall i | 0 <= i < |xs| :: xs[i] == src.first + i
    ensures src.Of? ==> xs == src.values
    ensures src.Empty? ==> xs == []
  {
    match src
    case Between(a, b) => if b < a then [] else seq(b - a + 1, i requires 0 <= i => a + i)
    case Of(values) => values
    case Empty => []
  }

  /** The result list of a chain whose operators let `out` through. */
  function ResultList(t: Terminal, out: seq<int>): seq<int> {
    match t
    case NoTerminal => out
    case Reduce(acc, seed) => [Fold(acc, seed, out)]
    case Last => if out == [] then [] else [out[|out| - 1]]
  }

  lemma OneTakeUntil(ops: seq<Op>, k: nat)
    requires OncePerFamily(ops) && k < |ops| && ops[k].TakeUntil?
    ensures !exists i :: 0 <= i < k && ops[i].TakeUntil?
  {
  }

  /** One pass of the fused function's loop body; `stop` is `break_after_emit`. */
  method DslBody(ops: seq<Op>, s0: Slots, v0: int) returns (s: Slots, flow: Flow)
    requires OncePerFamily(ops) && !s0.stop
    ensures (s, flow) == Push(ops, s0, v0)
  {
    var value := v0;
    s := s0;
    for k := 0 to |ops|
      invariant Push(ops, s0, v0) == Push(ops[k..], s, value)
      invariant s.stop ==> exists i :: 0 <= i < k && ops[i].TakeUntil?
    {
      var op := ops[k];
      PushStep(ops, k, s, value);
      if op.TakeUntil? && s.stop {
        OneTakeUntil(ops, k);
      }
      match op {
        case Map(f) => value := f(value);
        case MapTo(c) => value := c;
        case Filter(p) =>
          if !p(value) {
            return s, Continue;
          }
        case Scan(acc) =>
          s := s.(scan := acc(s.scan, value));
          value := s.scan;
        case Take(limit) =>
          if s.takeCount >= limit {
            return s, Break;
          }
          s := s.(takeCount := s.takeCount + 1);
        case First =>
          if s.takeCount >= 1 {
            return s, Break;
          }
          s := s.(takeCount := s.takeCount + 1);
        case Skip(limit) =>
          if s.skipCount < limit {
            s := s.(skipCount := s.skipCount + 1);
            return s, Continue;
          }
        case TakeWhile(p) =>
          if !p(value) {
            return s, Break;
          }
        case SkipWhile(p) =>
          if !s.passed && p(value) {
            return s, Continue;
          }
          s := s.(passed := true);
        case DistinctUntilChanged(key) =>
          var projected := key(value);
          if s.hasKey && projected == s.lastKey {
            return s, Continue;
          }
          s := s.(lastKey := projected, hasKey := true);
        case TakeUntil(c) =>
          if value == c {
            s := s.(stop := true);
          }
        case SkipUntil(c) =>
          if !s.started {
            if value == c {
              s := s.(started := true);
            } else {
              return s, Continue;
            }
          }
      }
    }
    flow := Next(value);
  }

  lemma AbsorbedResult(t: Terminal, k: Sink, out: seq<int>)
    requires Absorbed(t, k, out)
    ensures ResultList(t, out) ==
            match t
            case NoTerminal => out
            case Reduce(_, _) => [k.accum]
            case Last => if k.hasLast then [k.lastValue] else []
  {
  }

  /** The fused function `call_XX_apply`, whatever follows a takeUntil. */
  method RunDsl(src: DslSource, ops: seq<Op>, t: Terminal, seed: int) returns (result: seq<int>)
    requires OncePerFamily(ops)
    ensures result == ResultList(t, Loop(Dsl, ops, Start(seed), Items(src)).1)
    ensures Accepts(Dsl, ops) ==> result == ResultList(t, PlainChain(ops, seed, Items(src)))
  {
    var items := Items(src);
    var s, k := Start(seed), EmptySink(t);
    if Accepts(Dsl, ops) {
      LoopIsChain(Dsl, ops, s, items);
      FreshChainIsPlain(ops, seed, items);
    }
    ghost var whole := Loop(Dsl, ops, s, items);
    ghost var out: seq<int> := [];
    LoopStart(Dsl, ops, s, items);
    result := [];
    for i := 0 to |items|
      invariant whole == Joined(out, Loop(Dsl, ops, s, items[i..]))
      invariant Absorbed(t, k, out) && result == (if t.NoTerminal? then out else [])
    {
      LoopStep(Dsl, ops, s, items, i, whole, out);
      s := FreshFlags(s);
      var s1, flow := DslBody(ops, s, items[i]);
      s := s1;
      if flow.Break? {
        break;
      }
      if flow.Next? {
        AbsorbMore(t, k, out, flow.value);
        k, out := Absorb(t, k, flow.value), out + [flow.value];
        if t.NoTerminal? {
          result := result + [flow.value];
        }
        if s.stop {
          break;
        }
      }
    }
    LoopEnd(Dsl, ops, s, items, out);
    AbsorbedResult(t, k, out);
    match t {
      case NoTerminal =>
      case Reduce(_, _) => result := [k.accum];
      case Last =>
        if k.hasLast {
          result := [k.lastValue];
        }
    }
  }
}
