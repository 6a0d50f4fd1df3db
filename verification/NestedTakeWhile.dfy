/** takeWhile in the planner's nested loop (core/planner/astgen.c): its `break` leaves
    the inner loop only, so the next row starts again. When that matters, exactly. */
module NestedTakeWhile {
  import opened Lists
  import opened LoopOps
  import opened GeneratedLoops

  // -------------------------------------------------------------- one row

  predicate Passes(p: int -> bool, xs: seq<int>) {
    forall x | x in xs :: p(x)
  }

  /** Some item of the row that reaches a takeWhile of the chain fails it. */
  predicate RowStops(ops: seq<Op>, s: Slots, row: seq<int>) {
    |ops| > 0
    && ((ops[0].TakeWhile? && !Passes(ops[0].p, row)) || RowStops(ops[1..], s, OpList(ops[0], s, row)))
  }

  lemma {:induction false} EmptyRowPasses(ops: seq<Op>, s: Slots)
    ensures !RowStops(ops, s, [])
  {
    if |ops| > 0 {
      OpNil(ops[0], s);
      EmptyRowPasses(ops[1..], s);
    }
  }

  lemma {:induction false} StopsFrame(ops: seq<Op>, a: Slots, b: Slots, row: seq<int>)
    requires forall i | 0 <= i < |ops| :: SameFor(FamilyOf(ops[i]), a, b)
    ensures RowStops(ops, a, row) == RowStops(ops, b, row)
  {
    if |ops| > 0 {
      OpFrame(ops[0], a, b, row);
      StopsFrame(ops[1..], a, b, OpList(ops[0], a, row));
    }
  }

  /** Whether the rest of a chain stops does not depend on its first operator's state. */
  lemma RestStops(ops: seq<Op>, s: Slots, v: int, row: seq<int>)
    requires |ops| > 0 && OncePerFamily(ops)
    ensures RowStops(ops[1..], s, row) == RowStops(ops[1..], Step(ops[0], s, v).0, row)
  {
    var s1 := Step(ops[0], s, v).0;
    forall i | 0 <= i < |ops| - 1
      ensures SameFor(FamilyOf(ops[1..][i]), s, s1)
    {
      assert ops[1..][i] == ops[i + 1];
      if !FamilyOf(ops[i + 1]).NoState? {
        StepFrame(ops[0], s, v, FamilyOf(ops[i + 1]));
      }
    }
    StopsFrame(ops[1..], s, s1, row);
  }

  lemma PassesCons(p: int -> bool, x: int, rest: seq<int>)
    ensures Passes(p, [x] + rest) <==> p(x) && Passes(p, rest)
  {
    assert x in [x] + rest && forall y | y in rest :: y in [x] + rest;
  }

  /** What one item of the row decides: whether the row stops, where it breaks the pass
      without a take being used up; otherwise the rest of the row does. */
  ghost predicate ItemDecides(ops: seq<Op>, s: Slots, x: int, rest: seq<int>) {
    var (s1, flow) := Push(ops, s, x);
    if flow.Break? then RowStops(ops, s, [x] + rest) || Exhausted(ops, s1)
    else RowStops(ops, s, [x] + rest) == RowStops(ops, s1, rest)
  }

  lemma ExhaustedTail(ops: seq<Op>, s: Slots)
    requires |ops| > 0 && Exhausted(ops[1..], s)
    ensures Exhausted(ops, s)
  {
    var i :| 0 <= i < |ops| - 1 && (ops[1..][i].Take? || ops[1..][i].First?) && s.takeCount >= TakeLimit(ops[1..][i]);
    assert ops[i + 1] == ops[1..][i];
  }

  /** The first operator lets the item through. */
  lemma DecidesNext(ops: seq<Op>, s: Slots, x: int, rest: seq<int>)
    requires |ops| > 0 && OncePerFamily(ops) && Step(ops[0], s, x).1.Next?
    requires var (s1, flow) := Step(ops[0], s, x);
             ItemDecides(ops[1..], s1, flow.value, OpList(ops[0], s1, rest))
    ensures ItemDecides(ops, s, x, rest)
  {
    var op := ops[0];
    var (s1, flow) := Step(op, s, x);
    var ys := OpList(op, s1, rest);
    var (s2, end) := Push(ops[1..], s1, flow.value);
    OpCons(op, s, x, rest);
    RestStops(ops, s, x, [flow.value] + ys);
    FirstUnaware(ops, s1, flow.value, rest);
    if op.TakeWhile? {
      PassesCons(op.p, x, rest);
    }
    if end.Break? && Exhausted(ops[1..], s2) {
      ExhaustedTail(ops, s2);
    }
  }

  predicate NoTakeUntil(ops: seq<Op>) {
    forall i | 0 <= i < |ops| :: !ops[i].TakeUntil?
  }

  /** The first operator drops the item, or breaks. */
  lemma DecidesHere(ops: seq<Op>, s: Slots, x: int, rest: seq<int>)
    requires |ops| > 0 && OncePerFamily(ops) && NoTakeUntil(ops) && !Step(ops[0], s, x).1.Next?
    ensures ItemDecides(ops, s, x, rest)
  {
    var op := ops[0];
    var (s1, flow) := Step(op, s, x);
    OpCons(op, s, x, rest);
    RestStops(ops, s, x, OpList(op, s1, rest));
    if op.TakeWhile? {
      PassesCons(op.p, x, rest);
    } else if flow.Break? {
      assert (ops[0].Take? || ops[0].First?) && s1.takeCount >= TakeLimit(ops[0]);
    }
  }

  lemma {:induction false} Decides(ops: seq<Op>, s: Slots, x: int, rest: seq<int>)
    requires OncePerFamily(ops) && NoTakeUntil(ops)
    ensures ItemDecides(ops, s, x, rest)
  {
    if |ops| > 0 {
      var (s1, flow) := Step(ops[0], s, x);
      if flow.Next? {
        OnceTail(ops);
        Decides(ops[1..], s1, flow.value, OpList(ops[0], s1, rest));
        DecidesNext(ops, s, x, rest);
      } else {
        DecidesHere(ops, s, x, rest);
      }
    }
  }

  predicate GoesOn(ops: seq<Op>, s: Slots, x: int) {
    var (s1, flow) := Push(ops, s, x); !flow.Break? && !(flow.Next? && Exhausted(ops, s1))
  }

  /** The chain over a row and what follows it: a row that stops ends everything, any
      other row hands its state on. */
  ghost predicate RowEnds(ops: seq<Op>, s: Slots, xs: seq<int>, ys: seq<int>) {
    var (s1, out) := Loop(Planner, ops, s, xs);
    && !s1.stop
    && ChainList(ops, s, xs + ys) == if RowStops(ops, s, xs) then out else out + ChainList(ops, s1, ys)
  }

  lemma RowBroken(ops: seq<Op>, s: Slots, x: int, rest: seq<int>, ys: seq<int>)
    requires Accepts(Planner, ops) && !s.stop && !GoesOn(ops, s, x)
    ensures RowEnds(ops, s, [x] + rest, ys)
  {
    var (s1, flow) := Push(ops, s, x);
    assert ([x] + rest) + ys == [x] + (rest + ys) && FreshFlags(s) == s;
    PushCons(ops, s, x, rest + ys);
    NoStopSet(ops, s, x);
    Decides(ops, s, x, rest);
    if Exhausted(ops, s1) {
      ExhaustedIsNil(ops, s1, rest + ys);
      ExhaustedIsNil(ops, s1, ys);
    }
  }

  lemma LoopGoesOn(ops: seq<Op>, s: Slots, row: seq<int>)
    requires row != [] && !s.stop && GoesOn(ops, s, row[0])
    ensures var (s1, flow) := Push(ops, s, row[0]);
            var (s2, out) := Loop(Planner, ops, s1, row[1..]);
            Loop(Planner, ops, s, row) == (s2, Emitted(flow) + out)
  {
    assert FreshFlags(s) == s;
    var out := Loop(Planner, ops, Push(ops, s, row[0]).0, row[1..]).1;
    assert [] + out == out;
  }

  lemma ChainGoesOn(ops: seq<Op>, s: Slots, row: seq<int>, ys: seq<int>)
    requires row != [] && OncePerFamily(ops) && !Push(ops, s, row[0]).1.Break?
    ensures var (s1, flow) := Push(ops, s, row[0]);
            ChainList(ops, s, row + ys) == Emitted(flow) + ChainList(ops, s1, row[1..] + ys)
  {
    assert row + ys == [row[0]] + (row[1..] + ys);
    PushCons(ops, s, row[0], row[1..] + ys);
    var more := ChainList(ops, Push(ops, s, row[0]).0, row[1..] + ys);
    assert [] + more == more;
  }

  lemma StopsGoesOn(ops: seq<Op>, s: Slots, row: seq<int>)
    requires row != [] && Accepts(Planner, ops) && GoesOn(ops, s, row[0])
    ensures RowStops(ops, s, row) == RowStops(ops, Push(ops, s, row[0]).0, row[1..])
  {
    assert row == [row[0]] + row[1..];
    Decides(ops, s, row[0], row[1..]);
  }

  /** What the first item emits, joined to what the rest of the row and the rows behind
      come to. */
  lemma RowJoins(ops: seq<Op>, s: Slots, xs: seq<int>, ys: seq<int>, s2: Slots, first: seq<int>, out: seq<int>,
                 later: seq<int>)
    requires Loop(Planner, ops, s, xs) == (s2, first + out) && !s2.stop
    requires ChainList(ops, s, xs + ys) == first + later
    requires later == if RowStops(ops, s, xs) then out else out + ChainList(ops, s2, ys)
    ensures RowEnds(ops, s, xs, ys)
  {
    AppendAssoc(first, out, ChainList(ops, s2, ys));
  }

  lemma RowGoesOn(ops: seq<Op>, s: Slots, row: seq<int>, ys: seq<int>)
    requires row != [] && Accepts(Planner, ops) && !s.stop && GoesOn(ops, s, row[0])
    requires RowEnds(ops, Push(ops, s, row[0]).0, row[1..], ys)
    ensures RowEnds(ops, s, row, ys)
  {
    var (s1, flow) := Push(ops, s, row[0]);
    var (s2, out) := Loop(Planner, ops, s1, row[1..]);
    LoopGoesOn(ops, s, row);
    ChainGoesOn(ops, s, row, ys);
    StopsGoesOn(ops, s, row);
    RowJoins(ops, s, row, ys, s2, Emitted(flow), out, ChainList(ops, s1, row[1..] + ys));
  }

  lemma {:induction false} RowOutcome(ops: seq<Op>, s: Slots, xs: seq<int>, ys: seq<int>)
    requires Accepts(Planner, ops) && !s.stop
    ensures RowEnds(ops, s, xs, ys)
    decreases |xs|
  {
    if xs == [] {
      EmptyRowPasses(ops, s);
      assert xs + ys == ys && [] + ChainList(ops, s, ys) == ChainList(ops, s, ys);
    } else {
      var x, rest := xs[0], xs[1..];
      assert xs == [x] + rest;
      NoStopSet(ops, s, x);
      if GoesOn(ops, s, x) {
        RowOutcome(ops, Push(ops, s, x).0, rest, ys);
        RowGoesOn(ops, s, xs, ys);
      } else {
        RowBroken(ops, s, x, rest, ys);
      }
    }
  }

  // ------------------------------------------------------------- all rows

  /** No later row lets a value through the chain, each row run from the state the
      row before it left. */
  predicate Silent(ops: seq<Op>, s: Slots, rows: seq<seq<int>>)
    decreases |rows|
  {
    rows == [] || (ChainList(ops, s, rows[0]) == [] && Silent(ops, Loop(Planner, ops, s, rows[0]).0, rows[1..]))
  }

  /** Once a row has stopped, the rows behind it are silent. */
  predicate StopsSilently(ops: seq<Op>, s: Slots, rows: seq<seq<int>>)
    decreases |rows|
  {
    rows == []
    || var s1 := Loop(Planner, ops, s, rows[0]).0;
       if RowStops(ops, s, rows[0]) then Silent(ops, s1, rows[1..]) else StopsSilently(ops, s1, rows[1..])
  }

  lemma {:induction false} LoopStops(ops: seq<Op>, s: Slots, xs: seq<int>)
    requires Accepts(Planner, ops) && !s.stop
    ensures !Loop(Planner, ops, s, xs).0.stop
    decreases |xs|
  {
    if xs != [] {
      NoStopSet(ops, FreshFlags(s), xs[0]);
      LoopStops(ops, Push(ops, FreshFlags(s), xs[0]).0, xs[1..]);
    }
  }

  lemma {:induction false} SilentRows(ops: seq<Op>, s: Slots, rows: seq<seq<int>>)
    requires Accepts(Planner, ops) && !s.stop
    ensures Silent(ops, s, rows) <==> LoopRows(ops, s, rows).1 == []
    decreases |rows|
  {
    if rows != [] {
      LoopIsChain(Planner, ops, s, rows[0]);
      LoopStops(ops, s, rows[0]);
      SilentRows(ops, Loop(Planner, ops, s, rows[0]).0, rows[1..]);
    }
  }

  /** For every chain the planner accepts, with any takeWhiles in it, and every rows:
      the nested loop computes the list transforms of all the items exactly when
      nothing comes through any row behind the first one that a takeWhile stops. */
  lemma {:induction false} NestedTakeWhileExact(ops: seq<Op>, s: Slots, rows: seq<seq<int>>)
    requires Accepts(Planner, ops) && !s.stop
    ensures LoopRows(ops, s, rows).1 == ChainList(ops, s, Flatten(rows)) <==> StopsSilently(ops, s, rows)
    decreases |rows|
  {
    if rows == [] {
      ChainNil(ops, s);
    } else {
      var (s1, out) := Loop(Planner, ops, s, rows[0]);
      var more := LoopRows(ops, s1, rows[1..]).1;
      RowOutcome(ops, s, rows[0], Flatten(rows[1..]));
      if RowStops(ops, s, rows[0]) {
        SilentRows(ops, s1, rows[1..]);
        SameTail(out, more, []);
        assert out + [] == out;
      } else {
        NestedTakeWhileExact(ops, s1, rows[1..]);
        SameTail(out, more, ChainList(ops, s1, Flatten(rows[1..])));
      }
    }
  }

  // --------------------------------------- chains without state, on the rows alone

  predicate Stateless(ops: seq<Op>) {
    forall i | 0 <= i < |ops| :: ops[i].Map? || ops[i].Filter? || ops[i].TakeWhile?
  }

  /** No row stops, or behind the first row that does every row comes out empty: a
      condition on each row by itself. */
  predicate RestartsSilent(ops: seq<Op>, s: Slots, rows: seq<seq<int>>) {
    rows == []
    || if RowStops(ops, s, rows[0]) then forall row | row in rows[1..] :: ChainList(ops, s, row) == []
       else RestartsSilent(ops, s, rows[1..])
  }

  lemma {:induction false} StatelessPush(ops: seq<Op>, s: Slots, v: int)
    requires Stateless(ops)
    ensures Push(ops, s, v).0 == s
  {
    if ops != [] {
      var (s1, flow) := Step(ops[0], s, v);
      if flow.Next? {
        StatelessPush(ops[1..], s1, flow.value);
      }
    }
  }

  lemma {:induction false} StatelessLoop(ops: seq<Op>, s: Slots, xs: seq<int>)
    requires Stateless(ops) && !s.stop
    ensures Loop(Planner, ops, s, xs).0 == s
    decreases |xs|
  {
    if xs != [] {
      StatelessPush(ops, FreshFlags(s), xs[0]);
      StatelessLoop(ops, s, xs[1..]);
    }
  }

  lemma EveryRow(ops: seq<Op>, s: Slots, rows: seq<seq<int>>)
    requires rows != []
    ensures (forall row | row in rows :: ChainList(ops, s, row) == []) <==>
            ChainList(ops, s, rows[0]) == [] && forall row | row in rows[1..] :: ChainList(ops, s, row) == []
  {
    assert rows == [rows[0]] + rows[1..];
  }

  lemma {:induction false} StatelessSilent(ops: seq<Op>, s: Slots, rows: seq<seq<int>>)
    requires Stateless(ops) && !s.stop
    ensures Silent(ops, s, rows) <==> forall row | row in rows :: ChainList(ops, s, row) == []
    decreases |rows|
  {
    if rows != [] {
      StatelessLoop(ops, s, rows[0]);
      StatelessSilent(ops, s, rows[1..]);
      EveryRow(ops, s, rows);
    }
  }

  lemma {:induction false} StatelessStops(ops: seq<Op>, s: Slots, rows: seq<seq<int>>)
    requires Stateless(ops) && !s.stop
    ensures StopsSilently(ops, s, rows) <==> RestartsSilent(ops, s, rows)
    decreases |rows|
  {
    if rows != [] {
      StatelessLoop(ops, s, rows[0]);
      StatelessSilent(ops, s, rows[1..]);
      StatelessStops(ops, s, rows[1..]);
    }
  }

  /** Maps, filters and takeWhiles in any order: the nested loop computes the list
      transforms exactly when restarting at every row lets nothing more through. */
  lemma StatelessTakeWhileExact(ops: seq<Op>, seed: int, rows: seq<seq<int>>)
    requires Stateless(ops)
    ensures LoopRows(ops, Start(seed), rows).1 == ChainList(ops, Start(seed), Flatten(rows)) <==>
            RestartsSilent(ops, Start(seed), rows)
  {
    NestedTakeWhileExact(ops, Start(seed), rows);
    StatelessStops(ops, Start(seed), rows);
  }

  /** One takeWhile with maps and filters in front of it and maps behind. */
  function Around(pre: seq<Op>, p: int -> bool, post: seq<Op>): seq<Op> {
    pre + ([TakeWhile(p)] + post)
  }

  predicate MapsAndFilters(ops: seq<Op>) {
    forall i | 0 <= i < |ops| :: ops[i].Map? || ops[i].Filter?
  }

  predicate OnlyMaps(ops: seq<Op>) {
    forall i | 0 <= i < |ops| :: ops[i].Map?
  }

  predicate HeadFails(p: int -> bool, xs: seq<int>) {
    xs == [] || !p(xs[0])
  }

  /** Every row passes the takeWhile entirely, or behind the first row with an item
      that fails it, every row is empty or starts with an item that fails: all of it
      judged on what the maps and filters in front make of the row. */
  predicate HeadsFail(pre: seq<Op>, p: int -> bool, s: Slots, rows: seq<seq<int>>) {
    rows == []
    || if Passes(p, ChainList(pre, s, rows[0])) then HeadsFail(pre, p, s, rows[1..])
       else forall row | row in rows[1..] :: HeadFails(p, ChainList(pre, s, row))
  }

  lemma {:induction false} ChainConcat(a: seq<Op>, b: seq<Op>, s: Slots, xs: seq<int>)
    ensures ChainList(a + b, s, xs) == ChainList(b, s, ChainList(a, s, xs))
    decreases |a|
  {
    if a == [] {
      assert a + b == b;
    } else {
      assert (a + b)[1..] == a[1..] + b;
      ChainConcat(a[1..], b, s, OpList(a[0], s, xs));
    }
  }

  lemma {:induction false} MapsKeepLength(ops: seq<Op>, s: Slots, xs: seq<int>)
    requires OnlyMaps(ops)
    ensures |ChainList(ops, s, xs)| == |xs|
    decreases |ops|
  {
    if ops != [] {
      MapsKeepLength(ops[1..], s, OpList(ops[0], s, xs));
    }
  }

  lemma {:induction false} MapsNeverStop(ops: seq<Op>, s: Slots, row: seq<int>)
    requires OnlyMaps(ops)
    ensures !RowStops(ops, s, row)
    decreases |ops|
  {
    if ops != [] {
      MapsNeverStop(ops[1..], s, OpList(ops[0], s, row));
    }
  }

  lemma {:induction false} AroundStops(pre: seq<Op>, p: int -> bool, post: seq<Op>, s: Slots, row: seq<int>)
    requires MapsAndFilters(pre) && OnlyMaps(post)
    ensures RowStops(Around(pre, p, post), s, row) <==> !Passes(p, ChainList(pre, s, row))
    decreases |pre|
  {
    var ops := Around(pre, p, post);
    if pre == [] {
      assert ops[0] == TakeWhile(p) && ops[1..] == post;
      MapsNeverStop(post, s, OpList(ops[0], s, row));
    } else {
      assert ops[0] == pre[0] && ops[1..] == Around(pre[1..], p, post);
      AroundStops(pre[1..], p, post, s, OpList(pre[0], s, row));
    }
  }

  /** A row comes out empty exactly when nothing, or first an item that fails,
      reaches the takeWhile. */
  lemma RowSilent(pre: seq<Op>, p: int -> bool, post: seq<Op>, s: Slots, row: seq<int>)
    requires OnlyMaps(post)
    ensures ChainList(Around(pre, p, post), s, row) == [] <==> HeadFails(p, ChainList(pre, s, row))
  {
    var seen := ChainList(pre, s, row);
    ChainConcat(pre, [TakeWhile(p)] + post, s, row);
    assert ([TakeWhile(p)] + post)[1..] == post;
    MapsKeepLength(post, s, Lists.TakeWhile(p, seen));
  }

  lemma {:induction false} HeadsDecide(pre: seq<Op>, p: int -> bool, post: seq<Op>, s: Slots, rows: seq<seq<int>>)
    requires MapsAndFilters(pre) && OnlyMaps(post)
    ensures RestartsSilent(Around(pre, p, post), s, rows) <==> HeadsFail(pre, p, s, rows)
    decreases |rows|
  {
    if rows != [] {
      AroundStops(pre, p, post, s, rows[0]);
      HeadsDecide(pre, p, post, s, rows[1..]);
      forall row
        ensures ChainList(Around(pre, p, post), s, row) == [] <==> HeadFails(p, ChainList(pre, s, row))
      {
        RowSilent(pre, p, post, s, row);
      }
    }
  }

  /** Maps and filters, takeWhile, maps: the condition is one on the items that stand
      first in the rows. */
  lemma OneTakeWhileExact(pre: seq<Op>, p: int -> bool, post: seq<Op>, seed: int, rows: seq<seq<int>>)
    requires MapsAndFilters(pre) && OnlyMaps(post)
    ensures LoopRows(Around(pre, p, post), Start(seed), rows).1 ==
            ChainList(Around(pre, p, post), Start(seed), Flatten(rows)) <==>
            HeadsFail(pre, p, Start(seed), rows)
  {
    var ops := Around(pre, p, post);
    forall i | 0 <= i < |ops|
      ensures ops[i].Map? || ops[i].Filter? || ops[i].TakeWhile?
    {
      if i < |pre| {
        assert ops[i] == pre[i];
      } else if i > |pre| {
        assert ops[i] == post[i - |pre| - 1];
      }
    }
    StatelessTakeWhileExact(ops, seed, rows);
    HeadsDecide(pre, p, post, Start(seed), rows);
  }

  // ------------------------------------------------------------- a difference

  lemma {:induction false} CountIsLength(f: (int, int) -> int, n: int, xs: seq<int>)
    requires forall a, x :: f(a, x) == a + 1
    ensures Fold(f, n, xs) == n + |xs|
    decreases |xs|
  {
    if xs != [] {
      CountIsLength(f, f(n, xs[0]), xs[1..]);
    }
  }

  lemma PushOne(ops: seq<Op>, s: Slots, v: int)
    requires |ops| == 1 && ops[0].TakeWhile?
    ensures Push(ops, s, v) == (s, if ops[0].p(v) then Next(v) else Break)
  {
  }

  lemma {:induction false} RestartedRows(src: Source, ops: seq<Op>, s: Slots, inner: nat, right: nat)
    requires src.ZipMergeMapRange? && src.n == 2 && src.inner == inner && right <= inner
    requires forall l, r, k :: src.tripleMap(l, r, k) == l
    requires |ops| == 1 && ops[0].TakeWhile? && (forall x :: ops[0].p(x) == (x < 2)) && !s.stop
    ensures |LoopRows(ops, s, RowsFrom(src, right)).1| == inner - right
    decreases inner - right
  {
    if right < inner {
      var rows := RowsFrom(src, right);
      var row := Row(src, right + 1);
      assert rows[0] == row && rows[1..] == RowsFrom(src, right + 1);
      assert row == [1, 2] && row[1..] == [2] && ops[1..] == [] && FreshFlags(s) == s;
      PushOne(ops, s, 1);
      PushOne(ops, s, 2);
      assert Loop(Planner, ops, s, [2]) == (s, []);
      assert !Exhausted(ops, s) && Loop(Planner, ops, s, row[1..]) == (s, []);
      assert Loop(Planner, ops, s, row) == (s, [1] + []);
      RestartedRows(src, ops, s, inner, right + 1);
    }
  }

  lemma FirstOfAll(src: Source, p: int -> bool, ops: seq<Op>)
    requires src.ZipMergeMapRange? && src.n == 2 && src.inner >= 2 && ops == [TakeWhile(p)]
    requires (forall l, r, k :: src.tripleMap(l, r, k) == l) && forall x :: p(x) == (x < 2)
    ensures ChainList(ops, Start(0), Flatten(RowsFrom(src, 0))) == [1]
  {
    assert Row(src, 1) == [1, 2];
    var all := Flatten(RowsFrom(src, 0));
    assert RowsFrom(src, 0)[0] == Row(src, 1);
    assert all[0] == 1 && all[1] == 2;
    assert Lists.TakeWhile(p, all) == [1] + Lists.TakeWhile(p, all[1..]) == [1];
    assert ops[1..] == [];
  }

  /** The predicate fails for every number of rows from two on where the rows are 1, 2
      and the takeWhile keeps what is below 2: the count of the items comes out as the
      number of rows, where the list transform stops after the first item of all. */
  lemma NestedTakeWhileDiffers(inner: nat)
    requires inner >= 2
    ensures var src := ZipMergeMapRange(2, inner, (l: int, r: int, right: int) => l);
            var p := (x: int) => x < 2;
            var ops := Around([], p, []);
            var count := Reduce((n: int, x: int) => n + 1, 0);
            && !HeadsFail([], p, Start(0), RowsFrom(src, 0))
            && Scalar(count, LoopRows(ops, Start(0), RowsFrom(src, 0)).1) == inner
            && Scalar(count, ChainList(ops, Start(0), Flatten(RowsFrom(src, 0)))) == 1
  {
    var src := ZipMergeMapRange(2, inner, (l: int, r: int, right: int) => l);
    var p := (x: int) => x < 2;
    var ops, f := Around([], p, []), (n: int, x: int) => n + 1;
    assert ops == [TakeWhile(p)];
    RestartedRows(src, ops, Start(0), inner, 0);
    CountIsLength(f, 0, LoopRows(ops, Start(0), RowsFrom(src, 0)).1);
    FirstOfAll(src, p, ops);
    CountIsLength(f, 0, [1]);
    OneTakeWhileExact([], p, [], 0, RowsFrom(src, 0));
  }
}
