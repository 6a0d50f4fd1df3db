/** takeUntil in the DSL's fused function (core/tools/dsl_codegen.c): its flag
    `break_after_emit` is only tested where the body ends, so an operator behind it
    that drops the stopping item makes the loop go on. When that matters, exactly. */
module StopFlag {
  import opened Lists
  import opened LoopOps

  function Same(x: int): int { x }

  /** The chain with its takeUntil taken out. */
  function Unstopped(ops: seq<Op>): (r: seq<Op>)
    ensures |r| == |ops|
    ensures forall i | 0 <= i < |ops| :: r[i] == if ops[i].TakeUntil? then Map(Same) else ops[i]
  {
    seq(|ops|, i requires 0 <= i < |ops| => if ops[i].TakeUntil? then Map(Same) else ops[i])
  }

  /** The first item that sets the flag is not dropped behind the takeUntil. */
  predicate Heard(ops: seq<Op>, s: Slots, xs: seq<int>)
    decreases |xs|
  {
    xs == []
    || var (s1, flow) := Push(ops, s, xs[0]);
       if s1.stop then !flow.Continue? else flow.Break? || Heard(ops, s1, xs[1..])
  }

  // -------------------------------------------------- one pass without the flag

  lemma UnstoppedOnce(ops: seq<Op>)
    requires OncePerFamily(ops)
    ensures OncePerFamily(Unstopped(ops))
  {
  }

  lemma UnstoppedTail(ops: seq<Op>)
    requires ops != []
    ensures Unstopped(ops)[1..] == Unstopped(ops[1..])
  {
  }

  predicate NoTakeUntil(ops: seq<Op>) {
    forall i | 0 <= i < |ops| :: !ops[i].TakeUntil?
  }

  lemma StepFlag(op: Op, s: Slots, v: int, b: bool)
    requires !op.TakeUntil?
    ensures var (s1, flow) := Step(op, s, v);
            Step(op, s.(stop := b), v) == (s1.(stop := b), flow)
  {
  }

  /** Without a takeUntil the flag is neither read nor written. */
  lemma {:induction false} PushFlag(ops: seq<Op>, s: Slots, v: int, b: bool)
    requires NoTakeUntil(ops)
    ensures var (s1, flow) := Push(ops, s, v);
            Push(ops, s.(stop := b), v) == (s1.(stop := b), flow)
  {
    if ops != [] {
      StepFlag(ops[0], s, v, b);
      var (s1, flow) := Step(ops[0], s, v);
      if flow.Next? {
        PushFlag(ops[1..], s1, flow.value, b);
      }
    }
  }

  lemma NoneBehind(ops: seq<Op>)
    requires OncePerFamily(ops) && ops != [] && ops[0].TakeUntil?
    ensures NoTakeUntil(ops[1..])
  {
    forall i | 0 <= i < |ops| - 1
      ensures !ops[1..][i].TakeUntil?
    {
      assert ops[1..][i] == ops[i + 1] && FamilyOf(ops[0]) == StopState;
    }
  }

  lemma UnstoppedIsSame(ops: seq<Op>)
    requires NoTakeUntil(ops)
    ensures Unstopped(ops) == ops
  {
  }

  /** With the takeUntil out a pass goes the same way, but for the flag. */
  lemma {:induction false} UnstoppedPush(ops: seq<Op>, s: Slots, v: int)
    requires OncePerFamily(ops) && !s.stop
    ensures var (s1, flow) := Push(ops, s, v);
            Push(Unstopped(ops), s, v) == (s1.(stop := false), flow)
  {
    if ops != [] {
      var (s1, flow) := Step(ops[0], s, v);
      UnstoppedTail(ops);
      OnceTail(ops);
      if ops[0].TakeUntil? {
        NoneBehind(ops);
        UnstoppedIsSame(ops[1..]);
        PushFlag(ops[1..], s1, v, false);
        assert s1.(stop := false) == s;
      } else {
        StepFlag(ops[0], s, v, false);
        if flow.Next? {
          UnstoppedPush(ops[1..], s1, flow.value);
        }
      }
    }
  }

  // ------------------------------------------------------------------ the loop

  /** One pass and the rest, for the chain and for the chain without the takeUntil. */
  lemma BothCons(ops: seq<Op>, s: Slots, x: int, rest: seq<int>)
    requires OncePerFamily(ops) && !s.stop
    ensures var (s1, flow) := Push(ops, s, x);
            && ChainList(ops, s, [x] + rest) ==
               (if flow.Break? then [] else Emitted(flow) + ChainList(ops, s1, rest))
            && ChainList(Unstopped(ops), s, [x] + rest) ==
               (if flow.Break? then [] else Emitted(flow) + ChainList(Unstopped(ops), s1.(stop := false), rest))
  {
    var (s1, flow) := Push(ops, s, x);
    PushCons(ops, s, x, rest);
    UnstoppedOnce(ops);
    UnstoppedPush(ops, s, x);
    PushCons(Unstopped(ops), s, x, rest);
    var a, b := ChainList(ops, s1, rest), ChainList(Unstopped(ops), s1.(stop := false), rest);
    assert [] + a == a && [] + b == b;
  }

  /** The flag is fresh for every item. */
  lemma LoopRefreshes(ops: seq<Op>, s: Slots, xs: seq<int>)
    ensures Loop(Dsl, ops, s, xs).1 == Loop(Dsl, ops, s.(stop := false), xs).1
  {
    assert FreshFlags(s) == FreshFlags(s.(stop := false));
  }

  lemma LoopCons(ops: seq<Op>, s: Slots, x: int, rest: seq<int>)
    requires !s.stop
    ensures var (s1, flow) := Push(ops, s, x);
            Loop(Dsl, ops, s, [x] + rest).1 ==
            if flow.Break? then []
            else if flow.Next? && s1.stop then [flow.value]
            else Emitted(flow) + Loop(Dsl, ops, s1.(stop := false), rest).1
  {
    var (s1, flow) := Push(ops, s, x);
    assert ([x] + rest)[1..] == rest && FreshFlags(s) == s;
    LoopRefreshes(ops, s1, rest);
    var more := Loop(Dsl, ops, s1, rest).1;
    assert [] + more == more;
  }

  /** The loop emits nothing exactly when the chain without the takeUntil does not. */
  lemma {:induction false} LoopSilent(ops: seq<Op>, s: Slots, xs: seq<int>)
    requires OncePerFamily(ops) && !s.stop
    ensures Loop(Dsl, ops, s, xs).1 == [] <==> ChainList(Unstopped(ops), s, xs) == []
    decreases |xs|
  {
    if xs == [] {
      ChainNil(Unstopped(ops), s);
    } else {
      assert xs == [xs[0]] + xs[1..];
      BothCons(ops, s, xs[0], xs[1..]);
      LoopCons(ops, s, xs[0], xs[1..]);
      LoopSilent(ops, Push(ops, s, xs[0]).0.(stop := false), xs[1..]);
    }
  }

  /** Whatever stands around the takeUntil, the DSL's loop computes the list transforms
      exactly when the first item that sets the flag is not dropped, or the takeUntil
      makes no difference to the list transforms of these items. */
  lemma {:induction false} TakeUntilExact(ops: seq<Op>, s: Slots, xs: seq<int>)
    requires OncePerFamily(ops) && !s.stop
    ensures Loop(Dsl, ops, s, xs).1 == ChainList(ops, s, xs) <==>
            Heard(ops, s, xs) || ChainList(Unstopped(ops), s, xs) == ChainList(ops, s, xs)
    decreases |xs|
  {
    if xs == [] {
      ChainNil(ops, s);
    } else {
      var x, rest := xs[0], xs[1..];
      var (s1, flow) := Push(ops, s, x);
      assert xs == [x] + rest;
      BothCons(ops, s, x, rest);
      LoopCons(ops, s, x, rest);
      if s1.stop {
        var at := StopSet(ops, s, x);
        StoppedIsNil(ops, s1, rest, at);
        LoopSilent(ops, s1.(stop := false), rest);
      } else if !flow.Break? {
        assert s1.(stop := false) == s1;
        TakeUntilExact(ops, s1, rest);
        var all := ChainList(ops, s1, rest);
        SameTail(Emitted(flow), Loop(Dsl, ops, s1, rest).1, all);
        SameTail(Emitted(flow), ChainList(Unstopped(ops), s1, rest), all);
      }
    }
  }

  // ------------------------------------------------------- takeUntil, then filter

  /** What follows the first `c`. */
  function AfterFirst(c: int, xs: seq<int>): seq<int> {
    if xs == [] then [] else if xs[0] == c then xs[1..] else AfterFirst(c, xs[1..])
  }

  lemma FilterCons(p: int -> bool, x: int, xs: seq<int>)
    ensures Lists.Filter(p, [x] + xs) == (if p(x) then [x] else []) + Lists.Filter(p, xs)
  {
  }

  lemma {:induction false} FilterThroughFirst(p: int -> bool, c: int, xs: seq<int>)
    ensures Lists.Filter(p, xs) == Lists.Filter(p, ThroughFirst(c, xs)) + Lists.Filter(p, AfterFirst(c, xs))
    decreases |xs|
  {
    if xs != [] {
      var kept := if p(xs[0]) then [xs[0]] else [];
      if xs[0] == c {
        FilterCons(p, c, []);
        assert [c] + [] == [c] && kept + [] == kept;
      } else {
        FilterCons(p, xs[0], ThroughFirst(c, xs[1..]));
        FilterThroughFirst(p, c, xs[1..]);
        AppendAssoc(kept, Lists.Filter(p, ThroughFirst(c, xs[1..])), Lists.Filter(p, AfterFirst(c, xs[1..])));
      }
    }
  }

  lemma UntilThenFilter(c: int, p: int -> bool, s: Slots, v: int)
    requires !s.stop
    ensures var (s1, flow) := Push([TakeUntil(c), Filter(p)], s, v);
            s1 == s.(stop := v == c) && flow == if p(v) then Next(v) else Continue
  {
    var ops := [TakeUntil(c), Filter(p)];
    assert ops[1..] == [Filter(p)] && [Filter(p)][1..] == [];
    assert Push([Filter(p)], s.(stop := v == c), v) ==
           (s.(stop := v == c), if p(v) then Next(v) else Continue);
  }

  lemma {:induction false} FilterHears(c: int, p: int -> bool, s: Slots, xs: seq<int>)
    requires !s.stop
    ensures Heard([TakeUntil(c), Filter(p)], s, xs) <==> p(c) || c !in xs
    decreases |xs|
  {
    if xs != [] {
      UntilThenFilter(c, p, s, xs[0]);
      if xs[0] != c {
        FilterHears(c, p, s, xs[1..]);
      }
    }
  }

  lemma {:induction false} NothingAfter(c: int, xs: seq<int>)
    requires c !in xs
    ensures AfterFirst(c, xs) == []
  {
    if xs != [] {
      NothingAfter(c, xs[1..]);
    }
  }

  lemma ChainOne(op: Op, s: Slots, xs: seq<int>)
    ensures ChainList([op], s, xs) == OpList(op, s, xs)
  {
    assert [op][1..] == [];
  }

  lemma FilterChains(c: int, p: int -> bool, s: Slots, xs: seq<int>)
    requires !s.stop
    ensures ChainList([TakeUntil(c), Filter(p)], s, xs) == Lists.Filter(p, ThroughFirst(c, xs))
    ensures ChainList(Unstopped([TakeUntil(c), Filter(p)]), s, xs) == Lists.Filter(p, xs)
  {
    var ops := [TakeUntil(c), Filter(p)];
    assert ops[1..] == [Filter(p)] && [Filter(p)][1..] == [];
    var open := Unstopped(ops);
    assert open[0] == Map(Same) && open[1..] == [Filter(p)];
    assert OpList(open[0], s, xs) == Lists.Map(Same, xs) == xs;
    ChainOne(Filter(p), s, xs);
    ChainOne(Filter(p), s, ThroughFirst(c, xs));
  }

  /** takeUntil(c) then filter(p) in the DSL is the list transform exactly when the
      filter lets `c` through or passes nothing that follows the first `c`. */
  lemma FilterAfterTakeUntilExact(c: int, p: int -> bool, seed: int, xs: seq<int>)
    ensures Loop(Dsl, [TakeUntil(c), Filter(p)], Start(seed), xs).1 ==
            ChainList([TakeUntil(c), Filter(p)], Start(seed), xs)
            <==> p(c) || Lists.Filter(p, AfterFirst(c, xs)) == []
  {
    var ops, s := [TakeUntil(c), Filter(p)], Start(seed);
    TakeUntilExact(ops, s, xs);
    FilterHears(c, p, s, xs);
    FilterChains(c, p, s, xs);
    FilterThroughFirst(p, c, xs);
    var kept := Lists.Filter(p, ThroughFirst(c, xs));
    SameTail(kept, Lists.Filter(p, AfterFirst(c, xs)), []);
    assert kept + [] == kept;
    if c !in xs {
      NothingAfter(c, xs);
    }
  }

  /** takeUntil(5), then a filter that drops 5, on 5, 1: the loop goes on to the 1. */
  lemma DroppedStopDiffers(seed: int)
    ensures var ops := [TakeUntil(5), Filter((x: int) => x < 5)];
            && Loop(Dsl, ops, Start(seed), [5, 1]).1 == [1]
            && ChainList(ops, Start(seed), [5, 1]) == []
  {
    var p := (x: int) => x < 5;
    var ops, s := [TakeUntil(5), Filter(p)], Start(seed);
    UntilThenFilter(5, p, s, 5);
    UntilThenFilter(5, p, s, 1);
    LoopCons(ops, s, 5, [1]);
    LoopCons(ops, s, 1, []);
    assert [5] + [1] == [5, 1] && [1] + [] == [1];
    FilterChains(5, p, s, [5, 1]);
    assert ThroughFirst(5, [5, 1]) == [5];
  }
}
