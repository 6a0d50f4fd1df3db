/** The executors compared with one another: the runtime's fused loop, and the
    planner's and the DSL's generated loops. */
module Engines {
  import opened Lists
  import LoopOps
  import Streams

  // --------------------------------------------- the runtime and the generators

  /** The operators that the runtime and both generators handle item by item. */
  predicate Shared(op: LoopOps.Op) {
    op.Map? || op.Filter? || op.Scan? || op.SkipWhile? || op.DistinctUntilChanged?
  }

  function StageOf(op: LoopOps.Op): Streams.Stage
    requires Shared(op)
  {
    match op
    case Map(f) => Streams.Stage.Map(f)
    case Filter(p) => Streams.Stage.Filter(p)
    case Scan(acc) => Streams.Stage.Scan(acc)
    case SkipWhile(p) => Streams.Stage.SkipWhile(p)
    case DistinctUntilChanged(key) => Streams.Stage.DistinctUntilChanged(key)
  }

  function StagesOf(ops: seq<LoopOps.Op>): (r: seq<Streams.Stage>)
    requires forall op | op in ops :: Shared(op)
    ensures |r| == |ops|
    ensures Streams.AllPerItem(r)
  {
    if |ops| == 0 then [] else [StageOf(ops[0])] + StagesOf(ops[1..])
  }

  /** Contexts as a fresh chain has them, every scan with its seed. */
  function FreshCtxs(n: nat, seed: int): (r: seq<Streams.Ctx>)
    ensures |r| == n
  {
    if n == 0 then [] else [Streams.Ctx(seed, Streams.NULL, false)] + FreshCtxs(n - 1, seed)
  }

  /** Every distinctUntilChanged meets a first key other than NULL, or no item. */
  predicate KeysStartNonNull(ops: seq<LoopOps.Op>, seed: int, xs: seq<int>) {
    |ops| > 0 ==>
      && (ops[0].DistinctUntilChanged? && xs != [] ==> ops[0].key(xs[0]) != Streams.NULL)
      && KeysStartNonNull(ops[1..], seed, LoopOps.PlainOp(ops[0], seed, xs))
  }

  /** The runtime starts a distinctUntilChanged with the last key NULL, the generators
      with none: they agree exactly when the first key is not NULL. */
  lemma NullKeyExact(key: int -> int, xs: seq<int>)
    ensures Dedup(key, Some(Streams.NULL), xs) == Dedup(key, None, xs) <==>
            xs == [] || key(xs[0]) != Streams.NULL
  {
  }

  lemma StageIsOp(op: LoopOps.Op, seed: int, xs: seq<int>)
    requires Shared(op) && Streams.SENTINEL !in xs
    requires op.DistinctUntilChanged? && xs != [] ==> op.key(xs[0]) != Streams.NULL
    ensures Streams.ApplyStage(StageOf(op), Streams.Ctx(seed, Streams.NULL, false), xs).1 ==
            LoopOps.PlainOp(op, seed, xs)
  {
    Streams.ActivePrefix(xs);
    LoopOps.FreshIsPlain(op, seed, xs);
    if op.DistinctUntilChanged? {
      NullKeyExact(op.key, xs);
    }
  }

  lemma {:induction false} StagedIsChain(ops: seq<LoopOps.Op>, seed: int, xs: seq<int>)
    requires forall op | op in ops :: Shared(op)
    requires Streams.TokenFree(StagesOf(ops), FreshCtxs(|ops|, seed), xs)
    requires KeysStartNonNull(ops, seed, xs)
    ensures Streams.Staged(StagesOf(ops), FreshCtxs(|ops|, seed), xs).1 ==
            LoopOps.PlainChain(ops, seed, xs)
    decreases |ops|
  {
    if |ops| > 0 {
      var stages, cs := StagesOf(ops), FreshCtxs(|ops|, seed);
      assert stages[1..] == StagesOf(ops[1..]) && cs[1..] == FreshCtxs(|ops| - 1, seed);
      StageIsOp(ops[0], seed, xs);
      StagedIsChain(ops[1..], seed, LoopOps.PlainOp(ops[0], seed, xs));
    }
  }

  /** One chain, four executors, one answer: the runtime's per-item loop, the
      planner's loop, the DSL's loop, and the operators as list transforms. */
  lemma EnginesAgree(ops: seq<LoopOps.Op>, seed: int, xs: seq<int>)
    requires (forall op | op in ops :: Shared(op)) && LoopOps.OncePerFamily(ops)
    requires Streams.TokenFree(StagesOf(ops), FreshCtxs(|ops|, seed), xs)
    requires KeysStartNonNull(ops, seed, xs)
    ensures Streams.PushAll(StagesOf(ops), FreshCtxs(|ops|, seed), xs).1 ==
            LoopOps.PlainChain(ops, seed, xs)
    ensures LoopOps.Loop(LoopOps.Planner, ops, LoopOps.Start(seed), xs).1 ==
            LoopOps.PlainChain(ops, seed, xs)
    ensures LoopOps.Loop(LoopOps.Dsl, ops, LoopOps.Start(seed), xs).1 ==
            LoopOps.PlainChain(ops, seed, xs)
  {
    Streams.PushAllIsStaged(StagesOf(ops), FreshCtxs(|ops|, seed), xs);
    StagedIsChain(ops, seed, xs);
    forall i | 0 <= i < |ops|
      ensures Shared(ops[i])
    {
      assert ops[i] in ops;
    }
    LoopOps.LoopIsChain(LoopOps.Planner, ops, LoopOps.Start(seed), xs);
    LoopOps.LoopIsChain(LoopOps.Dsl, ops, LoopOps.Start(seed), xs);
    LoopOps.FreshChainIsPlain(ops, seed, xs);
  }

  /** An item whose key is NULL, first of all: the runtime's distinctUntilChanged drops
      it, the planner's loop lets it through. */
  lemma NullKeyDiffers(key: int -> int, x: int, seed: int)
    requires key(x) == Streams.NULL && x != Streams.SENTINEL
    ensures var ops := [LoopOps.DistinctUntilChanged(key)];
            && Streams.PushAll(StagesOf(ops), FreshCtxs(1, seed), [x]).1 == []
            && LoopOps.Loop(LoopOps.Planner, ops, LoopOps.Start(seed), [x]).1 == [x]
  {
    var ops := [LoopOps.DistinctUntilChanged(key)];
    var stages, cs := StagesOf(ops), FreshCtxs(1, seed);
    assert ops[1..] == [] && stages == [Streams.Stage.DistinctUntilChanged(key)];
    assert cs == [Streams.Ctx(seed, Streams.NULL, false)];
    assert Streams.Push(stages, cs, x).1 == None;
    assert [x][1..] == [];
    assert LoopOps.OncePerFamily(ops) && LoopOps.Accepts(LoopOps.Planner, ops);
    LoopOps.LoopIsChain(LoopOps.Planner, ops, LoopOps.Start(seed), [x]);
    assert LoopOps.ChainList(ops, LoopOps.Start(seed), [x]) == Dedup(key, None, [x]);
  }
}
