/** The runtime executor of core/src/observable.c: an observable whose methods
    update its stage contexts, its data list and its flags in place, each proved
    against the functions of Streams. */
module Observables {
  import opened Lists
  import opened Streams

  // -------------------------------------------------- pipeline compilation

  /** A compiled stage and where it starts in the chain; a stage's context is the
      one at that place. */
  datatype CompiledStage = Single(at: nat, stage: Stage) | MapChain(at: nat, funcs: seq<int -> int>)
  {
    function Width(): nat {
      if Single? then 1 else |funcs|
    }

    /** The stages it stands for. */
    function Expand(): (r: seq<Stage>)
      ensures |r| == Width()
    {
      if Single? then [stage] else MapStages(funcs)
    }

    predicate IsMap() { MapChain? || stage.Map? }
  }

  datatype CompiledPipeline = CompiledPipeline(
    stages: seq<CompiledStage>, streamable: bool, mergeThenStreamable: bool)

  /** Where compiled stage `k` starts in the chain; the end of the chain for the last. */
  function StartOf(stages: seq<CompiledStage>, chain: seq<Stage>, k: nat): nat
    requires k <= |stages|
  {
    if k < |stages| then stages[k].at else |chain|
  }

  /** Compiled stage `j` holds the stages of the chain from `at` up to where the
      next one starts; a merged run holds at least two maps. */
  ghost predicate Faithful(stages: seq<CompiledStage>, chain: seq<Stage>, j: nat)
    requires j < |stages|
  {
    var s := stages[j];
    var next := StartOf(stages, chain, j + 1);
    && s.at + s.Width() == next <= |chain|
    && chain[s.at..next] == s.Expand()
    && (s.MapChain? ==> |s.funcs| >= 2)
  }

  /** `stages` is `chain` with its maximal runs of maps merged. */
  ghost predicate Compiles(stages: seq<CompiledStage>, chain: seq<Stage>) {
    && (if |stages| == 0 then |chain| == 0 else stages[0].at == 0)
    && (forall j | 0 <= j < |stages| :: Faithful(stages, chain, j))
    && (forall j | 0 < j < |stages| :: !(stages[j - 1].IsMap() && stages[j].IsMap()))
  }

  function ExpandAll(stages: seq<CompiledStage>): seq<Stage> {
    if |stages| == 0 then [] else ExpandAll(stages[..|stages| - 1]) + stages[|stages| - 1].Expand()
  }

  lemma ExpandStep(stages: seq<CompiledStage>, k: nat)
    requires 0 < k <= |stages|
    ensures ExpandAll(stages[..k]) == ExpandAll(stages[..k - 1]) + stages[k - 1].Expand()
  {
    assert stages[..k][..k - 1] == stages[..k - 1] && stages[..k][k - 1] == stages[k - 1];
  }

  /** One more compiled stage expands to one more stretch of the chain. */
  lemma StretchStep(stages: seq<CompiledStage>, chain: seq<Stage>, k: nat)
    requires 0 < k <= |stages| && Faithful(stages, chain, k - 1)
    ensures stages[k - 1].at <= StartOf(stages, chain, k) <= |chain|
    ensures chain[..StartOf(stages, chain, k)] == chain[..stages[k - 1].at] + stages[k - 1].Expand()
  {
    var start, end := stages[k - 1].at, StartOf(stages, chain, k);
    assert chain[..end] == chain[..start] + chain[start..end];
  }

  /** Compilation loses nothing: expanded, the compiled stages are the chain. */
  lemma {:induction false} CompilationLosesNothing(stages: seq<CompiledStage>, chain: seq<Stage>, k: nat)
    requires Compiles(stages, chain) && k <= |stages|
    ensures var end := StartOf(stages, chain, k);
            end <= |chain| && ExpandAll(stages[..k]) == chain[..end]
    ensures k == |stages| ==> ExpandAll(stages) == chain
  {
    if k > 0 {
      CompilationLosesNothing(stages, chain, k - 1);
      ExpandStep(stages, k);
      StretchStep(stages, chain, k);
    } else if |stages| > 0 {
      assert Faithful(stages, chain, 0);
    }
    assert stages[..|stages|] == stages && chain[..|chain|] == chain;
  }

  /** The functions of the maximal run of maps that starts at `start`. */
  method MapRun(chain: seq<Stage>, start: nat) returns (run: seq<int -> int>)
    requires start < |chain|
    ensures start + |run| <= |chain|
    ensures chain[start..start + |run|] == MapStages(run)
    ensures start + |run| < |chain| ==> !chain[start + |run|].Map?
  {
    run := [];
    var scan := start;
    while scan < |chain| && chain[scan].Map?
      invariant scan == start + |run| <= |chain|
      invariant chain[start..scan] == MapStages(run)
    {
      assert chain[start..scan + 1] == chain[start..scan] + [chain[scan]];
      run := run + [chain[scan].f];
      scan := scan + 1;
    }
  }

  /** Compiled so far: the chain up to `upTo`. */
  ghost predicate CompiledUpTo(stages: seq<CompiledStage>, chain: seq<Stage>, upTo: nat) {
    upTo <= |chain| && Compiles(stages, chain[..upTo])
  }

  lemma CompiledMore(stages: seq<CompiledStage>, chain: seq<Stage>, upTo: nat, s: CompiledStage)
    requires CompiledUpTo(stages, chain, upTo) && s.at == upTo && upTo + s.Width() <= |chain|
    requires chain[upTo..upTo + s.Width()] == s.Expand() && (s.MapChain? ==> |s.funcs| >= 2)
    requires |stages| > 0 ==> !(stages[|stages| - 1].IsMap() && s.IsMap())
    ensures CompiledUpTo(stages + [s], chain, upTo + s.Width())
  {
    var all, more := stages + [s], chain[..upTo + s.Width()];
    forall j | 0 <= j < |all|
      ensures Faithful(all, more, j)
    {
      if j < |stages| {
        assert Faithful(stages, chain[..upTo], j);
        var next := if j + 1 < |stages| then stages[j + 1].at else upTo;
        assert all[j] == stages[j] && next == (if j + 1 < |all| then all[j + 1].at else |more|);
        SliceOfSlice(chain, 0, upTo, all[j].at, next);
        SliceOfSlice(chain, 0, |more|, all[j].at, next);
      } else {
        assert more[upTo..] == chain[upTo..upTo + s.Width()];
      }
    }
  }

  /** The loop of `ensure_compiled_pipeline`: runs of maps become one stage. */
  method MergeMaps(chain: seq<Stage>) returns (stages: seq<CompiledStage>)
    ensures Compiles(stages, chain)
  {
    stages := [];
    var current := 0;
    while current < |chain|
      invariant CompiledUpTo(stages, chain, current)
      invariant |stages| > 0 && current < |chain| && stages[|stages| - 1].IsMap() ==> !chain[current].Map?
    {
      var run := MapRun(chain, current);
      var s := if |run| > 1 then MapChain(current, run) else Single(current, chain[current]);
      CompiledMore(stages, chain, current, s);
      stages := stages + [s];
      current := current + s.Width();
    }
    assert chain[..current] == chain;
  }

  /** After `k` stages: all per-item so far, or one terminal, just seen. */
  ghost predicate SeenSoFar(all: seq<Stage>, k: nat, seen: bool)
    requires k <= |all|
  {
    if seen then k > 0 && all[k - 1].Terminal() && (forall m | 0 <= m < k - 1 :: all[m].PerItem())
    else forall m | 0 <= m < k :: all[m].PerItem()
  }

  /** The compiled stages before `i` hold, from `start` of the chain on, per-item
      stages only, or these and one terminal, just seen. */
  ghost predicate Scanned(stages: seq<CompiledStage>, chain: seq<Stage>, start: nat, i: nat, seen: bool)
    requires i <= |stages|
  {
    var end := if i < |stages| then stages[i].at else |chain|;
    start <= end <= |chain| && SeenSoFar(chain[start..], end - start, seen)
  }

  lemma NotStreamable(all: seq<Stage>, k: nat)
    requires k < |all| && !all[k].PerItem() && (all[k].Terminal() ==> k < |all| - 1)
    ensures !Streamable(all)
  {
  }

  /** `one` are the stages of the next compiled stage, starting at `k` of `all`. */
  lemma SeenStep(all: seq<Stage>, k: nat, one: seq<Stage>, seen: bool)
    requires 0 < |one| && k + |one| <= |all| && all[k..k + |one|] == one
    requires |one| > 1 ==> AllPerItem(one)
    requires SeenSoFar(all, k, seen)
    ensures seen || !(one[0].PerItem() || one[0].Terminal()) ==> !Streamable(all)
    ensures !seen && (one[0].PerItem() || one[0].Terminal()) ==> SeenSoFar(all, k + |one|, one[0].Terminal())
  {
    assert all[k] == all[k..k + |one|][0];
    if seen {
      NotStreamable(all, k - 1);
    } else if !one[0].PerItem() && !one[0].Terminal() {
      NotStreamable(all, k);
    } else if |one| > 1 {
      forall m | 0 <= m < k + |one|
        ensures all[m].PerItem()
      {
        if m >= k {
          assert all[m] == all[k..k + |one|][m - k];
        }
      }
    }
  }

  lemma ScannedStep(stages: seq<CompiledStage>, chain: seq<Stage>, start: nat, i: nat, seen: bool)
    requires Compiles(stages, chain) && i < |stages| && Scanned(stages, chain, start, i, seen)
    ensures stages[i].Width() > 0
    ensures var kind := stages[i].Expand()[0];
            if seen || !(kind.PerItem() || kind.Terminal()) then !Streamable(chain[start..])
            else Scanned(stages, chain, start, i + 1, kind.Terminal())
  {
    assert Faithful(stages, chain, i);
    var one, k := stages[i].Expand(), stages[i].at - start;
    SliceOfSlice(chain, start, |chain|, k, k + |one|);
    SeenStep(chain[start..], k, one, seen);
  }

  /** `stage_chain_is_streamable` over compiled stages from `from` on decides
      `Streamable` of the part of the chain they stand for. */
  method StageChainIsStreamable(stages: seq<CompiledStage>, ghost chain: seq<Stage>, from: nat) returns (ok: bool)
    requires Compiles(stages, chain) && from < |stages|
    ensures stages[from].at <= |chain| && ok == Streamable(chain[stages[from].at..])
  {
    var seenReduce, seenLast := false, false;
    assert Faithful(stages, chain, from);
    for i := from to |stages|
      invariant Scanned(stages, chain, stages[from].at, i, seenReduce || seenLast)
    {
      ScannedStep(stages, chain, stages[from].at, i, seenReduce || seenLast);
      var kind := stages[i].Expand()[0];
      if !kind.PerItem() && !kind.Terminal() {
        return false;
      }
      if seenReduce || seenLast {
        return false;
      }
      seenReduce := kind.Reduce?;
      seenLast := kind.Last?;
    }
    return true;
  }

  /** The stages and the two flags of a compiled pipeline; the flags depend on the
      chain alone. */
  ghost predicate CompilationOf(c: CompiledPipeline, chain: seq<Stage>) {
    && Compiles(c.stages, chain)
    && c.streamable == Streamable(chain)
    && c.mergeThenStreamable == MergesThenStreams(chain)
  }

  /** `ensure_compiled_pipeline` on a chain with at least one stage. */
  method Compile(chain: seq<Stage>) returns (c: CompiledPipeline)
    requires |chain| > 0
    ensures CompilationOf(c, chain)
  {
    var stages := MergeMaps(chain);
    assert Faithful(stages, chain, 0);
    assert chain[0..] == chain;
    assert chain[0] == chain[0..stages[0].Width()][0] == stages[0].Expand()[0];
    var streamable := StageChainIsStreamable(stages, chain, 0);
    var merge := false;
    if |stages| > 1 && stages[0].Single? && stages[0].stage.MergeMap? {
      assert Faithful(stages, chain, 1);
      merge := StageChainIsStreamable(stages, chain, 1);
    }
    c := CompiledPipeline(stages, streamable, merge);
  }

  // ------------------------------------------------- the `*_apply` functions

  method MapApply(f: int -> int, data: seq<int>) returns (result: seq<int>)
    ensures result == Lists.Map(f, Active(data))
  {
    result := [];
    for i := 0 to |data|
      invariant result + Lists.Map(f, Active(data[i..])) == Lists.Map(f, Active(data))
    {
      assert data[i..][1..] == data[i + 1..];
      if data[i] == SENTINEL {
        break;
      }
      var rest := Active(data[i + 1..]);
      assert Active(data[i..]) == [data[i]] + rest;
      assert Lists.Map(f, [data[i]] + rest) == [f(data[i])] + Lists.Map(f, rest);
      AppendAssoc(result, [f(data[i])], Lists.Map(f, rest));
      result := result + [f(data[i])];
    }
  }

  lemma FilterStep(p: int -> bool, data: seq<int>, i: nat, result: seq<int>)
    requires i < |data|
    ensures result + Lists.Filter(p, data[i..]) ==
            (if p(data[i]) then result + [data[i]] else result) + Lists.Filter(p, data[i + 1..])
  {
    assert data[i..][0] == data[i] && data[i..][1..] == data[i + 1..];
  }

  method FilterApply(p: int -> bool, data: seq<int>) returns (result: seq<int>)
    ensures result == Lists.Filter(p, data)
  {
    result := [];
    for i := 0 to |data|
      invariant result + Lists.Filter(p, data[i..]) == Lists.Filter(p, data)
    {
      FilterStep(p, data, i, result);
      if p(data[i]) {
        result := result + [data[i]];
      }
    }
  }

  method ReduceApply(acc: (int, int) -> int, data: seq<int>) returns (result: seq<int>)
    ensures result == [Fold(acc, NULL, Active(data))]
  {
    var accum := NULL;
    for i := 0 to |data|
      invariant Fold(acc, accum, Active(data[i..])) == Fold(acc, NULL, Active(data))
    {
      assert data[i..][1..] == data[i + 1..];
      if data[i] == SENTINEL {
        break;
      }
      accum := acc(accum, data[i]);
    }
    result := [accum];
  }

  method ActiveSize(data: seq<int>) returns (n: nat)
    ensures n == |WithoutTrailingToken(data)|
    ensures n == |data| <==> data == [] || data[|data| - 1] != 0xDEADBEEF
  {
    n := |data|;
    if n > 0 && data[n - 1] == SENTINEL {
      n := n - 1;
    }
  }

  /** `mergemap_apply`: two counting loops. */
  method MergeMapApply(pair: (int, int) -> int, outerData: seq<int>, data: seq<int>) returns (result: seq<int>)
    ensures result == MergeRows(pair, WithoutTrailingToken(data), WithoutTrailingToken(outerData))
  {
    ghost var inner, outer := WithoutTrailingToken(data), WithoutTrailingToken(outerData);
    var outerSize := ActiveSize(outerData);
    var innerSize := ActiveSize(data);
    result := [];
    for oi := 0 to outerSize
      invariant result + MergeRows(pair, inner, outer[oi..]) == MergeRows(pair, inner, outer)
    {
      ghost var row := MergeRow(pair, inner, outer[oi]);
      ghost var done := result;
      assert outer[oi..][1..] == outer[oi + 1..];
      for i := 0 to innerSize
        invariant result == done + row[..i]
      {
        assert row[..i + 1] == row[..i] + [row[i]];
        result := result + [pair(data[i], outerData[oi])];
      }
      assert row[..innerSize] == row;
      AppendAssoc(done, row, MergeRows(pair, inner, outer[oi + 1..]));
    }
  }

  lemma SkipStep(p: int -> bool, passed: bool, items: seq<int>, i: nat, result: seq<int>)
    requires i < |items|
    ensures if p(items[i]) && !passed
            then SkipList(p, passed, items[i..]) == SkipList(p, passed, items[i + 1..])
            else result + SkipList(p, passed, items[i..]) == (result + [items[i]]) + SkipList(p, true, items[i + 1..])
  {
  }

  method RunMapChain(funcs: seq<int -> int>, value: int) returns (current: int)
    ensures current == ApplyAll(funcs, value)
  {
    current := value;
    for i := 0 to |funcs|
      invariant current == ApplyAll(funcs[..i], value)
    {
      assert funcs[..i + 1][..i] == funcs[..i];
      current := funcs[i](current);
    }
    assert funcs[..|funcs|] == funcs;
  }

  // ------------------------------------------------- what the fused loop holds

  /** What happened to an item: emitted, dropped, or taken by a terminal stage. */
  datatype Outcome = Kept(value: int) | Dropped | Reduced(acc: (int, int) -> int, value: int) | Lasted(value: int)

  /** The outcome of a push, by the terminal stage, if any, that follows. */
  function OutcomeOf(o: Option<int>, term: seq<Stage>): Outcome {
    if o.None? then Dropped
    else if |term| == 0 then Kept(o.value)
    else if term[0].Reduce? then Reduced(term[0].acc, o.value)
    else Lasted(o.value)
  }

  /** The local variables of `pop_all_streaming_compiled`. */
  datatype Locals = Locals(hasReduce: bool, reduced: int, hasLast: bool, lastValue: int)

  function Hold(l: Locals, o: Outcome): Locals {
    match o
    case Reduced(acc, v) => l.(hasReduce := true, reduced := acc(l.reduced, v))
    case Lasted(v) => l.(hasLast := true, lastValue := v)
    case _ => l
  }

  /** The locals once `out` has come through the per-item stages. */
  ghost predicate Collected(term: seq<Stage>, out: seq<int>, l: Locals) {
    if |term| == 0 then !l.hasReduce && !l.hasLast
    else if term[0].Reduce? then
      !l.hasLast && l.hasReduce == (out != []) && l.reduced == Fold(term[0].acc, NULL, out)
    else
      !l.hasReduce && l.hasLast == (out != []) && (out != [] ==> l.lastValue == out[|out| - 1])
  }

  lemma CollectStep(term: seq<Stage>, out: seq<int>, l: Locals, o: Option<int>)
    requires Collected(term, out, l)
    ensures Collected(term, out + Emitted(o), Hold(l, OutcomeOf(o, term)))
  {
    if o.None? {
      assert out + Emitted(o) == out;
    } else if |term| > 0 && term[0].Reduce? {
      FoldSnoc(term[0].acc, NULL, out, o.value);
    }
  }

  /** What is emitted in all once `out` has come through the per-item stages. */
  function Closing(term: seq<Stage>, out: seq<int>): seq<int> {
    if |term| == 0 then out
    else if out == [] then []
    else if term[0].Reduce? then [Fold(term[0].acc, NULL, out)]
    else [out[|out| - 1]]
  }

  /** The fused executor on a chain without a terminal. */
  lemma FusedPerItem(ss: seq<Stage>, ds: seq<Ctx>, items: seq<int>)
    requires |ds| == |ss| && AllPerItem(ss)
    ensures var (done, out) := PushAll(ss, ds, Active(items));
            Fused(ss, ds, items) == (done, out)
  {
    assert ss != [] ==> ss[|ss| - 1].PerItem();
    assert !HasTerminal(ss);
  }

  /** And on one whose last stage is terminal. */
  lemma FusedThenTerminal(ss: seq<Stage>, ds: seq<Ctx>, n: nat, items: seq<int>)
    requires |ds| == |ss| == n + 1 && AllPerItem(ss[..n]) && ss[n].Terminal()
    ensures var (done, out) := PushAll(ss[..n], ds[..n], Active(items));
            Fused(ss, ds, items) == (done + ds[n..], Closing(ss[n..], out))
  {
    assert HasTerminal(ss) && ss[n..][0] == ss[n];
  }

  ghost predicate StreamableFrom(chain: seq<Stage>, base: nat, n: nat) {
    && base + n <= |chain| && AllPerItem(chain[base..base + n])
    && (base + n == |chain| || (base + n + 1 == |chain| && chain[base + n].Terminal()))
  }

  lemma FusedOf(chain: seq<Stage>, cs: seq<Ctx>, base: nat, n: nat, items: seq<int>)
    requires |cs| == |chain| && StreamableFrom(chain, base, n)
    ensures var (done, out) := PushAll(chain[base..base + n], cs[base..base + n], Active(items));
            Fused(chain[base..], cs[base..], items) == (done + cs[base + n..], Closing(chain[base + n..], out))
  {
    var ss, ds := chain[base..], cs[base..];
    if base + n == |chain| {
      assert chain[base..base + n] == ss && cs[base..base + n] == ds;
      assert chain[base + n..] == [] && cs[base + n..] == [];
      FusedPerItem(ss, ds, items);
      var done := PushAll(ss, ds, Active(items)).0;
      assert done + [] == done;
    } else {
      assert ss[..n] == chain[base..base + n] && ds[..n] == cs[base..base + n];
      assert ss[n..] == chain[base + n..] && ds[n..] == cs[base + n..] && ss[n] == chain[base + n];
      FusedThenTerminal(ss, ds, n, items);
    }
  }

  /** `out` has come through, and the items from `i` on remain, with contexts `now`. */
  ghost predicate StillToPush(ss: seq<Stage>, cs: seq<Ctx>, items: seq<int>, i: nat, now: seq<Ctx>, out: seq<int>)
    requires |cs| == |ss| && i <= |items|
  {
    && |now| == |ss|
    && var (rest, ys) := PushAll(ss, now, Active(items[i..]));
       PushAll(ss, cs, Active(items)) == (rest, out + ys)
  }

  lemma StillAll(ss: seq<Stage>, cs: seq<Ctx>, items: seq<int>)
    requires |cs| == |ss|
    ensures StillToPush(ss, cs, items, 0, cs, [])
  {
    var ys := PushAll(ss, cs, Active(items)).1;
    assert items[0..] == items && [] + ys == ys;
  }

  lemma StillNone(ss: seq<Stage>, cs: seq<Ctx>, items: seq<int>, now: seq<Ctx>, out: seq<int>)
    requires |cs| == |ss| && StillToPush(ss, cs, items, |items|, now, out)
    ensures PushAll(ss, cs, Active(items)) == (now, out)
  {
    assert items[|items|..] == [] && out + [] == out;
  }

  lemma StillStep(ss: seq<Stage>, cs: seq<Ctx>, items: seq<int>, i: nat, now: seq<Ctx>, out: seq<int>)
    requires |cs| == |ss| && i < |items| && StillToPush(ss, cs, items, i, now, out)
    ensures items[i] == SENTINEL ==> PushAll(ss, cs, Active(items)) == (now, out)
    ensures items[i] != SENTINEL ==>
              var (c1, o) := Push(ss, now, items[i]);
              StillToPush(ss, cs, items, i + 1, c1, out + Emitted(o))
  {
    assert items[i..][1..] == items[i + 1..];
    if items[i] == SENTINEL {
      assert out + [] == out;
    } else {
      var xs := Active(items[i..]);
      assert xs[0] == items[i] && xs[1..] == Active(items[i + 1..]);
      var (c1, o) := Push(ss, now, items[i]);
      AppendAssoc(out, Emitted(o), PushAll(ss, c1, xs[1..]).1);
    }
  }

  // ------------------------------------------------------------- observables

  /** What a drain leaves: nothing, or what follows the completion token. */
  function AfterToken(xs: seq<int>): seq<int> {
    if xs == [] then [] else if xs[0] == SENTINEL then xs[1..] else AfterToken(xs[1..])
  }

  lemma {:induction false} AfterTokenMeans(xs: seq<int>)
    ensures 0xDEADBEEF in xs ==> xs == Active(xs) + [0xDEADBEEF] + AfterToken(xs)
    ensures 0xDEADBEEF !in xs ==> Active(xs) == xs && AfterToken(xs) == []
  {
    if xs != [] && xs[0] != SENTINEL {
      AfterTokenMeans(xs[1..]);
      assert xs == [xs[0]] + xs[1..];
      if 0xDEADBEEF in xs {
        AppendAssoc([xs[0]], Active(xs[1..]), [0xDEADBEEF]);
        AppendAssoc([xs[0]], Active(xs[1..]) + [0xDEADBEEF], AfterToken(xs[1..]));
      }
    }
  }

  /** The chain takes one of the two streaming paths. */
  predicate PopsStreaming(chain: seq<Stage>) {
    (chain != [] && Streamable(chain)) || MergesThenStreams(chain)
  }

  /** What is left in the list after a pop. */
  function Leftover(chain: seq<Stage>, cs: seq<Ctx>, xs: seq<int>): seq<int>
    requires |cs| == |chain|
  {
    if PopsStreaming(chain) then [] else AfterToken(Staged(chain, cs, xs).1)
  }

  /** `now` differs from `before` at most in the `n` places from `base` on. */
  ghost predicate SameOutside(before: seq<Ctx>, now: seq<Ctx>, base: nat, n: nat) {
    && |now| == |before| && base + n <= |now|
    && forall k | 0 <= k < |now| && !(base <= k < base + n) :: now[k] == before[k]
  }

  /** Compiled stage `s` at place `off` of the part of the chain that starts at `base`
      and has `n` per-item stages: it is the terminal one, or it lies within. */
  ghost predicate StageFits(chain: seq<Stage>, base: nat, n: nat, off: nat, s: CompiledStage) {
    && base + n <= |chain| && off <= n && s.at == base + off
    && if s.Single? && s.stage.Terminal() then off == n && base + n < |chain| && s.stage == chain[base + n]
       else && off + s.Width() <= n
            && match s
               case MapChain(_, fs) => chain[base..base + n][off..off + |fs|] == MapStages(fs)
               case Single(_, stage) => stage == chain[base + off] && stage.PerItem()
  }

  /** A leading `mergeMap` is a compiled stage of its own. */
  lemma MergeFirst(stages: seq<CompiledStage>, chain: seq<Stage>)
    requires Compiles(stages, chain) && MergesThenStreams(chain)
    ensures |stages| > 1 && stages[1].at == 1
    ensures StreamableFrom(chain, 1, |Body(chain[1..], chain[1..])|)
  {
    assert Faithful(stages, chain, 0);
    assert chain[0..stages[0].Width()][0] == chain[0] == stages[0].Expand()[0];
    var tail := chain[1..];
    var n := |Body(tail, tail)|;
    assert chain[1..1 + n] == Body(tail, tail);
    assert HasTerminal(tail) ==> tail[n] == chain[1 + n];
  }

  lemma SameOutsideThen(before: seq<Ctx>, now: seq<Ctx>, later: seq<Ctx>, base: nat, n: nat)
    requires SameOutside(before, now, base, n) && SameOutside(now, later, base, n)
    ensures SameOutside(before, later, base, n)
  {
  }

  lemma SpliceWindow(before: seq<Ctx>, now: seq<Ctx>, base: nat, n: nat)
    requires SameOutside(before, now, base, n)
    ensures now == before[..base] + (now[base..base + n] + before[base + n..])
  {
  }

  lemma StreamedIsFused(chain: seq<Stage>, before: seq<Ctx>, now: seq<Ctx>, base: nat, n: nat, items: seq<int>,
                        out: seq<int>)
    requires |before| == |chain| && StreamableFrom(chain, base, n) && SameOutside(before, now, base, n)
    requires (now[base..base + n], out) == PushAll(chain[base..base + n], before[base..base + n], Active(items))
    ensures var (cs, emitted) := Fused(chain[base..], before[base..], items);
            now == before[..base] + cs && emitted == Closing(chain[base + n..], out)
  {
    FusedOf(chain, before, base, n, items);
    SpliceWindow(before, now, base, n);
  }

  /** A value past the last stage of a chain without a terminal is kept. */
  lemma CameThrough(chain: seq<Stage>, cs: seq<Ctx>, base: nat, n: nat, item: int, now: seq<Ctx>, value: int)
    requires base + n == |chain| && |cs| == n
    requires PushTo(chain[base..base + n], cs, item, n) == (now, Some(value))
    ensures Push(chain[base..base + n], cs, item) == (now, Some(value))
    ensures OutcomeOf(Some(value), chain[base + n..]) == Kept(value)
  {
    PushToReaches(chain[base..base + n], cs, item, n);
  }

  lemma WindowUpdate(before: seq<Ctx>, now: seq<Ctx>, base: nat, n: nat, at: nat, c: Ctx)
    requires SameOutside(before, now, base, n) && base <= at < base + n
    ensures SameOutside(before, now[at := c], base, n)
    ensures now[at := c][base..base + n] == now[base..base + n][at - base := c]
  {
  }

  /** What compiled stage `j` is, in terms of the chain from `base` on. */
  lemma NextStage(stages: seq<CompiledStage>, chain: seq<Stage>, base: nat, n: nat, j: nat)
    requires Compiles(stages, chain) && StreamableFrom(chain, base, n)
    requires j < |stages| && base <= stages[j].at <= base + n
    ensures StageFits(chain, base, n, stages[j].at - base, stages[j])
    ensures stages[j].at + stages[j].Width() == StartOf(stages, chain, j + 1)
  {
    assert Faithful(stages, chain, j);
    var s, at, w := stages[j], stages[j].at, stages[j].Width();
    var body, off := chain[base..base + n], at - base;
    assert chain[at] == chain[at..at + w][0] == s.Expand()[0];
    if off < n {
      assert body[off] == chain[at] && body[off].PerItem();
    }
    if s.MapChain? {
      assert chain[at + (w - 1)] == chain[at..at + w][w - 1] == s.Expand()[w - 1];
      assert at + w <= base + n;
      SliceOfSlice(chain, base, base + n, off, off + w);
    }
  }

  function Singletons(vs: seq<int>): seq<seq<int>> {
    if vs == [] then [] else [[vs[0]]] + Singletons(vs[1..])
  }

  lemma {:induction false} SingletonsFlatten(vs: seq<int>)
    ensures Flatten(Singletons(vs)) == vs
  {
    if vs != [] {
      SingletonsFlatten(vs[1..]);
    }
  }

  class Observable {
    var data: seq<int>
    var chain: seq<Stage>
    /** The context of each stage of the chain. */
    var ctxs: seq<Ctx>
    var compiled: Option<CompiledPipeline>
    var complete: bool
    var ready: bool
    var subscribed: bool
    /** The values handed to the subscriber, oldest first. */
    var seen: seq<int>

    ghost predicate Valid()
      reads this
    {
      |ctxs| == |chain| && (compiled.Some? ==> CompilationOf(compiled.value, chain))
    }

    constructor (items: seq<int>)
      ensures Valid() && data == items && chain == [] && seen == []
      ensures !complete && !ready && !subscribed && compiled.None?
    {
      data, chain, ctxs, compiled := items, [], [], None;
      complete, ready, subscribed, seen := false, false, false, [];
    }

    /** `pipe`: the first stage takes the place of whatever was piped before, the
        others follow it, each with the context it was created with. A compiled form
        stays as it is, so it is out of date unless there was none or no stage. */
    method Pipe(stages: seq<Stage>, contexts: seq<Ctx>)
      requires Valid() && |contexts| == |stages|
      modifies this`chain, this`ctxs
      ensures chain == (if stages == [] then old(chain) else stages)
      ensures ctxs == (if stages == [] then old(ctxs) else contexts)
      ensures Valid() <==> compiled.None? || CompilationOf(compiled.value, chain)
      ensures compiled.None? || stages == [] ==> Valid()
    {
      for i := 0 to |stages|
        invariant chain == (if i == 0 then old(chain) else stages[..i])
        invariant ctxs == (if i == 0 then old(ctxs) else contexts[..i])
      {
        chain, ctxs := (if i == 0 then [] else chain) + [stages[i]], (if i == 0 then [] else ctxs) + [contexts[i]];
      }
      assert stages[..|stages|] == stages && contexts[..|stages|] == contexts;
    }

    /** A chain is compiled once: a compiled form that is there stays. */
    method EnsureCompiled()
      requires Valid()
      modifies this`compiled
      ensures Valid() && (|chain| > 0 ==> compiled.Some?)
      ensures old(compiled).Some? || |chain| == 0 ==> compiled == old(compiled)
    {
      if compiled.Some? || |chain| == 0 {
        return;
      }
      var c := Compile(chain);
      compiled := Some(c);
    }

    // ------------------------------------------------ contexts of whole-list stages

    method ScanApply(k: nat, acc: (int, int) -> int, items: seq<int>) returns (result: seq<int>)
      requires k < |ctxs|
      modifies this`ctxs
      ensures result == Lists.Scan(acc, old(ctxs[k].accum), Active(items))
      ensures ctxs == old(ctxs)[k := old(ctxs[k]).(accum := Fold(acc, old(ctxs[k].accum), Active(items)))]
    {
      result := [];
      var accum := ctxs[k].accum;
      for i := 0 to |items|
        invariant ctxs == old(ctxs)
        invariant result + Lists.Scan(acc, accum, Active(items[i..])) == Lists.Scan(acc, ctxs[k].accum, Active(items))
        invariant Fold(acc, accum, Active(items[i..])) == Fold(acc, ctxs[k].accum, Active(items))
      {
        assert items[i..][1..] == items[i + 1..];
        if items[i] == SENTINEL {
          break;
        }
        assert Active(items[i..]) == [items[i]] + Active(items[i + 1..]);
        var r := acc(accum, items[i]);
        AppendAssoc(result, [r], Lists.Scan(acc, r, Active(items[i + 1..])));
        result := result + [r];
        accum := r;
      }
      ctxs := ctxs[k := ctxs[k].(accum := accum)];
    }

    method DistinctUntilChangedApply(k: nat, key: int -> int, items: seq<int>) returns (result: seq<int>)
      requires k < |ctxs|
      modifies this`ctxs
      ensures result == Dedup(key, Some(old(ctxs[k].last)), items)
      ensures ctxs == old(ctxs)[k := old(ctxs[k]).(last := DedupKey(key, old(ctxs[k].last), items))]
    {
      result := [];
      ghost var cs, last := ctxs, ctxs[k].last;
      for i := 0 to |items|
        invariant |ctxs| == |cs| && ctxs == cs[k := cs[k].(last := ctxs[k].last)]
        invariant DedupKey(key, ctxs[k].last, items[i..]) == DedupKey(key, last, items)
        invariant result + Dedup(key, Some(ctxs[k].last), items[i..]) == Dedup(key, Some(last), items)
      {
        assert items[i..][1..] == items[i + 1..];
        var projected := key(items[i]);
        if projected == ctxs[k].last {
          continue;
        }
        ctxs := ctxs[k := ctxs[k].(last := projected)];
        AppendAssoc(result, [items[i]], Dedup(key, Some(projected), items[i + 1..]));
        result := result + [items[i]];
      }
    }

    method SkipWhileApply(k: nat, p: int -> bool, items: seq<int>) returns (result: seq<int>)
      requires k < |ctxs|
      modifies this`ctxs
      ensures result == SkipList(p, old(ctxs[k].passed), items)
      ensures ctxs == old(ctxs)[k := old(ctxs[k]).(passed := old(ctxs[k].passed) || result != [])]
    {
      result := [];
      ghost var cs, passed := ctxs, ctxs[k].passed;
      for i := 0 to |items|
        invariant ctxs == cs[k := cs[k].(passed := passed || result != [])]
        invariant result + SkipList(p, ctxs[k].passed, items[i..]) == SkipList(p, passed, items)
      {
        SkipStep(p, ctxs[k].passed, items, i, result);
        if p(items[i]) && !ctxs[k].passed {
          continue;
        }
        result := result + [items[i]];
        ctxs := ctxs[k := ctxs[k].(passed := true)];
        assert ctxs == cs[k := cs[k].(passed := true)];
      }
    }

    /** Stage `k` on a whole list. */
    method Apply(k: nat, items: seq<int>) returns (result: seq<int>)
      requires k < |ctxs| == |chain|
      modifies this`ctxs
      ensures var (c, ys) := ApplyStage(chain[k], old(ctxs[k]), items);
              ctxs == old(ctxs)[k := c] && result == ys
    {
      match chain[k] {
        case Map(f) => result := MapApply(f, items);
        case Filter(p) => result := FilterApply(p, items);
        case Scan(acc) => result := ScanApply(k, acc, items);
        case DistinctUntilChanged(key) => result := DistinctUntilChangedApply(k, key, items);
        case SkipWhile(p) => result := SkipWhileApply(k, p, items);
        case Reduce(acc) => result := ReduceApply(acc, items);
        case Last => result := [LastItem(items)];
        case MergeMap(outer, pair) => result := MergeMapApply(pair, outer, items);
        case Generic(apply) =>
          var (c, ys) := apply(ctxs[k], items);
          ctxs := ctxs[k := c];
          result := ys;
      }
    }

    // ---------------------------------------------------------- the staged path

    /** Hands out the list front first; the completion token ends it. */
    method Drain()
      modifies this`complete, this`seen, this`data
      ensures data == AfterToken(old(data))
      ensures seen == old(seen) + (if subscribed then Active(old(data)) else [])
      ensures complete == (old(complete) || SENTINEL in old(data))
    {
      ghost var out: seq<int> := [];
      while |data| > 0
        invariant Active(old(data)) == out + Active(data)
        invariant SENTINEL in old(data) <==> SENTINEL in data
        invariant AfterToken(old(data)) == AfterToken(data)
        invariant seen == old(seen) + (if subscribed then out else [])
        invariant complete == old(complete)
        decreases |data|
      {
        var d := data[0];
        assert data == [d] + data[1..];
        ghost var rest := Active(data[1..]);
        data := data[1..];
        if d == SENTINEL {
          complete := true;
          return;
        }
        AppendAssoc(out, [d], rest);
        out := out + [d];
        if subscribed {
          seen := seen + [d];
        }
      }
    }

    /** One stage after another over whole lists, then the drain. */
    method PopStaged()
      requires Valid()
      modifies this`complete, this`seen, this`data, this`ready, this`ctxs
      ensures Valid() && !ready
      ensures var (cs, out) := Staged(chain, old(ctxs), old(data));
              && ctxs == cs
              && seen == old(seen) + (if subscribed then Active(out) else [])
              && complete == (old(complete) || SENTINEL in out)
              && data == AfterToken(out)
    {
      ghost var cs, xs := ctxs, data;
      var temp := data;
      for k := 0 to |chain|
        invariant |ctxs| == |chain| && ctxs[k..] == cs[k..]
        invariant seen == old(seen) && complete == old(complete)
        invariant Staged(chain[..k], cs[..k], xs) == (ctxs[..k], temp)
      {
        StagedSnoc(chain, cs, xs, k);
        assert ctxs[k..][0] == cs[k..][0];
        ghost var now := ctxs;
        temp := Apply(k, temp);
        assert ctxs[..k + 1] == now[..k] + [ctxs[k]] && ctxs[k + 1..] == now[k..][1..] == cs[k..][1..];
      }
      assert chain[..|chain|] == chain && cs[..|chain|] == cs && ctxs[..|chain|] == ctxs;
      assert Staged(chain, cs, xs) == (ctxs, temp);
      data := temp;
      ready := false;
      Drain();
    }

    // ----------------------------------------------------------- the fused path

    method StreamEmit(v: int)
      modifies this`seen
      ensures seen == old(seen) + (if subscribed then [v] else [])
    {
      if subscribed {
        seen := seen + [v];
      }
    }

    /** Per-item stage `k` on one value, its context updated in place. */
    method StepAt(k: nat, stage: Stage, value: int) returns (o: Option<int>)
      requires k < |ctxs| && stage.PerItem()
      modifies this`ctxs
      ensures var (c, v) := Step(stage, old(ctxs[k]), value);
              ctxs == old(ctxs)[k := c] && o == v
    {
      var c := ctxs[k];
      match stage {
        case Map(f) =>
          return Some(f(value));
        case Filter(p) =>
          return if p(value) then Some(value) else None;
        case Scan(acc) =>
          var next := acc(c.accum, value);
          ctxs := ctxs[k := c.(accum := next)];
          return Some(next);
        case DistinctUntilChanged(key) =>
          var projected := key(value);
          if projected == c.last {
            return None;
          }
          ctxs := ctxs[k := c.(last := projected)];
          return Some(value);
        case SkipWhile(p) =>
          if !c.passed && p(value) {
            return None;
          }
          ctxs := ctxs[k := c.(passed := true)];
          return Some(value);
      }
    }

    /** `stages` compile the chain; from stage `from`, at `base` of the chain, there
        are `n` per-item stages and then at most a terminal one. */
    ghost predicate FusedPart(stages: seq<CompiledStage>, from: nat, base: nat, n: nat)
      reads this`chain, this`ctxs
    {
      && |ctxs| == |chain| && from < |stages| && stages[from].at == base
      && Compiles(stages, chain) && StreamableFrom(chain, base, n)
    }

    /** One compiled stage of the inner loop, at place `off` of the per-item part. */
    method StreamStage(s: CompiledStage, ghost base: nat, ghost n: nat, ghost off: nat,
                       ghost cs: seq<Ctx>, ghost item: int, value: int) returns (o: Outcome)
      requires |ctxs| == |chain| && StageFits(chain, base, n, off, s) && |cs| == n
      requires PushTo(chain[base..base + n], cs, item, off) == (ctxs[base..base + n], Some(value))
      modifies this`ctxs
      ensures SameOutside(old(ctxs), ctxs, base, n)
      ensures if o.Kept?
              then && off + s.Width() <= n
                   && PushTo(chain[base..base + n], cs, item, off + s.Width()) == (ctxs[base..base + n], Some(o.value))
              else var (now, out) := Push(chain[base..base + n], cs, item);
                   ctxs[base..base + n] == now && o == OutcomeOf(out, chain[base + n..])
    {
      ghost var body, now := chain[base..base + n], ctxs[base..base + n];
      match s {
        case MapChain(at, fs) =>
          PushToMaps(body, cs, item, off, fs, now, value);
          var v := RunMapChain(fs, value);
          return Kept(v);
        case Single(at, stage) =>
          if stage.Terminal() {
            PushToReaches(body, cs, item, n);
            assert chain[base + n..][0] == stage;
            return if stage.Reduce? then Reduced(stage.acc, value) else Lasted(value);
          }
          ghost var (c, o') := Step(stage, ctxs[at], value);
          assert body[off] == stage && now[off] == ctxs[at];
          assert PushTo(body, cs, item, off + 1) == (now[off := c], o');
          WindowUpdate(ctxs, ctxs, base, n, at, c);
          var v := StepAt(at, stage, value);
          if v.None? {
            PushToReaches(body, cs, item, off + 1);
            return Dropped;
          }
          return Kept(v.value);
      }
    }

    /** The inner loop of `pop_all_streaming_compiled`: one item through the compiled
        stages from `from` on, the contexts updated in place. */
    method StreamItem(stages: seq<CompiledStage>, from: nat, ghost base: nat, ghost n: nat, item: int)
      returns (o: Outcome)
      requires FusedPart(stages, from, base, n)
      modifies this`ctxs
      ensures SameOutside(old(ctxs), ctxs, base, n)
      ensures var (cs, out) := Push(chain[base..base + n], old(ctxs)[base..base + n], item);
              ctxs[base..base + n] == cs && o == OutcomeOf(out, chain[base + n..])
    {
      ghost var body, cs := chain[base..base + n], ctxs[base..base + n];
      var value := item;
      ghost var off: nat := 0;
      for j := from to |stages|
        invariant SameOutside(old(ctxs), ctxs, base, n)
        invariant off <= n && base + off == StartOf(stages, chain, j)
        invariant PushTo(body, cs, item, off) == (ctxs[base..base + n], Some(value))
      {
        NextStage(stages, chain, base, n, j);
        ghost var now := ctxs;
        var r := StreamStage(stages[j], base, n, off, cs, item, value);
        SameOutsideThen(old(ctxs), now, ctxs, base, n);
        if !r.Kept? {
          return r;
        }
        value := r.value;
        off := off + stages[j].Width();
      }
      CameThrough(chain, cs, base, n, item, ctxs[base..base + n], value);
      return Kept(value);
    }

    /** One turn of the loop of `pop_all_streaming_compiled`: the item through the
        compiled stages, then emitted or held. */
    method StreamTurn(stages: seq<CompiledStage>, from: nat, ghost base: nat, ghost n: nat, item: int,
                      before: Locals, ghost out: seq<int>) returns (held: Locals)
      requires FusedPart(stages, from, base, n) && Collected(chain[base + n..], out, before)
      modifies this`seen, this`ctxs
      ensures SameOutside(old(ctxs), ctxs, base, n)
      ensures var (cs, o) := Push(chain[base..base + n], old(ctxs)[base..base + n], item);
              && ctxs[base..base + n] == cs && Collected(chain[base + n..], out + Emitted(o), held)
              && seen == old(seen) + (if subscribed && base + n == |chain| then Emitted(o) else [])
    {
      ghost var o := Push(chain[base..base + n], ctxs[base..base + n], item).1;
      CollectStep(chain[base + n..], out, before, o);
      var r := StreamItem(stages, from, base, n, item);
      if r.Kept? {
        StreamEmit(r.value);
      }
      held := Hold(before, r);
    }

    /** The loop of `pop_all_streaming_compiled` over the items; `out` is what came
        through the per-item stages. */
    method StreamItems(stages: seq<CompiledStage>, from: nat, ghost base: nat, ghost n: nat, items: seq<int>)
      returns (held: Locals, ghost out: seq<int>)
      requires FusedPart(stages, from, base, n)
      modifies this`complete, this`seen, this`ctxs
      ensures SameOutside(old(ctxs), ctxs, base, n)
      ensures (ctxs[base..base + n], out) ==
              PushAll(chain[base..base + n], old(ctxs)[base..base + n], Active(items))
      ensures Collected(chain[base + n..], out, held)
      ensures seen == old(seen) + (if subscribed && base + n == |chain| then out else [])
      ensures complete == (old(complete) || SENTINEL in items)
    {
      ghost var ss, cs := chain[base..base + n], ctxs[base..base + n];
      ghost var now := cs;
      held, out := Locals(false, NULL, false, NULL), [];
      StillAll(ss, cs, items);
      for i := 0 to |items|
        invariant SameOutside(old(ctxs), ctxs, base, n) && ctxs[base..base + n] == now
        invariant SENTINEL !in items[..i] && complete == old(complete)
        invariant StillToPush(ss, cs, items, i, now, out)
        invariant Collected(chain[base + n..], out, held)
        invariant seen == old(seen) + (if subscribed && base + n == |chain| then out else [])
      {
        var item := items[i];
        StillStep(ss, cs, items, i, now, out);
        if item == SENTINEL {
          complete := true;
          return;
        }
        held := StreamTurn(stages, from, base, n, item, held, out);
        out := out + Emitted(Push(ss, now, item).1);
        now := Push(ss, now, item).0;
      }
      StillNone(ss, cs, items, now, out);
      assert items[..|items|] == items;
    }

    /** The one emission after the loop. */
    method EmitHeld(held: Locals, ghost term: seq<Stage>, ghost out: seq<int>)
      requires Collected(term, out, held)
      modifies this`seen
      ensures seen == old(seen) + (if subscribed && |term| > 0 then Closing(term, out) else [])
    {
      if held.hasReduce {
        StreamEmit(held.reduced);
      } else if held.hasLast {
        StreamEmit(held.lastValue);
      }
    }

    /** `pop_all_streaming_compiled`: the loop, then the one emission of a terminal. */
    method PopStreaming(stages: seq<CompiledStage>, from: nat, ghost base: nat, ghost n: nat, items: seq<int>)
      requires FusedPart(stages, from, base, n)
      modifies this`complete, this`seen, this`data, this`ctxs
      ensures var (cs, out) := Fused(chain[base..], old(ctxs)[base..], items);
              ctxs == old(ctxs)[..base] + cs && seen == old(seen) + (if subscribed then out else [])
      ensures complete == (old(complete) || SENTINEL in items) && data == []
    {
      ghost var cs, term := ctxs, chain[base + n..];
      var held, out := StreamItems(stages, from, base, n, items);
      StreamedIsFused(chain, cs, ctxs, base, n, items, out);
      EmitHeld(held, term, out);
      data := [];
    }

    // ------------------------------------------------------------ pop_all and push

    /** The whole chain is streamable. */
    method PopWhole()
      requires Valid() && |chain| > 0 && compiled.Some? && compiled.value.streamable
      modifies this`complete, this`seen, this`data, this`ctxs
      ensures Valid() && data == []
      ensures var (cs, out) := Fused(chain, old(ctxs), old(data));
              ctxs == cs && seen == old(seen) + (if subscribed then out else [])
      ensures complete == (old(complete) || SENTINEL in old(data))
    {
      ghost var n := if HasTerminal(chain) then |chain| - 1 else |chain|;
      assert chain[0..] == chain && ctxs[0..] == ctxs;
      assert chain[0..n] == Body(chain, chain);
      PopStreaming(compiled.value.stages, 0, 0, n, data);
    }

    /** `mergeMap` on the whole list, then the fused executor on the rest. */
    method PopMerged()
      requires Valid() && compiled.Some? && compiled.value.mergeThenStreamable
      modifies this`complete, this`seen, this`data, this`ctxs
      ensures Valid() && chain != [] && data == []
      ensures var (cs, out) := MergeThenFused(chain, old(ctxs), old(data));
              ctxs == cs && seen == old(seen) + (if subscribed then out else [])
      ensures complete == (old(complete) || SENTINEL in ApplyStage(chain[0], old(ctxs)[0], old(data)).1)
    {
      var stages := compiled.value.stages;
      ghost var cs := ctxs;
      MergeFirst(stages, chain);
      var temp := Apply(0, data);
      assert ctxs[1..] == cs[1..] && ctxs[..1] == [ctxs[0]];
      ghost var n := |Body(chain[1..], chain[1..])|;
      PopStreaming(stages, 1, 1, n, temp);
    }

    /** `pop_all`: the fused executor where the compiled chain allows it, a whole-list
        `mergeMap` before it where that is what stands first, the staged path else. */
    method PopAll()
      requires Valid()
      modifies this
      ensures Valid() && chain == old(chain) && subscribed == old(subscribed)
      ensures old(complete || (data == [] && !ready)) ==>
                ctxs == old(ctxs) && unchanged(`data, `complete, `ready, `seen)
      ensures old(!complete && (data != [] || ready)) ==>
                var (cs, out) := Popped(chain, old(ctxs), old(data));
                && ctxs == cs && seen == old(seen) + (if subscribed then out else [])
                && complete == Completes(chain, old(ctxs), old(data))
                && data == Leftover(chain, old(ctxs), old(data))
                && ready == (old(ready) && PopsStreaming(chain))
      ensures chain != [] && Streamable(chain) && !old(complete) ==> data == []
    {
      if complete || (|data| == 0 && !ready) {
        return;
      }
      EnsureCompiled();
      if |chain| > 0 && compiled.value.streamable {
        PopWhole();
      } else if |chain| > 0 && compiled.value.mergeThenStreamable {
        PopMerged();
      } else {
        PopStaged();
      }
    }

    /** `push_observable`: a completed observable takes nothing more. */
    method PushObservable(v: int)
      requires Valid()
      modifies this
      ensures Valid() && chain == old(chain) && subscribed == old(subscribed)
      ensures old(complete) ==> ctxs == old(ctxs) && unchanged(`data, `complete, `ready, `seen)
      ensures !old(complete) ==>
                var batch := old(data) + [v];
                var (cs, out) := Popped(chain, old(ctxs), batch);
                && ctxs == cs && seen == old(seen) + (if subscribed then out else [])
                && complete == Completes(chain, old(ctxs), batch) && data == Leftover(chain, old(ctxs), batch)
                && ready == (old(ready) && PopsStreaming(chain))
      ensures subscribed && chain != [] && Streamable(chain) && (old(data) == [] || old(complete)) ==>
                Live(ctxs, complete, seen) == Deliver(chain, old(Live(ctxs, complete, seen)), [v])
      ensures chain != [] && Streamable(chain) && old(data) == [] ==> data == []
    {
      if complete {
        return;
      }
      assert data == [] ==> data + [v] == [v];
      data := data + [v];
      PopAll();
    }

    /** A producer that pushes one value after another: the deliveries of one item
        each, in order; and without a terminal stage, one delivery of them all. */
    method PushRun(vs: seq<int>)
      requires Valid()
      modifies this
      ensures Valid() && chain == old(chain) && subscribed == old(subscribed)
      ensures subscribed && chain != [] && Streamable(chain) && old(data) == [] ==>
                && data == []
                && Live(ctxs, complete, seen) == DeliverAll(chain, old(Live(ctxs, complete, seen)), Singletons(vs))
                && (!HasTerminal(chain) ==>
                      Live(ctxs, complete, seen) == Deliver(chain, old(Live(ctxs, complete, seen)), vs))
    {
      ghost var start := Live(ctxs, complete, seen);
      for i := 0 to |vs|
        invariant Valid() && chain == old(chain) && subscribed == old(subscribed)
        invariant subscribed && chain != [] && Streamable(chain) && old(data) == [] ==>
                    && data == []
                    && DeliverAll(chain, Live(ctxs, complete, seen), Singletons(vs[i..])) ==
                       DeliverAll(chain, start, Singletons(vs))
      {
        assert vs[i..][0] == vs[i] && vs[i..][1..] == vs[i + 1..];
        PushObservable(vs[i]);
      }
      if chain != [] && Streamable(chain) && !HasTerminal(chain) {
        SingletonsFlatten(vs);
        BatchesDoNotMatter(chain, start, Singletons(vs));
      }
    }
  }
}
