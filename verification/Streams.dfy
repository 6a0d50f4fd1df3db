/** The meaning of a chain of runtime stages (core/src/observable.c) as functions
    on values: the staged reading, one whole list after another, and the fused
    reading, one item through all stages. */
module Streams {
  import opened Lists

  /** The in-band completion token and C's NULL. */
  const SENTINEL: int := 0xDEADBEEF
  const NULL: int := 0

  /** What a stage does. `Generic` stands for every stage without a fused form. */
  datatype Stage =
    | Map(f: int -> int)
    | Filter(p: int -> bool)
    | Scan(acc: (int, int) -> int)
    | DistinctUntilChanged(key: int -> int)
    | SkipWhile(p: int -> bool)
    | Reduce(acc: (int, int) -> int)
    | Last
    | MergeMap(outer: seq<int>, pair: (int, int) -> int)
    | Generic(apply: (Ctx, seq<int>) -> (Ctx, seq<int>))
  {
    /** Handled item by item and passed on. */
    predicate PerItem() {
      Map? || Filter? || Scan? || DistinctUntilChanged? || SkipWhile?
    }

    predicate Terminal() { Reduce? || Last? }
  }

  /** The mutable fields of a stage context. */
  datatype Ctx = Ctx(accum: int, last: int, passed: bool)

  // ---------------------------------------------------------------- staged

  /** The items before the first completion token. */
  function Active(xs: seq<int>): seq<int> {
    if xs == [] || xs[0] == SENTINEL then [] else [xs[0]] + Active(xs[1..])
  }

  lemma {:induction false} ActivePrefix(xs: seq<int>)
    ensures Active(xs) <= xs && SENTINEL !in Active(xs)
    ensures SENTINEL !in xs ==> Active(xs) == xs
    ensures SENTINEL in xs ==> |Active(xs)| < |xs| && xs[|Active(xs)|] == SENTINEL
  {
    if xs != [] && xs[0] != SENTINEL {
      ActivePrefix(xs[1..]);
      assert xs == [xs[0]] + xs[1..];
    }
  }

  /** `list_active_size`: one token at the very end is not counted. */
  function WithoutTrailingToken(xs: seq<int>): seq<int> {
    if xs != [] && xs[|xs| - 1] == SENTINEL then xs[..|xs| - 1] else xs
  }

  /** `last_apply`. For a list holding only the token the program reads before
      the start of the array; NULL stands for that value. */
  function LastItem(xs: seq<int>): int {
    if xs == [] then NULL
    else if xs[|xs| - 1] != SENTINEL then xs[|xs| - 1]
    else if |xs| >= 2 then xs[|xs| - 2]
    else NULL
  }

  function MergeRow(pair: (int, int) -> int, inner: seq<int>, item: int): (ys: seq<int>)
    ensures |ys| == |inner|
  {
    seq(|inner|, i requires 0 <= i < |inner| => pair(inner[i], item))
  }

  /** Every outer item paired with the whole inner list, row after row. */
  function MergeRows(pair: (int, int) -> int, inner: seq<int>, outer: seq<int>): seq<int> {
    if outer == [] then []
    else MergeRow(pair, inner, outer[0]) + MergeRows(pair, inner, outer[1..])
  }

  /** The key of the last kept item. */
  function DedupKey(key: int -> int, prev: int, xs: seq<int>): int
    decreases xs
  {
    if xs == [] then prev else DedupKey(key, key(xs[0]), xs[1..])
  }

  function SkipList(p: int -> bool, passed: bool, xs: seq<int>): seq<int> {
    if passed then xs else DropWhile(p, xs)
  }

  /** The `*_apply` function of a stage on a whole list. */
  function ApplyStage(s: Stage, c: Ctx, xs: seq<int>): (Ctx, seq<int>) {
    match s
    case Map(f) => (c, Lists.Map(f, Active(xs)))
    case Filter(p) => (c, Lists.Filter(p, xs))
    case Scan(acc) => (c.(accum := Fold(acc, c.accum, Active(xs))), Lists.Scan(acc, c.accum, Active(xs)))
    case DistinctUntilChanged(key) => (c.(last := DedupKey(key, c.last, xs)), Dedup(key, Some(c.last), xs))
    case SkipWhile(p) =>
      var ys := SkipList(p, c.passed, xs);
      (c.(passed := c.passed || ys != []), ys)
    case Reduce(acc) => (c, [Fold(acc, NULL, Active(xs))])
    case Last => (c, [LastItem(xs)])
    case MergeMap(outer, pair) =>
      (c, MergeRows(pair, WithoutTrailingToken(xs), WithoutTrailingToken(outer)))
    case Generic(apply) => apply(c, xs)
  }

  /** The staged reading of `pop_all`: one stage after another over whole lists. */
  function Staged(stages: seq<Stage>, cs: seq<Ctx>, xs: seq<int>): (r: (seq<Ctx>, seq<int>))
    requires |cs| == |stages|
    ensures |r.0| == |cs|
  {
    if stages == [] then (cs, xs)
    else
      var (c, ys) := ApplyStage(stages[0], cs[0], xs);
      var (rest, zs) := Staged(stages[1..], cs[1..], ys);
      ([c] + rest, zs)
  }

  // ----------------------------------------------------------------- fused

  /** One item through one stage; an absent value means the item is dropped. */
  function Step(s: Stage, c: Ctx, x: int): (Ctx, Option<int>) {
    match s
    case Map(f) => (c, Some(f(x)))
    case Filter(p) => (c, if p(x) then Some(x) else None)
    case Scan(acc) => var n := acc(c.accum, x); (c.(accum := n), Some(n))
    case DistinctUntilChanged(key) =>
      if key(x) == c.last then (c, None) else (c.(last := key(x)), Some(x))
    case SkipWhile(p) =>
      if !c.passed && p(x) then (c, None) else (c.(passed := true), Some(x))
    case _ => (c, None)
  }

  /** One item through a run of per-item stages. */
  function Push(stages: seq<Stage>, cs: seq<Ctx>, x: int): (r: (seq<Ctx>, Option<int>))
    requires |cs| == |stages|
    ensures |r.0| == |cs|
  {
    if stages == [] then (cs, Some(x))
    else
      var (c, o) := Step(stages[0], cs[0], x);
      if o.None? then ([c] + cs[1..], None)
      else
        var (rest, out) := Push(stages[1..], cs[1..], o.value);
        ([c] + rest, out)
  }

  function Emitted(o: Option<int>): seq<int> {
    if o.None? then [] else [o.value]
  }

  /** After `off` stages: `now` holds the contexts, `v` the value in flight, and
      the rest of the push leads to `end`. */
  ghost predicate Along(stages: seq<Stage>, end: (seq<Ctx>, Option<int>), now: seq<Ctx>, off: nat, v: int) {
    && |now| == |stages| && off <= |stages|
    && var (rest, o) := Push(stages[off..], now[off..], v);
       end == (now[..off] + rest, o)
  }

  lemma AlongStart(stages: seq<Stage>, cs: seq<Ctx>, v: int)
    requires |cs| == |stages|
    ensures Along(stages, Push(stages, cs, v), cs, 0, v)
  {
    assert stages[0..] == stages && cs[0..] == cs;
    assert cs[..0] + Push(stages, cs, v).0 == Push(stages, cs, v).0;
  }

  /** One more stage of a push. */
  lemma AlongStep(stages: seq<Stage>, end: (seq<Ctx>, Option<int>), now: seq<Ctx>, off: nat, v: int)
    requires Along(stages, end, now, off, v) && off < |stages|
    ensures var (c, o) := Step(stages[off], now[off], v);
            if o.None? then end == (now[off := c], None)
            else Along(stages, end, now[off := c], off + 1, o.value)
  {
    var (c, o) := Step(stages[off], now[off], v);
    var next := now[off := c];
    assert stages[off..][1..] == stages[off + 1..];
    assert now[off..][1..] == now[off + 1..] == next[off + 1..];
    if o.None? {
      assert now[..off] + ([c] + now[off + 1..]) == next;
    } else {
      var rest := Push(stages[off + 1..], next[off + 1..], o.value).0;
      assert now[..off] + ([c] + rest) == next[..off + 1] + rest;
    }
  }

  /** The first `k` stages of a push, read forwards. */
  function PushTo(stages: seq<Stage>, cs: seq<Ctx>, x: int, k: nat): (r: (seq<Ctx>, Option<int>))
    requires |cs| == |stages| && k <= |stages|
    ensures |r.0| == |cs|
    decreases k
  {
    if k == 0 then (cs, Some(x))
    else
      var (now, o) := PushTo(stages, cs, x, k - 1);
      if o.None? then (now, None)
      else
        var (c, v) := Step(stages[k - 1], now[k - 1], o.value);
        (now[k - 1 := c], v)
  }

  lemma {:induction false} PushToReaches(stages: seq<Stage>, cs: seq<Ctx>, x: int, k: nat)
    requires |cs| == |stages| && k <= |stages|
    ensures var (now, o) := PushTo(stages, cs, x, k);
            if o.None? then Push(stages, cs, x) == (now, None)
            else Along(stages, Push(stages, cs, x), now, k, o.value)
    ensures k == |stages| ==> PushTo(stages, cs, x, k) == Push(stages, cs, x)
  {
    if k == 0 {
      AlongStart(stages, cs, x);
    } else {
      PushToReaches(stages, cs, x, k - 1);
      var (now, o) := PushTo(stages, cs, x, k - 1);
      if o.Some? {
        AlongStep(stages, Push(stages, cs, x), now, k - 1, o.value);
      }
    }
    if k == |stages| {
      var now := PushTo(stages, cs, x, k).0;
      assert now[k..] == [] && now[..k] + [] == now;
    }
  }

  function ApplyAll(fs: seq<int -> int>, v: int): int {
    if |fs| == 0 then v else fs[|fs| - 1](ApplyAll(fs[..|fs| - 1], v))
  }

  function MapStages(fs: seq<int -> int>): (r: seq<Stage>)
    ensures |r| == |fs|
    ensures forall i | 0 <= i < |fs| :: r[i] == Map(fs[i])
  {
    seq(|fs|, i requires 0 <= i < |fs| => Map(fs[i]))
  }

  /** A merged run of maps is as many stages of a push. */
  lemma {:induction false} PushToMaps(stages: seq<Stage>, cs: seq<Ctx>, x: int, k: nat, fs: seq<int -> int>,
                                      now: seq<Ctx>, v: int)
    requires |cs| == |stages| && k + |fs| <= |stages|
    requires stages[k..k + |fs|] == MapStages(fs)
    requires PushTo(stages, cs, x, k) == (now, Some(v))
    ensures PushTo(stages, cs, x, k + |fs|) == (now, Some(ApplyAll(fs, v)))
    decreases |fs|
  {
    if |fs| > 0 {
      var n := |fs| - 1;
      assert stages[k..k + n] == stages[k..k + |fs|][..n] == MapStages(fs[..n]);
      PushToMaps(stages, cs, x, k, fs[..n], now, v);
      assert stages[k + n] == stages[k..k + |fs|][n] == Map(fs[n]);
      assert now[k + n := now[k + n]] == now;
    }
  }

  /** Every item of a list, one at a time, through a run of per-item stages. */
  function PushAll(stages: seq<Stage>, cs: seq<Ctx>, xs: seq<int>): (r: (seq<Ctx>, seq<int>))
    requires |cs| == |stages|
    ensures |r.0| == |cs|
    decreases xs
  {
    if xs == [] then (cs, [])
    else
      var (c1, o) := Push(stages, cs, xs[0]);
      var (c2, ys) := PushAll(stages, c1, xs[1..]);
      (c2, Emitted(o) + ys)
  }

  predicate AllPerItem(stages: seq<Stage>) {
    forall i | 0 <= i < |stages| :: stages[i].PerItem()
  }

  /** `stage_chain_is_streamable`: per-item stages, then at most one terminal. */
  predicate Streamable(stages: seq<Stage>) {
    stages == [] ||
    (if stages[|stages| - 1].Terminal() then AllPerItem(stages[..|stages| - 1]) else AllPerItem(stages))
  }

  /** In full: every stage is one of the five that work item by item, but the last may
      be a reduce or a last. */
  lemma StreamableMeans(stages: seq<Stage>)
    ensures Streamable(stages) <==>
            forall i | 0 <= i < |stages| ::
              var s := stages[i];
              s.Map? || s.Filter? || s.Scan? || s.DistinctUntilChanged? || s.SkipWhile?
              || (i == |stages| - 1 && (s.Reduce? || s.Last?))
  {
    if stages != [] {
      var n := |stages| - 1;
      assert forall i | 0 <= i < n :: stages[..n][i] == stages[i];
    }
  }

  predicate HasTerminal(stages: seq<Stage>) {
    stages != [] && stages[|stages| - 1].Terminal()
  }

  /** The per-item part of a streamable chain. */
  function Body<T>(stages: seq<Stage>, ts: seq<T>): (r: seq<T>)
    requires |ts| == |stages|
    ensures r <= ts
  {
    if HasTerminal(stages) then ts[..|ts| - 1] else ts
  }

  /** The items that reach the end of the per-item part. */
  function Reaching(stages: seq<Stage>, cs: seq<Ctx>, xs: seq<int>): seq<int>
    requires |cs| == |stages|
  {
    PushAll(Body(stages, stages), Body(stages, cs), Active(xs)).1
  }

  /** `pop_all_streaming_compiled`: contexts and emissions. A terminal stage emits
      once, after the loop, and only when some item reached it. */
  function Fused(stages: seq<Stage>, cs: seq<Ctx>, xs: seq<int>): (r: (seq<Ctx>, seq<int>))
    requires |cs| == |stages|
    ensures |r.0| == |cs|
  {
    var (done, out) := PushAll(Body(stages, stages), Body(stages, cs), Active(xs));
    if !HasTerminal(stages) then (done, out)
    else
      (done + cs[|cs| - 1..],
       if out == [] then []
       else if stages[|stages| - 1].Reduce? then [Fold(stages[|stages| - 1].acc, NULL, out)]
       else [out[|out| - 1]])
  }

  // ------------------------------------------------- the two readings agree

  /** No source item, intermediate item or result is the completion token. */
  predicate TokenFree(stages: seq<Stage>, cs: seq<Ctx>, xs: seq<int>)
    requires |cs| == |stages|
  {
    SENTINEL !in xs &&
    (stages != [] ==> TokenFree(stages[1..], cs[1..], ApplyStage(stages[0], cs[0], xs).1))
  }

  /** A whole-list stage does to `[x] + xs` what `Step` does to `x` and the
      whole-list stage, resumed, does to `xs`. */
  lemma {:induction false} ApplyCons(s: Stage, c: Ctx, x: int, xs: seq<int>)
    requires s.PerItem() && x != SENTINEL && SENTINEL !in xs
    ensures var (c1, o) := Step(s, c, x);
            var (c2, ys) := ApplyStage(s, c1, xs);
            ApplyStage(s, c, [x] + xs) == (c2, Emitted(o) + ys)
  {
    var all := [x] + xs;
    assert all[1..] == xs && x in all;
    ActivePrefix(xs);
    assert Active(all) == [x] + Active(xs) && Active(xs) == xs;
    match s
    case Map(f) =>
    case Filter(p) =>
    case Scan(acc) =>
    case DistinctUntilChanged(key) =>
      assert Emitted(None) + Dedup(key, Some(c.last), xs) == Dedup(key, Some(c.last), xs);
    case SkipWhile(p) =>
      if c.passed || !p(x) {
        assert Emitted(Some(x)) + xs == all;
      } else {
        assert Emitted(None) + DropWhile(p, xs) == DropWhile(p, xs);
      }
  }

  lemma {:induction false} StagedNil(stages: seq<Stage>, cs: seq<Ctx>)
    requires |cs| == |stages| && AllPerItem(stages)
    ensures Staged(stages, cs, []) == (cs, [])
  {
    if stages == [] {
    } else {
      assert stages[0].PerItem();
      StagedNil(stages[1..], cs[1..]);
      assert [cs[0]] + cs[1..] == cs;
    }
  }

  /** The commutation step: a staged run over `[x] + xs` is one push of `x`
      followed by a staged run over `xs` from the contexts the push left. */
  lemma {:induction false} StagedCons(stages: seq<Stage>, cs: seq<Ctx>, x: int, xs: seq<int>)
    requires |cs| == |stages| && AllPerItem(stages)
    requires TokenFree(stages, cs, [x] + xs)
    ensures var (c1, o) := Push(stages, cs, x);
            var (c2, ys) := Staged(stages, c1, xs);
            && TokenFree(stages, c1, xs)
            && Staged(stages, cs, [x] + xs) == (c2, Emitted(o) + ys)
    decreases stages
  {
    var all := [x] + xs;
    assert x in all && all[1..] == xs;
    assert forall y | y in xs :: y in all;
    if stages == [] {
    } else {
      var s, c := stages[0], cs[0];
      assert s.PerItem();
      ApplyCons(s, c, x, xs);
      var (c', o) := Step(s, c, x);
      var (c'', ys) := ApplyStage(s, c', xs);
      assert ApplyStage(s, c, all) == (c'', Emitted(o) + ys);
      var (c1, out) := Push(stages, cs, x);
      assert c1[0] == c';
      if o.Some? {
        StagedCons(stages[1..], cs[1..], o.value, ys);
        assert c1[1..] == Push(stages[1..], cs[1..], o.value).0;
      } else {
        assert Emitted(o) + ys == ys;
        assert c1[1..] == cs[1..];
        assert Emitted(out) + Staged(stages[1..], cs[1..], ys).1 == Staged(stages[1..], cs[1..], ys).1;
      }
    }
  }

  /** Without a terminal stage the two readings agree outright. */
  lemma {:induction false} PushAllIsStaged(stages: seq<Stage>, cs: seq<Ctx>, xs: seq<int>)
    requires |cs| == |stages| && AllPerItem(stages)
    requires TokenFree(stages, cs, xs)
    ensures PushAll(stages, cs, xs) == Staged(stages, cs, xs)
    decreases xs
  {
    if xs == [] {
      StagedNil(stages, cs);
    } else {
      assert xs == [xs[0]] + xs[1..];
      StagedCons(stages, cs, xs[0], xs[1..]);
      PushAllIsStaged(stages, Push(stages, cs, xs[0]).0, xs[1..]);
    }
  }

  /** A staged run of a longer chain is a staged run of its parts. */
  lemma {:induction false} StagedSplit(a: seq<Stage>, b: seq<Stage>, ca: seq<Ctx>, cb: seq<Ctx>, xs: seq<int>)
    requires |ca| == |a| && |cb| == |b|
    ensures var (c1, ys) := Staged(a, ca, xs);
            var (c2, zs) := Staged(b, cb, ys);
            Staged(a + b, ca + cb, xs) == (c1 + c2, zs)
    ensures TokenFree(a + b, ca + cb, xs) ==>
              TokenFree(a, ca, xs) && TokenFree(b, cb, Staged(a, ca, xs).1)
  {
    if a == [] {
      assert a + b == b && ca + cb == cb;
      assert ca + Staged(b, cb, xs).0 == Staged(b, cb, xs).0;
    } else {
      assert (a + b)[1..] == a[1..] + b && (ca + cb)[1..] == ca[1..] + cb;
      var (c, mid) := ApplyStage(a[0], ca[0], xs);
      StagedSplit(a[1..], b, ca[1..], cb, mid);
      var (rest, ys) := Staged(a[1..], ca[1..], mid);
      var c2 := Staged(b, cb, ys).0;
      assert [c] + (rest + c2) == ([c] + rest) + c2;
    }
  }

  /** Nothing reaches the terminal stage of the chain. */
  predicate Starved(stages: seq<Stage>, cs: seq<Ctx>, xs: seq<int>)
    requires |cs| == |stages|
  {
    HasTerminal(stages) && Reaching(stages, cs, xs) == []
  }

  lemma {:induction false} TokenFreeOut(stages: seq<Stage>, cs: seq<Ctx>, xs: seq<int>)
    requires |cs| == |stages| && TokenFree(stages, cs, xs)
    ensures SENTINEL !in Staged(stages, cs, xs).1
  {
    if stages != [] {
      TokenFreeOut(stages[1..], cs[1..], ApplyStage(stages[0], cs[0], xs).1);
    }
  }

  lemma TerminalStaged(stage: Stage, c: Ctx, xs: seq<int>)
    requires stage.Terminal()
    ensures Staged([stage], [c], xs) == ([c], ApplyStage(stage, c, xs).1)
  {
    var out := ApplyStage(stage, c, xs).1;
    assert [stage][1..] == [] && [c][1..] == [];
    assert Staged([], [], out) == ([], out) && [c] + [] == [c];
  }

  /** The staged reading of a terminal stage behind per-item ones. */
  lemma TerminalAfter(body: seq<Stage>, t: Stage, bodyCs: seq<Ctx>, c: Ctx, xs: seq<int>)
    requires |bodyCs| == |body| && AllPerItem(body) && t.Terminal() && TokenFree(body + [t], bodyCs + [c], xs)
    ensures var (done, reaching) := PushAll(body, bodyCs, xs);
            && SENTINEL !in reaching
            && Staged(body + [t], bodyCs + [c], xs) == (done + [c], ApplyStage(t, c, reaching).1)
  {
    StagedSplit(body, [t], bodyCs, [c], xs);
    PushAllIsStaged(body, bodyCs, xs);
    TokenFreeOut(body, bodyCs, xs);
    TerminalStaged(t, c, Staged(body, bodyCs, xs).1);
  }

  /** The staged reading of a chain that ends in a terminal stage. */
  lemma FusedTerminal(stages: seq<Stage>, cs: seq<Ctx>, xs: seq<int>)
    requires |cs| == |stages| && Streamable(stages) && HasTerminal(stages)
    requires TokenFree(stages, cs, xs)
    ensures var n := |stages| - 1;
            var (done, reaching) := PushAll(stages[..n], cs[..n], xs);
            && SENTINEL !in reaching
            && Staged(stages, cs, xs) == (done + cs[n..], ApplyStage(stages[n], cs[n], reaching).1)
  {
    var n := |stages| - 1;
    assert stages == stages[..n] + [stages[n]] && cs == cs[..n] + [cs[n]] && cs[n..] == [cs[n]];
    TerminalAfter(stages[..n], stages[n], cs[..n], cs[n], xs);
  }

  /** What the fused executor makes of a chain that ends in a terminal stage: what that
      stage makes of the items that reach it, and nothing where none does. */
  lemma TerminalEmits(stages: seq<Stage>, cs: seq<Ctx>, xs: seq<int>)
    requires |cs| == |stages| && HasTerminal(stages) && SENTINEL !in xs
    requires var n := |stages| - 1; SENTINEL !in PushAll(stages[..n], cs[..n], xs).1
    ensures var n := |stages| - 1;
            var (done, reaching) := PushAll(stages[..n], cs[..n], xs);
            var last := ApplyStage(stages[n], cs[n], reaching).1;
            && Reaching(stages, cs, xs) == reaching && |last| == 1
            && Fused(stages, cs, xs) == (done + cs[n..], if reaching == [] then [] else last)
            && (reaching == [] ==> last == [NULL])
  {
    var n := |stages| - 1;
    ActivePrefix(xs);
    ActivePrefix(PushAll(stages[..n], cs[..n], xs).1);
  }

  /** The fused executor against the staged one: same contexts always; same
      emissions exactly when the terminal stage, if any, receives an item; and
      otherwise the staged path emits one NULL where the fused path is silent. */
  lemma FusedMatchesStaged(stages: seq<Stage>, cs: seq<Ctx>, xs: seq<int>)
    requires |cs| == |stages| && Streamable(stages)
    requires TokenFree(stages, cs, xs)
    ensures Fused(stages, cs, xs).0 == Staged(stages, cs, xs).0
    ensures Fused(stages, cs, xs).1 == Active(Staged(stages, cs, xs).1) <==> !Starved(stages, cs, xs)
    ensures Starved(stages, cs, xs) ==>
              Fused(stages, cs, xs).1 == [] && Active(Staged(stages, cs, xs).1) == [NULL]
  {
    ActivePrefix(xs);
    TokenFreeOut(stages, cs, xs);
    ActivePrefix(Staged(stages, cs, xs).1);
    if HasTerminal(stages) {
      FusedTerminal(stages, cs, xs);
      TerminalEmits(stages, cs, xs);
    } else {
      PushAllIsStaged(stages, cs, xs);
    }
  }

  // ------------------------------------------------------ a leading mergeMap

  /** One pair for every outer and inner item. */
  lemma {:induction false} MergeRowsLength(pair: (int, int) -> int, inner: seq<int>, outer: seq<int>)
    ensures |MergeRows(pair, inner, outer)| == |outer| * |inner|
  {
    if outer != [] {
      MergeRowsLength(pair, inner, outer[1..]);
      assert |outer| * |inner| == |inner| + (|outer| - 1) * |inner|;
    }
  }

  /** Element `i` of row `oi` sits at index `oi * |inner| + i`. */
  lemma {:induction false} MergeRowsAt(pair: (int, int) -> int, inner: seq<int>, outer: seq<int>, oi: nat, i: nat)
    requires oi < |outer| && i < |inner|
    ensures 0 <= oi * |inner| + i < |MergeRows(pair, inner, outer)|
    ensures MergeRows(pair, inner, outer)[oi * |inner| + i] == pair(inner[i], outer[oi])
  {
    if oi > 0 {
      MergeRowsAt(pair, inner, outer[1..], oi - 1, i);
      var k := (oi - 1) * |inner| + i;
      assert oi * |inner| + i == |inner| + k;
      assert MergeRows(pair, inner, outer)[|inner| + k] == MergeRows(pair, inner, outer[1..])[k];
    } else {
      assert oi * |inner| + i == i;
      assert MergeRows(pair, inner, outer)[i] == MergeRow(pair, inner, outer[0])[i];
    }
  }

  /** Only a token at the very end is left out: any other list counts whole. */
  lemma TrailingToken(xs: seq<int>)
    ensures xs == [] || xs[|xs| - 1] != 0xDEADBEEF ==> WithoutTrailingToken(xs) == xs
    ensures WithoutTrailingToken(xs + [0xDEADBEEF]) == xs
  {
    assert (xs + [0xDEADBEEF])[..|xs|] == xs;
  }

  /** mergeMap pairs every item with every outer item, outer item by outer item. */
  lemma MergeMapMeans(outer: seq<int>, pair: (int, int) -> int, c: Ctx, xs: seq<int>, oi: nat, i: nat)
    requires 0xDEADBEEF !in outer && 0xDEADBEEF !in xs
    ensures |ApplyStage(MergeMap(outer, pair), c, xs).1| == |outer| * |xs|
    ensures oi < |outer| && i < |xs| ==>
              && 0 <= oi * |xs| + i < |ApplyStage(MergeMap(outer, pair), c, xs).1|
              && ApplyStage(MergeMap(outer, pair), c, xs).1[oi * |xs| + i] == pair(xs[i], outer[oi])
  {
    TrailingToken(xs);
    TrailingToken(outer);
    MergeRowsLength(pair, xs, outer);
    if oi < |outer| && i < |xs| {
      MergeRowsAt(pair, xs, outer, oi, i);
    }
  }

  lemma {:induction false} ActiveBefore(xs: seq<int>, rest: seq<int>)
    requires 0xDEADBEEF !in xs && (rest == [] || rest[0] == 0xDEADBEEF)
    ensures Active(xs + rest) == xs
  {
    if xs == [] {
      assert xs + rest == rest;
    } else {
      assert (xs + rest)[1..] == xs[1..] + rest;
      ActiveBefore(xs[1..], rest);
    }
  }

  /** The terminal stages of a list, with or without its completion token: the fold
      from 0, and the last item. */
  lemma ReduceMeans(acc: (int, int) -> int, c: Ctx, xs: seq<int>)
    requires 0xDEADBEEF !in xs
    ensures ApplyStage(Reduce(acc), c, xs).1 == [Fold(acc, 0, xs)]
    ensures ApplyStage(Reduce(acc), c, xs + [0xDEADBEEF]).1 == [Fold(acc, 0, xs)]
  {
    assert xs + [] == xs;
    ActiveBefore(xs, []);
    ActiveBefore(xs, [0xDEADBEEF]);
  }

  lemma LastMeans(c: Ctx, xs: seq<int>)
    requires 0xDEADBEEF !in xs && xs != []
    ensures ApplyStage(Last, c, xs).1 == [xs[|xs| - 1]]
    ensures ApplyStage(Last, c, xs + [0xDEADBEEF]).1 == [xs[|xs| - 1]]
  {
    assert xs[|xs| - 1] in xs;
  }

  /** The mixed path of `pop_all`: `mergeMap` on the whole list, then the fused
      executor on the rest of the chain. */
  function MergeThenFused(stages: seq<Stage>, cs: seq<Ctx>, xs: seq<int>): (seq<Ctx>, seq<int>)
    requires |cs| == |stages| && stages != []
  {
    var (c, ys) := ApplyStage(stages[0], cs[0], xs);
    var (rest, out) := Fused(stages[1..], cs[1..], ys);
    ([c] + rest, out)
  }

  lemma MergeThenFusedMatchesStaged(stages: seq<Stage>, cs: seq<Ctx>, xs: seq<int>)
    requires |cs| == |stages| && |stages| > 1 && stages[0].MergeMap? && Streamable(stages[1..])
    requires TokenFree(stages, cs, xs)
    ensures MergeThenFused(stages, cs, xs).0 == Staged(stages, cs, xs).0
    ensures MergeThenFused(stages, cs, xs).1 == Active(Staged(stages, cs, xs).1) <==>
            !Starved(stages[1..], cs[1..], ApplyStage(stages[0], cs[0], xs).1)
  {
    FusedMatchesStaged(stages[1..], cs[1..], ApplyStage(stages[0], cs[0], xs).1);
  }

  // ----------------------------------------------------- the three-way choice

  predicate MergesThenStreams(stages: seq<Stage>) {
    |stages| > 1 && stages[0].MergeMap? && Streamable(stages[1..])
  }

  /** `pop_all` on a batch: the path is chosen by the chain alone. */
  function Popped(stages: seq<Stage>, cs: seq<Ctx>, xs: seq<int>): (seq<Ctx>, seq<int>)
    requires |cs| == |stages|
  {
    if stages != [] && Streamable(stages) then Fused(stages, cs, xs)
    else if MergesThenStreams(stages) then MergeThenFused(stages, cs, xs)
    else (Staged(stages, cs, xs).0, Active(Staged(stages, cs, xs).1))
  }

  /** Whether the batch completes the observable. */
  predicate Completes(stages: seq<Stage>, cs: seq<Ctx>, xs: seq<int>)
    requires |cs| == |stages|
  {
    if stages != [] && Streamable(stages) then SENTINEL in xs
    else if MergesThenStreams(stages) then SENTINEL in ApplyStage(stages[0], cs[0], xs).1
    else SENTINEL in Staged(stages, cs, xs).1
  }

  /** On a fused chain the completion token completes, wherever it stands. */
  lemma TokenCompletes(stages: seq<Stage>, cs: seq<Ctx>, xs: seq<int>)
    requires |cs| == |stages| && stages != [] && Streamable(stages)
    ensures Completes(stages, cs, xs) <==> exists i :: 0 <= i < |xs| && xs[i] == 0xDEADBEEF
  {
  }

  /** A terminal stage of a fused path receives nothing. */
  predicate SilentPop(stages: seq<Stage>, cs: seq<Ctx>, xs: seq<int>)
    requires |cs| == |stages|
  {
    if stages != [] && Streamable(stages) then Starved(stages, cs, xs)
    else MergesThenStreams(stages) && Starved(stages[1..], cs[1..], ApplyStage(stages[0], cs[0], xs).1)
  }

  /** Whichever path `pop_all` takes, a token-free batch leaves the contexts of the
      staged path, and its emissions unless a fused terminal received nothing. */
  lemma PoppedMatchesStaged(stages: seq<Stage>, cs: seq<Ctx>, xs: seq<int>)
    requires |cs| == |stages| && TokenFree(stages, cs, xs)
    ensures Popped(stages, cs, xs).0 == Staged(stages, cs, xs).0
    ensures Popped(stages, cs, xs).1 == Active(Staged(stages, cs, xs).1) <==> !SilentPop(stages, cs, xs)
    ensures !Completes(stages, cs, xs)
  {
    TokenFreeOut(stages, cs, xs);
    if stages != [] && Streamable(stages) {
      FusedMatchesStaged(stages, cs, xs);
    } else if MergesThenStreams(stages) {
      MergeThenFusedMatchesStaged(stages, cs, xs);
    }
  }

  // --------------------------------------------------------- batch splitting

  /** What a subscriber sees of an observable with a streamable chain. */
  datatype Live = Live(ctxs: seq<Ctx>, complete: bool, seen: seq<int>)

  /** One `pop_all` on a batch: a completed observable takes nothing more, and
      a completion token ends the batch and completes the observable. */
  function Deliver(stages: seq<Stage>, o: Live, batch: seq<int>): (r: Live)
    requires |o.ctxs| == |stages|
    ensures |r.ctxs| == |stages|
  {
    if o.complete then o
    else
      var (cs, out) := Fused(stages, o.ctxs, batch);
      Live(cs, SENTINEL in batch, o.seen + out)
  }

  function DeliverAll(stages: seq<Stage>, o: Live, batches: seq<seq<int>>): (r: Live)
    requires |o.ctxs| == |stages|
    ensures |r.ctxs| == |stages|
    decreases batches
  {
    if batches == [] then o else DeliverAll(stages, Deliver(stages, o, batches[0]), batches[1..])
  }

  lemma {:induction false} PushAllConcat(stages: seq<Stage>, cs: seq<Ctx>, xs: seq<int>, ys: seq<int>)
    requires |cs| == |stages|
    ensures var (c1, a) := PushAll(stages, cs, xs);
            var (c2, b) := PushAll(stages, c1, ys);
            PushAll(stages, cs, xs + ys) == (c2, a + b)
    decreases xs
  {
    if xs == [] {
      assert xs + ys == ys;
      assert [] + PushAll(stages, cs, ys).1 == PushAll(stages, cs, ys).1;
    } else {
      assert (xs + ys)[1..] == xs[1..] + ys;
      var (c1, o) := Push(stages, cs, xs[0]);
      PushAllConcat(stages, c1, xs[1..], ys);
      var (c', a) := PushAll(stages, c1, xs[1..]);
      var b := PushAll(stages, c', ys).1;
      assert Emitted(o) + (a + b) == (Emitted(o) + a) + b;
    }
  }

  lemma ActiveCons(x: int, rest: seq<int>)
    ensures Active([x] + rest) == if x == SENTINEL then [] else [x] + Active(rest)
  {
    assert ([x] + rest)[1..] == rest;
  }

  lemma {:induction false} ActiveConcat(xs: seq<int>, ys: seq<int>)
    ensures Active(xs + ys) == if SENTINEL in xs then Active(xs) else xs + Active(ys)
    decreases |xs|
  {
    if xs == [] {
      assert xs + ys == ys;
    } else {
      var x, rest := xs[0], xs[1..];
      assert xs == [x] + rest && xs + ys == [x] + (rest + ys);
      ActiveCons(x, rest + ys);
      ActiveCons(x, rest);
      ActiveConcat(rest, ys);
      AppendAssoc([x], rest, Active(ys));
    }
  }

  lemma DeliverDone(stages: seq<Stage>, o: Live, xs: seq<int>, ys: seq<int>)
    requires |o.ctxs| == |stages| && SENTINEL in xs
    ensures Deliver(stages, Deliver(stages, o, xs), ys) == Deliver(stages, o, xs + ys)
  {
    ActiveConcat(xs, ys);
  }

  lemma DeliverMore(stages: seq<Stage>, o: Live, xs: seq<int>, ys: seq<int>)
    requires |o.ctxs| == |stages| && !HasTerminal(stages) && !o.complete && SENTINEL !in xs
    ensures Deliver(stages, Deliver(stages, o, xs), ys) == Deliver(stages, o, xs + ys)
  {
    ActiveConcat(xs, ys);
    ActivePrefix(xs);
    PushAllConcat(stages, o.ctxs, xs, Active(ys));
    var (c1, a) := PushAll(stages, o.ctxs, xs);
    var b := PushAll(stages, c1, Active(ys)).1;
    AppendAssoc(o.seen, a, b);
  }

  lemma DeliverConcat(stages: seq<Stage>, o: Live, xs: seq<int>, ys: seq<int>)
    requires |o.ctxs| == |stages| && !HasTerminal(stages)
    ensures Deliver(stages, Deliver(stages, o, xs), ys) == Deliver(stages, o, xs + ys)
  {
    if SENTINEL in xs {
      DeliverDone(stages, o, xs, ys);
    } else if !o.complete {
      DeliverMore(stages, o, xs, ys);
    }
  }

  /** One stage more at the end of a staged run. */
  lemma StagedSnoc(stages: seq<Stage>, cs: seq<Ctx>, xs: seq<int>, k: nat)
    requires |cs| == |stages| && k < |stages|
    ensures var (now, ys) := Staged(stages[..k], cs[..k], xs);
            var (c, zs) := ApplyStage(stages[k], cs[k], ys);
            Staged(stages[..k + 1], cs[..k + 1], xs) == (now + [c], zs)
  {
    var s, c := [stages[k]], [cs[k]];
    assert stages[..k + 1] == stages[..k] + s && cs[..k + 1] == cs[..k] + c;
    StagedSplit(stages[..k], s, cs[..k], c, xs);
    var ys := Staged(stages[..k], cs[..k], xs).1;
    var (c', zs) := ApplyStage(stages[k], cs[k], ys);
    assert s[1..] == [] && c[1..] == [] && [c'] + [] == [c'];
    assert Staged(s, c, ys) == ([c'], zs);
  }

  /** However a source is cut into batches, down to one item each, the subscriber
      sees what one batch would show and the contexts end the same, tokens included. */
  lemma {:induction false} BatchesDoNotMatter(stages: seq<Stage>, o: Live, batches: seq<seq<int>>)
    requires |o.ctxs| == |stages| && !HasTerminal(stages)
    ensures DeliverAll(stages, o, batches) ==
            if batches == [] then o else Deliver(stages, o, Flatten(batches))
    decreases batches
  {
    if |batches| == 1 {
      assert batches[1..] == [] && Flatten(batches) == batches[0] + Flatten([]) == batches[0];
    } else if batches != [] {
      BatchesDoNotMatter(stages, Deliver(stages, o, batches[0]), batches[1..]);
      DeliverConcat(stages, o, batches[0], Flatten(batches[1..]));
    }
  }
}
