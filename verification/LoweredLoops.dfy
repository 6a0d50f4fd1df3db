/** What a compiled pipeline computes: the stages as they were written, read as list
    transforms, against the lowered operators and slots as core/planner/astgen.c emits
    them. */
module LoweredLoops {
  import opened Lists
  import opened CInt
  import opened Lowering
  import Emitted = EmittedLoops
  import Exprs
  import Loops = GeneratedLoops
  import LoopOps

  /** The helper functions of a program by name. */
  datatype Helpers = Helpers(
    unary: string -> (int -> int), binary: string -> ((int, int) -> int), ternary: string -> ((int, int, int) -> int))

  function NameOf(b: Binding): string {
    if b.FunctionName? then b.name else ""
  }

  function NumberOf(l: Literal): int {
    if l.Int? then l.value else 0
  }

  /** A literal number, or 0: `op_literal_value`. */
  function Number(b: Binding): int {
    if b.LiteralBinding? then NumberOf(b.literal) else 0
  }

  function Truthy(f: int -> int): (p: int -> bool)
    ensures forall x :: p(x) <==> f(x) != 0
  {
    x => f(x) != 0
  }

  // --------------------------------------------------- the pipeline as written

  /** The stages between source and terminal that are read here. */
  predicate Middle(k: StageKind) {
    k.Map? || k.Filter? || k.Scan? || k.ScanFrom? || k.Take? || k.Skip? || k.TakeWhile? || k.SkipWhile?
    || k.DistinctUntilChanged?
  }

  function StageMeaning(h: Helpers, s: StageCall): LoopOps.Op
    requires Middle(KindOf(s))
  {
    match KindOf(s)
    case Map => LoopOps.Map(h.unary(NameOf(s.primary)))
    case Filter => LoopOps.Filter(Truthy(h.unary(NameOf(s.primary))))
    case Scan => LoopOps.Scan(h.binary(NameOf(s.primary)))
    case ScanFrom => LoopOps.Scan(h.binary(NameOf(s.primary)))
    case Take => LoopOps.Take(Number(s.primary))
    case Skip => LoopOps.Skip(Number(s.primary))
    case TakeWhile => LoopOps.TakeWhile(Truthy(h.unary(NameOf(s.primary))))
    case SkipWhile => LoopOps.SkipWhile(Truthy(h.unary(NameOf(s.primary))))
    case DistinctUntilChanged => LoopOps.DistinctUntilChanged(h.unary(NameOf(s.primary)))
  }

  /** Where the stages between the leading map and the terminal begin and end. */
  function From(p: PipelineIr): nat {
    if p.source.kind.Some? && FirstKind(p.source.kind.value).Some? then 1 else 0
  }

  function To(p: PipelineIr): nat
    ensures To(p) <= |p.stages|
  {
    var n := |p.stages|;
    if n > 0 && Terminal(KindOf(p.stages[n - 1])) then n - 1 else n
  }

  /** A pipeline of the stages read here, with a source that counts. */
  predicate Readable(p: PipelineIr) {
    && p.source.kind.Some?
    && (var k := p.source.kind.value; k.Range? || k.SyntheticRecords? || k.Zip? || k.ZipRange? || k.ZipMergeMapRange?)
    && From(p) <= To(p)
    && (forall i | From(p) <= i < To(p) :: Middle(KindOf(p.stages[i])))
    && (To(p) < |p.stages| ==> KindOf(p.stages[To(p)]).Reduce? || KindOf(p.stages[To(p)]).Last?)
  }

  function StageOps(h: Helpers, p: PipelineIr): (r: seq<LoopOps.Op>)
    requires Readable(p)
    ensures |r| == To(p) - From(p)
  {
    seq(To(p) - From(p), i requires 0 <= i < To(p) - From(p) => StageMeaning(h, p.stages[From(p) + i]))
  }

  /** The seed of the last scan among some stages: 0, or the number it starts from. */
  function SeedOf(stages: seq<StageCall>): int {
    if stages == [] then 0
    else
      var s := stages[|stages| - 1];
      if KindOf(s).Scan? then 0
      else if KindOf(s).ScanFrom? || KindOf(s).ScanMut? then Number(s.secondary)
      else SeedOf(stages[..|stages| - 1])
  }

  function ArgumentNumber(s: SourceCall, i: nat): int {
    if i < |s.arguments| then Number(s.arguments[i]) else 0
  }

  /** The items of the source; `n` is the bound the loop is called with. */
  function SourceMeaning(h: Helpers, p: PipelineIr, n: int): Loops.Source
    requires Readable(p)
    requires From(p) == 1 ==> p.stages != []
  {
    match p.source.kind.value
    case SyntheticRecords => Loops.SyntheticRecords(ArgumentNumber(p.source, 0))
    case Zip =>
      Loops.ZipSynthetic(ArgumentNumber(p.source, 1), ArgumentNumber(p.source, 2),
                         h.binary(NameOf(p.stages[0].primary)))
    case ZipRange => Loops.ZipRange(n, h.binary(NameOf(p.stages[0].primary)))
    case ZipMergeMapRange =>
      Loops.ZipMergeMapRange(n, ArgumentNumber(p.source, 0), h.ternary(NameOf(p.stages[0].primary)))
    case _ => Loops.Range(n)
  }

  function TerminalMeaning(h: Helpers, p: PipelineIr): Loops.Terminal
    requires Readable(p)
  {
    if To(p) == |p.stages| then Loops.NoTerminal
    else
      var s := p.stages[To(p)];
      if KindOf(s).Reduce? then Loops.Reduce(h.binary(NameOf(s.primary)), Number(s.secondary)) else Loops.Last
  }

  // ----------------------------------------------------- the lowered operators

  predicate MiddleOp(k: OpKind) {
    k.CallMap? || k.CallFilter? || k.CallScan? || k.ApplyTake? || k.ApplySkip? || k.ApplyTakeWhile?
    || k.ApplySkipWhile? || k.ApplyDistinctUntilChanged?
  }

  /** The code emitted for a lowered operator; its stage gives the function and the
      literal. */
  function OpMeaning(h: Helpers, k: OpKind, s: PlannedStage): LoopOps.Op
    requires MiddleOp(k)
  {
    match k
    case CallMap => LoopOps.Map(h.unary(NameOf(s.primary)))
    case CallFilter => LoopOps.Filter(Truthy(h.unary(NameOf(s.primary))))
    case CallScan => LoopOps.Scan(h.binary(NameOf(s.primary)))
    case ApplyTake => LoopOps.Take(Number(s.primary))
    case ApplySkip => LoopOps.Skip(Number(s.primary))
    case ApplyTakeWhile => LoopOps.TakeWhile(Truthy(h.unary(NameOf(s.primary))))
    case ApplySkipWhile => LoopOps.SkipWhile(Truthy(h.unary(NameOf(s.primary))))
    case ApplyDistinctUntilChanged => LoopOps.DistinctUntilChanged(h.unary(NameOf(s.primary)))
  }

  /** Where an accumulator starts: the slot its operator points to. */
  function SlotSeed(l: Lowered, op: LoopOp): int {
    if 0 <= op.slot < |l.slots| then NumberOf(l.slots[op.slot].initial) else 0
  }

  /** The loop as far as it has been read from the operators. */
  datatype Reading = Reading(src: Loops.Source, ops: seq<LoopOps.Op>, seed: int, terminal: Loops.Terminal)

  /** What one lowered operator adds to the loop. */
  function ReadOp(h: Helpers, l: Lowered, s: PlannedStage, op: LoopOp, n: int, r: Reading): Reading {
    match op.kind
    case CallPairMap =>
      var f := h.binary(NameOf(s.primary));
      r.(src := if l.source.Zip? then Loops.ZipSynthetic(l.count, l.innerN, f) else Loops.ZipRange(n, f))
    case CallTripleMap => r.(src := Loops.ZipMergeMapRange(n, l.innerN, h.ternary(NameOf(s.primary))))
    case CallReduce => r.(terminal := Loops.Reduce(h.binary(NameOf(s.primary)), SlotSeed(l, op)))
    case ApplyLast => r.(terminal := Loops.Last)
    case CallScan => r.(ops := r.ops + [OpMeaning(h, op.kind, s)], seed := SlotSeed(l, op))
    case _ => if MiddleOp(op.kind) then r.(ops := r.ops + [OpMeaning(h, op.kind, s)]) else r
  }

  /** The first `i` stages have been read as they were written. */
  ghost predicate ReadUpTo(h: Helpers, p: PipelineIr, n: int, i: nat, r: Reading)
    requires Readable(p) && (From(p) == 1 ==> p.stages != []) && i <= |p.stages|
  {
    && (i >= From(p) ==> r.src == SourceMeaning(h, p, n))
    && r.ops == (if i < From(p) then [] else StageOps(h, p)[..(if i < To(p) then i else To(p)) - From(p)])
    && r.seed == SeedOf(p.stages[..i])
    && r.terminal == (if i <= To(p) then Loops.NoTerminal else TerminalMeaning(h, p))
  }

  /** The pipeline has been accepted, planned and lowered. */
  ghost predicate Compiled(p: PipelineIr, planned: Planned, l: Lowered) {
    Accepted(p) && PlanOf(p, planned) && LoweredAs(l, planned)
  }

  /** An operator of a compiled pipeline goes by its stage as written. */
  lemma CompiledOp(p: PipelineIr, planned: Planned, l: Lowered, i: nat)
    requires Compiled(p, planned, l) && i < |p.stages|
    ensures |l.ops| == |p.stages| == |planned.stages| && l.ops[i].stage == i
    ensures !KindOf(p.stages[i]).Unsupported? && l.ops[i].kind == OpOf(KindOf(p.stages[i]))
    ensures planned.stages[i].primary == p.stages[i].primary
    ensures KindOf(p.stages[i]).Scan? ==> SlotSeed(l, l.ops[i]) == 0
    ensures KindOf(p.stages[i]).ScanFrom? || KindOf(p.stages[i]).ScanMut? || KindOf(p.stages[i]).Reduce? ==>
              SlotSeed(l, l.ops[i]) == Number(p.stages[i].secondary)
  {
    assert planned.stages[i] == PlanStage(p.stages[i]);
    assert Owns(l.ops[i], planned.stages[i], i, SlotCount(planned.stages, i), l.slots);
  }

  lemma SeedMore(stages: seq<StageCall>, i: nat)
    requires i < |stages|
    ensures SeedOf(stages[..i + 1]) ==
            if KindOf(stages[i]).Scan? then 0
            else if KindOf(stages[i]).ScanFrom? || KindOf(stages[i]).ScanMut? then Number(stages[i].secondary)
            else SeedOf(stages[..i])
  {
    assert stages[..i + 1][..i] == stages[..i];
  }

  /** The leading map. */
  lemma ReadLead(h: Helpers, p: PipelineIr, planned: Planned, l: Lowered, n: int, r: Reading)
    requires Readable(p) && Compiled(p, planned, l) && From(p) == 1 && p.stages != []
    requires ReadUpTo(h, p, n, 0, r)
    ensures |l.ops| == |planned.stages| == |p.stages|
    ensures ReadUpTo(h, p, n, 1, ReadOp(h, l, planned.stages[0], l.ops[0], n, r))
  {
    CompiledOp(p, planned, l, 0);
    SeedMore(p.stages, 0);
  }

  /** The operator of a middle stage is read as the stage means. */
  lemma MiddleRead(h: Helpers, l: Lowered, s: StageCall, planned: PlannedStage, op: LoopOp, n: int, r: Reading)
    requires Middle(KindOf(s)) && op.kind == OpOf(KindOf(s)) && planned.primary == s.primary
    ensures ReadOp(h, l, planned, op, n, r) ==
            Reading(r.src, r.ops + [StageMeaning(h, s)], if op.kind.CallScan? then SlotSeed(l, op) else r.seed,
                    r.terminal)
  {
    assert MiddleOp(op.kind) && OpMeaning(h, op.kind, planned) == StageMeaning(h, s);
  }

  lemma OpsMore(h: Helpers, p: PipelineIr, i: nat)
    requires Readable(p) && From(p) <= i < To(p)
    ensures StageOps(h, p)[..i + 1 - From(p)] == StageOps(h, p)[..i - From(p)] + [StageMeaning(h, p.stages[i])]
  {
  }

  lemma SeedRead(p: PipelineIr, planned: Planned, l: Lowered, i: nat)
    requires Compiled(p, planned, l) && i < |p.stages| && !KindOf(p.stages[i]).ScanMut?
    ensures |l.ops| == |p.stages|
    ensures SeedOf(p.stages[..i + 1]) ==
            if l.ops[i].kind.CallScan? then SlotSeed(l, l.ops[i]) else SeedOf(p.stages[..i])
  {
    CompiledOp(p, planned, l, i);
    SeedMore(p.stages, i);
  }

  lemma MiddleStep(h: Helpers, p: PipelineIr, n: int, i: nat, r: Reading)
    requires Readable(p) && (From(p) == 1 ==> p.stages != []) && From(p) <= i < To(p)
    requires ReadUpTo(h, p, n, i, r)
    ensures ReadUpTo(h, p, n, i + 1, Reading(r.src, r.ops + [StageMeaning(h, p.stages[i])], SeedOf(p.stages[..i + 1]),
                                             r.terminal))
  {
    OpsMore(h, p, i);
  }

  lemma ReadMiddle(h: Helpers, p: PipelineIr, planned: Planned, l: Lowered, n: int, i: nat, r: Reading)
    requires Readable(p) && Compiled(p, planned, l) && From(p) <= i < To(p)
    requires From(p) == 1 ==> p.stages != []
    requires ReadUpTo(h, p, n, i, r)
    ensures |l.ops| == |planned.stages| == |p.stages|
    ensures ReadUpTo(h, p, n, i + 1, ReadOp(h, l, planned.stages[i], l.ops[i], n, r))
  {
    CompiledOp(p, planned, l, i);
    SeedRead(p, planned, l, i);
    MiddleRead(h, l, p.stages[i], planned.stages[i], l.ops[i], n, r);
    MiddleStep(h, p, n, i, r);
    assert r.seed == SeedOf(p.stages[..i]);
  }

  lemma TerminalRead(h: Helpers, l: Lowered, s: StageCall, planned: PlannedStage, op: LoopOp, n: int, r: Reading)
    requires (KindOf(s).Reduce? || KindOf(s).Last?) && op.kind == OpOf(KindOf(s)) && planned.primary == s.primary
    requires KindOf(s).Reduce? ==> SlotSeed(l, op) == Number(s.secondary)
    ensures ReadOp(h, l, planned, op, n, r) == r.(terminal :=
              if KindOf(s).Reduce? then Loops.Reduce(h.binary(NameOf(s.primary)), Number(s.secondary)) else Loops.Last)
  {
  }

  lemma ReadTerminal(h: Helpers, p: PipelineIr, planned: Planned, l: Lowered, n: int, i: nat, r: Reading)
    requires Readable(p) && Compiled(p, planned, l) && i == To(p) < |p.stages|
    requires ReadUpTo(h, p, n, i, r)
    ensures |l.ops| == |planned.stages| == |p.stages|
    ensures ReadUpTo(h, p, n, i + 1, ReadOp(h, l, planned.stages[i], l.ops[i], n, r))
  {
    CompiledOp(p, planned, l, i);
    SeedMore(p.stages, i);
    TerminalRead(h, l, p.stages[i], planned.stages[i], l.ops[i], n, r);
  }

  lemma ReadStart(h: Helpers, p: PipelineIr, planned: Planned, l: Lowered, n: int)
    requires Readable(p) && Compiled(p, planned, l)
    ensures From(p) == 1 ==> p.stages != []
    ensures |l.ops| == |planned.stages| == |p.stages|
    ensures var src := if l.source.SyntheticRecords? then Loops.SyntheticRecords(l.count) else Loops.Range(n);
            ReadUpTo(h, p, n, 0, Reading(src, [], 0, Loops.NoTerminal))
  {
    assert p.stages[..0] == [];
  }

  lemma ReadEnd(h: Helpers, p: PipelineIr, n: int, r: Reading)
    requires Readable(p) && (From(p) == 1 ==> p.stages != []) && ReadUpTo(h, p, n, |p.stages|, r)
    ensures r == Reading(SourceMeaning(h, p, n), StageOps(h, p), SeedOf(p.stages), TerminalMeaning(h, p))
  {
    assert StageOps(h, p)[..To(p) - From(p)] == StageOps(h, p) && p.stages[..|p.stages|] == p.stages;
  }

  /** One more operator, whatever its stage is. */
  lemma ReadStep(h: Helpers, p: PipelineIr, planned: Planned, l: Lowered, n: int, i: nat, r: Reading)
    requires Readable(p) && Compiled(p, planned, l) && i < |p.stages|
    requires ReadUpTo(h, p, n, i, r)
    ensures |l.ops| == |planned.stages| == |p.stages| && l.ops[i].stage == i
    ensures ReadUpTo(h, p, n, i + 1, ReadOp(h, l, planned.stages[i], l.ops[i], n, r))
  {
    CompiledOp(p, planned, l, i);
    if i < From(p) {
      ReadLead(h, p, planned, l, n, r);
    } else if i < To(p) {
      ReadMiddle(h, p, planned, l, n, i, r);
    } else {
      ReadTerminal(h, p, planned, l, n, i, r);
    }
  }

  /** The emitter's pass over the operators. */
  method ReadLoop(h: Helpers, ghost p: PipelineIr, planned: Planned, l: Lowered, n: int) returns (r: Reading)
    requires Readable(p) && Compiled(p, planned, l)
    ensures From(p) == 1 ==> p.stages != []
    ensures r == Reading(SourceMeaning(h, p, n), StageOps(h, p), SeedOf(p.stages), TerminalMeaning(h, p))
  {
    ReadStart(h, p, planned, l, n);
    r := Reading(if l.source.SyntheticRecords? then Loops.SyntheticRecords(l.count) else Loops.Range(n), [], 0,
                 Loops.NoTerminal);
    for i := 0 to |l.ops|
      invariant ReadUpTo(h, p, n, i, r)
    {
      ReadStep(h, p, planned, l, n, i, r);
      r := ReadOp(h, l, planned.stages[l.ops[i].stage], l.ops[i], n, r);
    }
    ReadEnd(h, p, n, r);
  }

  lemma MiddlesAccepted(h: Helpers, p: PipelineIr)
    requires Readable(p) && LoopOps.OncePerFamily(StageOps(h, p))
    ensures LoopOps.Accepts(LoopOps.Planner, StageOps(h, p))
  {
    var ops := StageOps(h, p);
    forall i | 0 <= i < |ops|
      ensures !LoopOps.DslOnly(ops[i])
    {
      assert ops[i] == StageMeaning(h, p.stages[From(p) + i]) && Middle(KindOf(p.stages[From(p) + i]));
    }
  }

  /** Planned, lowered, emitted and run: a pipeline that is accepted returns what its
      stages, as list transforms with the seeds and numbers they were written with,
      make of its source. */
  method CompileAndRun(h: Helpers, p: PipelineIr, n: int) returns (ok: bool, result: int)
    requires Readable(p) && LoopOps.OncePerFamily(StageOps(h, p))
    ensures ok <==> Accepted(p)
    ensures ok ==> From(p) == 1 ==> p.stages != []
    ensures ok && (p.source.kind.value.ZipMergeMapRange? ==> Loops.NoTakeWhile(StageOps(h, p))) ==>
              result == Loops.Scalar(TerminalMeaning(h, p),
                                     LoopOps.PlainChain(StageOps(h, p), SeedOf(p.stages),
                                                        Flatten(Loops.RowsFrom(SourceMeaning(h, p, n), 0))))
  {
    result := 0;
    var program, plan;
    ok, program, plan := Compile([p]);
    assert AllAccepted([p]) <==> Accepted(p) by {
      assert [p][0] == p;
    }
    if ok {
      assert PlanOf([p][0], plan[0]) && LoweredAs(program[0], plan[0]);
      var r := ReadLoop(h, p, plan[0], program[0], n);
      MiddlesAccepted(h, p);
      result := Loops.RunPlanner(r.src, r.ops, r.terminal, r.seed);
    }
  }

  // ------------------------------------------------- the variables of the loop

  predicate Named(l: Lowered, at: int, name: string) {
    0 <= at < |l.slots| && SlotName(l.slots[at].kind) == name
  }

  /** The names of an operator's slots are those that the emitted code uses for it. */
  lemma SlotsNamed(p: PipelineIr, planned: Planned, l: Lowered, i: nat)
    requires Compiled(p, planned, l) && i < |p.stages|
    ensures |l.ops| == |p.stages|
    ensures var op := l.ops[i];
            match KindOf(p.stages[i])
            case Scan => Named(l, op.slot, "scan_accum")
            case ScanFrom => Named(l, op.slot, "scan_accum")
            case Reduce => Named(l, op.slot, "reduce_accum")
            case Take => Named(l, op.slot, "take_count")
            case Skip => Named(l, op.slot, "skip_count")
            case SkipWhile => Named(l, op.slot, "skip_while_passed")
            case DistinctUntilChanged => Named(l, op.slot, "last_key") && Named(l, op.aux, "has_last_key")
            case Last => Named(l, op.slot, "last_value") && Named(l, op.aux, "has_last_value")
            case _ => true
  {
    SlotsStart(p, planned, l, i);
  }

  predicate Words(slots: seq<StateSlot>) {
    forall i | 0 <= i < |slots| :: MIN <= NumberOf(slots[i].initial) <= MAX
  }

  /** The declarations before the loop: a variable for each slot, by its name. */
  function Declared(slots: seq<StateSlot>): Exprs.Env
    requires Words(slots)
  {
    if slots == [] then map[]
    else
      var n := |slots| - 1;
      Declared(slots[..n])[SlotName(slots[n].kind) := NumberOf(slots[n].initial)]
  }

  lemma DeclaredMore(slots: seq<StateSlot>, s: StateSlot, name: string)
    requires Words(slots + [s])
    ensures Words(slots)
    ensures Exprs.Lookup(Declared(slots + [s]), name) ==
            if name == SlotName(s.kind) then NumberOf(s.initial) else Exprs.Lookup(Declared(slots), name)
  {
    assert (slots + [s])[..|slots|] == slots && (slots + [s])[|slots|] == s;
    assert forall i | 0 <= i < |slots| :: slots[i] == (slots + [s])[i];
  }

  /** Counters, flags and keys start at 0. */
  predicate CountersZero(slots: seq<StateSlot>) {
    forall i | 0 <= i < |slots| ::
      slots[i].kind.ScanAccum? || slots[i].kind.ReduceAccum? || slots[i].initial == Int(0)
  }

  lemma LoweredCountersZero(l: Lowered, stages: seq<PlannedStage>)
    requires LoweredFrom(l, stages)
    ensures CountersZero(l.slots)
  {
    forall at | 0 <= at < |l.slots|
      ensures l.slots[at].kind.ScanAccum? || l.slots[at].kind.ReduceAccum? || l.slots[at].initial == Int(0)
    {
      var i, d := OwnerOf(l, stages, at);
      assert Owns(l.ops[i], stages[i], i, SlotCount(stages, i), l.slots);
    }
  }

  lemma {:induction false} DeclaredZero(slots: seq<StateSlot>, name: string)
    requires CountersZero(slots) && Words(slots) && name != "scan_accum" && name != "reduce_accum"
    ensures Exprs.Lookup(Declared(slots), name) == 0
  {
    if slots != [] {
      var n := |slots| - 1;
      assert slots == slots[..n] + [slots[n]];
      DeclaredMore(slots[..n], slots[n], name);
      DeclaredZero(slots[..n], name);
    }
  }

  /** The seed among the slots is the last scan accumulator's. */
  function SeedSlot(slots: seq<StateSlot>): int {
    if slots == [] then 0
    else
      var n := |slots| - 1;
      if slots[n].kind.ScanAccum? then NumberOf(slots[n].initial) else SeedSlot(slots[..n])
  }

  lemma {:induction false} DeclaredSeed(slots: seq<StateSlot>)
    requires Words(slots)
    ensures Exprs.Lookup(Declared(slots), "scan_accum") == SeedSlot(slots)
  {
    if slots != [] {
      var n := |slots| - 1;
      assert slots == slots[..n] + [slots[n]];
      DeclaredMore(slots[..n], slots[n], "scan_accum");
      DeclaredSeed(slots[..n]);
    }
  }

  /** The slots of one stage, as far as a scan's seed goes. */
  predicate StageSlots(s: StageCall, slots: seq<StateSlot>) {
    && |slots| <= 2 && (forall j | 1 <= j < |slots| :: !slots[j].kind.ScanAccum?)
    && var k := KindOf(s);
       if k.Scan? || k.ScanFrom? || k.ScanMut?
       then && |slots| == 1 && slots[0].kind.ScanAccum?
            && NumberOf(slots[0].initial) == if k.Scan? then 0 else Number(s.secondary)
       else slots != [] ==> !slots[0].kind.ScanAccum?
  }

  lemma SeedSlotMore(slots: seq<StateSlot>, s: StateSlot)
    ensures SeedSlot(slots + [s]) == if s.kind.ScanAccum? then NumberOf(s.initial) else SeedSlot(slots)
  {
    assert (slots + [s])[..|slots|] == slots;
  }

  lemma StageSeeds(before: seq<StateSlot>, more: seq<StateSlot>, s: StageCall)
    requires StageSlots(s, more)
    ensures SeedSlot(before + more) ==
            if KindOf(s).Scan? then 0
            else if KindOf(s).ScanFrom? || KindOf(s).ScanMut? then Number(s.secondary)
            else SeedSlot(before)
  {
    if more == [] {
      assert before + more == before;
    } else {
      SeedSlotMore(before, more[0]);
      if |more| == 1 {
        assert before + more == before + [more[0]];
      } else {
        assert before + more == before + [more[0]] + [more[1]];
        SeedSlotMore(before + [more[0]], more[1]);
      }
    }
  }

  /** The stage has the slots that its planned form takes. */
  predicate StageTakes(call: StageCall, stages: seq<PlannedStage>, slots: seq<StateSlot>, i: nat) {
    i < |stages| &&
    var a, b := SlotCount(stages, i), SlotCount(stages, i + 1);
    a <= b <= |slots| && StageSlots(call, slots[a..b])
  }

  /** Every stage has its slots, one stage after the other. */
  predicate SlotsByStage(calls: seq<StageCall>, stages: seq<PlannedStage>, slots: seq<StateSlot>) {
    forall i | 0 <= i < |calls| :: StageTakes(calls[i], stages, slots, i)
  }

  lemma OwnedSlots(op: LoopOp, call: StageCall, i: nat, at: nat, slots: seq<StateSlot>)
    requires Owns(op, PlanStage(call), i, at, slots)
    ensures var b := at + |SlotKinds(KindOf(call))|;
            at <= b <= |slots| && StageSlots(call, slots[at..b])
  {
  }

  lemma CompiledSlot(p: PipelineIr, planned: Planned, l: Lowered, i: nat)
    requires Compiled(p, planned, l) && i < |p.stages|
    ensures StageTakes(p.stages[i], planned.stages, l.slots, i)
  {
    assert planned.stages[i] == PlanStage(p.stages[i]);
    assert Owns(l.ops[i], planned.stages[i], i, SlotCount(planned.stages, i), l.slots);
    OwnedSlots(l.ops[i], p.stages[i], i, SlotCount(planned.stages, i), l.slots);
  }

  lemma CompiledSlots(p: PipelineIr, planned: Planned, l: Lowered)
    requires Compiled(p, planned, l)
    ensures SlotsByStage(p.stages, planned.stages, l.slots)
  {
    forall i | 0 <= i < |p.stages|
      ensures StageTakes(p.stages[i], planned.stages, l.slots, i)
    {
      CompiledSlot(p, planned, l, i);
    }
  }

  lemma SliceMore<A>(xs: seq<A>, a: nat, b: nat)
    requires a <= b <= |xs|
    ensures xs[..b] == xs[..a] + xs[a..b]
  {
  }

  lemma SeedsMore(call: StageCall, stages: seq<PlannedStage>, slots: seq<StateSlot>, i: nat)
    requires StageTakes(call, stages, slots, i)
    ensures SlotCount(stages, i) <= SlotCount(stages, i + 1) <= |slots|
    ensures SeedSlot(slots[..SlotCount(stages, i + 1)]) ==
            if KindOf(call).Scan? then 0
            else if KindOf(call).ScanFrom? || KindOf(call).ScanMut? then Number(call.secondary)
            else SeedSlot(slots[..SlotCount(stages, i)])
  {
    var a, b := SlotCount(stages, i), SlotCount(stages, i + 1);
    SliceMore(slots, a, b);
    StageSeeds(slots[..a], slots[a..b], call);
  }

  lemma {:induction false} SlotsSeed(calls: seq<StageCall>, stages: seq<PlannedStage>, slots: seq<StateSlot>, k: nat)
    requires SlotsByStage(calls, stages, slots) && k <= |calls| == |stages|
    ensures SlotCount(stages, k) <= |slots| && SeedSlot(slots[..SlotCount(stages, k)]) == SeedOf(calls[..k])
  {
    if k > 0 {
      SlotsSeed(calls, stages, slots, k - 1);
      SeedMore(calls, k - 1);
      SeedsMore(calls[k - 1], stages, slots, k - 1);
    }
  }

  /** The variables that a compiled pipeline declares are the fresh ones its emitted
      loop starts from. */
  lemma DeclaresFresh(p: PipelineIr, planned: Planned, l: Lowered)
    requires Compiled(p, planned, l) && Words(l.slots)
    ensures MIN <= SeedOf(p.stages) <= MAX && Emitted.FreshVariables(Declared(l.slots), SeedOf(p.stages))
    ensures Exprs.Lookup(Declared(l.slots), "has_last_value") == 0
  {
    var slots := l.slots;
    CompiledSlots(p, planned, l);
    SlotsSeed(p.stages, planned.stages, slots, |p.stages|);
    assert slots[..|slots|] == slots && p.stages[..|p.stages|] == p.stages;
    DeclaredSeed(slots);
    LoweredCountersZero(l, planned.stages);
    DeclaredZero(slots, "take_count");
    DeclaredZero(slots, "skip_count");
    DeclaredZero(slots, "skip_while_passed");
    DeclaredZero(slots, "has_last_key");
    DeclaredZero(slots, "last_key");
    DeclaredZero(slots, "has_last_value");
  }
}
