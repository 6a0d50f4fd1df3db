/** From pipelines to loop operators: the execution plan (core/planner/simplify.c), its
    lowering (core/planner/lower.c) and the validation of the result
    (core/planner/planner_ir.c). */
module Lowering {
  import opened Lists

  // ------------------------------------------------------------- the pipelines

  datatype Literal = Int(value: int) | Symbol(name: string)

  /** An argument of a call. `isPointer` says that its declared type is `void *`. */
  datatype Binding =
    NoBinding | LiteralBinding(literal: Literal, isPointer: bool) | FunctionName(name: string) | RuntimeValue

  /** `planned_stage_kind`, a constructor for each name it knows. */
  datatype StageKind =
    | Map | MapInto | PairMap | TripleMap | Filter | Scan | ScanFrom | ScanMut | Reduce | ReduceMut | MapTo
    | Take | Skip | TakeWhile | SkipWhile | DistinctUntilChanged | Last | First | Unsupported

  datatype SourceKind =
    | Range | SyntheticRecords | ExternalBuffer | ExternalWindow | Zip | ZipRange | ZipMergeMapRange | OtherSource

  datatype Signature = Signature(kind: StageKind, transpileCandidate: bool)

  datatype StageCall = StageCall(signature: Option<Signature>, primary: Binding, secondary: Binding)

  datatype SourceCall = SourceCall(kind: Option<SourceKind>, arguments: seq<Binding>)

  datatype PipelineIr = PipelineIr(source: SourceCall, stages: seq<StageCall>)

  datatype Code = UnsupportedSource | UnsupportedOperator | DynamicRuntimeValue | UnlowerablePipeline

  datatype Diagnostic = Diagnostic(code: Code, pipeline: nat, stage: int)

  // ------------------------------------------------------------------ the plan

  datatype PlannedStage = PlannedStage(kind: StageKind, primary: Binding, secondary: Binding)

  datatype Planned = Planned(source: SourceCall, stages: seq<PlannedStage>, candidate: bool)

  function KindOf(s: StageCall): StageKind {
    if s.signature.None? then Unsupported else s.signature.value.kind
  }

  predicate SourceSelfContained(s: SourceCall) {
    s.kind.Some? && !s.kind.value.OtherSource?
  }

  predicate StageSelfContained(s: StageCall) {
    s.signature.Some? && s.signature.value.transpileCandidate && !s.signature.value.kind.Unsupported?
  }

  predicate Terminal(k: StageKind) {
    k.Reduce? || k.ReduceMut? || k.Last? || k.First?
  }

  /** The stage a zipped source must start with. */
  function FirstKind(k: SourceKind): Option<StageKind> {
    match k
    case Zip => Some(PairMap)
    case ZipRange => Some(PairMap)
    case ZipMergeMapRange => Some(TripleMap)
    case _ => None
  }

  predicate StageFits(p: PipelineIr, i: nat)
    requires i < |p.stages|
  {
    && StageSelfContained(p.stages[i])
    && !p.stages[i].primary.RuntimeValue? && !p.stages[i].secondary.RuntimeValue?
    && (Terminal(KindOf(p.stages[i])) ==> i == |p.stages| - 1)
  }

  /** What the planner takes. */
  predicate Accepted(p: PipelineIr) {
    && SourceSelfContained(p.source)
    && (forall i | 0 <= i < |p.stages| :: StageFits(p, i))
    && (FirstKind(p.source.kind.value).Some? ==>
          p.stages != [] && KindOf(p.stages[0]) == FirstKind(p.source.kind.value).value)
  }

  predicate StandsForItself(s: StageCall) {
    && s.signature.Some? && s.signature.value.transpileCandidate && s.signature.value.kind != Unsupported
    && s.primary != RuntimeValue && s.secondary != RuntimeValue
  }

  /** In full: a known source; stages that stand for themselves, with no argument left
      to the run time, and reduce, last and first at the end only; and a zipped source
      followed by the map of its pairs or triples. */
  lemma AcceptedMeans(p: PipelineIr)
    ensures Accepted(p) <==>
            && p.source.kind.Some? && p.source.kind != Some(OtherSource)
            && (forall i | 0 <= i < |p.stages| :: StandsForItself(p.stages[i]))
            && (forall i | 0 <= i < |p.stages| - 1 :: KindOf(p.stages[i]) !in {Reduce, ReduceMut, Last, First})
            && (p.source.kind.value in {Zip, ZipRange} ==> p.stages != [] && KindOf(p.stages[0]) == PairMap)
            && (p.source.kind.value == ZipMergeMapRange ==> p.stages != [] && KindOf(p.stages[0]) == TripleMap)
  {
    if Accepted(p) {
      forall i | 0 <= i < |p.stages|
        ensures StandsForItself(p.stages[i])
        ensures i < |p.stages| - 1 ==> KindOf(p.stages[i]) !in {Reduce, ReduceMut, Last, First}
      {
        assert StageFits(p, i);
      }
    }
  }

  function PlanStage(s: StageCall): PlannedStage {
    PlannedStage(KindOf(s), s.primary, s.secondary)
  }

  /** The complaints about stage `i`, in the order they are made. */
  function StageDiagnostics(p: PipelineIr, at: nat, i: nat): seq<Diagnostic>
    requires i < |p.stages|
  {
    var s := p.stages[i];
    (if StageSelfContained(s) then [] else [Diagnostic(UnsupportedOperator, at, i)])
    + (if s.primary.RuntimeValue? || s.secondary.RuntimeValue? then [Diagnostic(DynamicRuntimeValue, at, i)] else [])
    + (if Terminal(KindOf(s)) && i != |p.stages| - 1 then [Diagnostic(UnlowerablePipeline, at, i)] else [])
  }

  function StagesDiagnostics(p: PipelineIr, at: nat, k: nat): seq<Diagnostic>
    requires k <= |p.stages|
  {
    if k == 0 then [] else StagesDiagnostics(p, at, k - 1) + StageDiagnostics(p, at, k - 1)
  }

  /** The complaints about a pipeline; about its first stage only when there is no
      other. */
  function PipelineDiagnostics(p: PipelineIr, at: nat): seq<Diagnostic> {
    if !SourceSelfContained(p.source) then [Diagnostic(UnsupportedSource, at, -1)]
    else
      var ds := StagesDiagnostics(p, at, |p.stages|);
      var first := FirstKind(p.source.kind.value);
      if ds == [] && first.Some? && (p.stages == [] || KindOf(p.stages[0]) != first.value)
      then [Diagnostic(UnlowerablePipeline, at, 0)]
      else ds
  }

  /** The complaint is justified: the stage does not stand for itself, an argument is
      known at run time only, or a terminal stage is not the last. */
  predicate Justified(p: PipelineIr, d: Diagnostic) {
    && 0 <= d.stage < |p.stages|
    && var s := p.stages[d.stage];
       match d.code
       case UnsupportedOperator =>
         s.signature.None? || !s.signature.value.transpileCandidate || s.signature.value.kind == Unsupported
       case DynamicRuntimeValue => RuntimeValue in [s.primary, s.secondary]
       case UnlowerablePipeline => KindOf(s) in {Reduce, ReduceMut, Last, First} && d.stage < |p.stages| - 1
       case UnsupportedSource => false
  }

  lemma StageComplaints(p: PipelineIr, at: nat, i: nat, d: Diagnostic)
    requires i < |p.stages|
    ensures d in StageDiagnostics(p, at, i) <==> d.pipeline == at && d.stage == i && Justified(p, d)
  {
  }

  /** The stages are complained about exactly where that is justified. */
  lemma {:induction false} ComplaintsJustified(p: PipelineIr, at: nat, k: nat, d: Diagnostic)
    requires k <= |p.stages|
    ensures d in StagesDiagnostics(p, at, k) <==> d.pipeline == at && d.stage < k && Justified(p, d)
  {
    if k > 0 {
      ComplaintsJustified(p, at, k - 1, d);
      StageComplaints(p, at, k - 1, d);
    }
  }

  function ProgramDiagnostics(program: seq<PipelineIr>, k: nat): seq<Diagnostic>
    requires k <= |program|
  {
    if k == 0 then [] else ProgramDiagnostics(program, k - 1) + PipelineDiagnostics(program[k - 1], k - 1)
  }

  /** The stage loop of `rx_build_execution_plan`. */
  method PlanStages(p: PipelineIr, at: nat) returns (stages: seq<PlannedStage>, candidate: bool, diags: seq<Diagnostic>)
    ensures |stages| == |p.stages| && forall i | 0 <= i < |stages| :: stages[i] == PlanStage(p.stages[i])
    ensures candidate <==> forall i | 0 <= i < |p.stages| :: StageFits(p, i)
    ensures (candidate <==> diags == []) && diags == StagesDiagnostics(p, at, |p.stages|)
  {
    stages, candidate, diags := [], true, [];
    for i := 0 to |p.stages|
      invariant |stages| == i && forall j | 0 <= j < i :: stages[j] == PlanStage(p.stages[j])
      invariant candidate <==> forall j | 0 <= j < i :: StageFits(p, j)
      invariant (candidate <==> diags == []) && diags == StagesDiagnostics(p, at, i)
    {
      var stage := p.stages[i];
      ghost var before, ds := candidate, diags;
      stages := stages + [PlannedStage(KindOf(stage), stage.primary, stage.secondary)];
      if !StageSelfContained(stage) {
        candidate, diags := false, diags + [Diagnostic(UnsupportedOperator, at, i)];
      }
      if stage.primary.RuntimeValue? || stage.secondary.RuntimeValue? {
        candidate, diags := false, diags + [Diagnostic(DynamicRuntimeValue, at, i)];
      }
      if Terminal(KindOf(stage)) && i != |p.stages| - 1 {
        candidate, diags := false, diags + [Diagnostic(UnlowerablePipeline, at, i)];
      }
      assert candidate <==> before && StageFits(p, i);
      assert diags == ds + StageDiagnostics(p, at, i);
    }
  }

  predicate PlanOf(p: PipelineIr, planned: Planned) {
    && planned.candidate && planned.source == p.source && |planned.stages| == |p.stages|
    && forall i | 0 <= i < |p.stages| :: planned.stages[i] == PlanStage(p.stages[i])
  }

  /** `rx_build_execution_plan` on one pipeline. */
  method PlanPipeline(p: PipelineIr, at: nat) returns (planned: Planned, diags: seq<Diagnostic>)
    ensures planned.source == p.source
    ensures planned.candidate <==> Accepted(p)
    ensures (planned.candidate <==> diags == []) && diags == PipelineDiagnostics(p, at)
    ensures planned.candidate ==> PlanOf(p, planned)
  {
    if !SourceSelfContained(p.source) {
      return Planned(p.source, [], false), [Diagnostic(UnsupportedSource, at, -1)];
    }
    var stages, candidate, ds := PlanStages(p, at);
    diags := ds;
    var source := p.source.kind.value;
    if candidate && (source.Zip? || source.ZipRange?) {
      if |p.stages| == 0 || stages[0].kind != PairMap {
        candidate, diags := false, diags + [Diagnostic(UnlowerablePipeline, at, 0)];
      }
    }
    if candidate && source.ZipMergeMapRange? {
      if |p.stages| == 0 || stages[0].kind != TripleMap {
        candidate, diags := false, diags + [Diagnostic(UnlowerablePipeline, at, 0)];
      }
    }
    planned := Planned(p.source, stages, candidate);
  }

  predicate AllAccepted(program: seq<PipelineIr>) {
    forall i | 0 <= i < |program| :: Accepted(program[i])
  }

  predicate PlansOf(program: seq<PipelineIr>, plan: seq<Planned>) {
    |plan| == |program| && forall i | 0 <= i < |program| :: PlanOf(program[i], plan[i])
  }

  /** The first `k` pipelines are planned. */
  ghost predicate PlannedUpTo(program: seq<PipelineIr>, plan: seq<Planned>, diags: seq<Diagnostic>, k: nat) {
    && k <= |program| && |plan| == k && diags == ProgramDiagnostics(program, k)
    && (diags == [] <==> AllAccepted(program[..k]))
    && (diags == [] ==> PlansOf(program[..k], plan))
  }

  lemma AcceptedMore(program: seq<PipelineIr>, k: nat)
    requires k < |program|
    ensures AllAccepted(program[..k + 1]) <==> AllAccepted(program[..k]) && Accepted(program[k])
  {
    var more := program[..k + 1];
    assert forall i | 0 <= i < k :: more[i] == program[..k][i];
    assert more[k] == program[k];
  }

  lemma PlansMore(program: seq<PipelineIr>, plan: seq<Planned>, k: nat, planned: Planned)
    requires k < |program| && PlansOf(program[..k], plan) && PlanOf(program[k], planned)
    ensures PlansOf(program[..k + 1], plan + [planned])
  {
    var more := program[..k + 1];
    assert forall i | 0 <= i < k :: more[i] == program[..k][i];
    assert more[k] == program[k];
  }

  lemma PlanMore(program: seq<PipelineIr>, plan: seq<Planned>, diags: seq<Diagnostic>, k: nat, planned: Planned,
                 ds: seq<Diagnostic>)
    requires PlannedUpTo(program, plan, diags, k) && k < |program| && ds == PipelineDiagnostics(program[k], k)
    requires ds == [] <==> Accepted(program[k])
    requires ds == [] ==> PlanOf(program[k], planned)
    ensures PlannedUpTo(program, plan + [planned], diags + ds, k + 1)
  {
    AcceptedMore(program, k);
    if diags + ds == [] {
      PlansMore(program, plan, k, planned);
    }
  }

  lemma PlanStart(program: seq<PipelineIr>)
    ensures PlannedUpTo(program, [], [], 0)
  {
  }

  lemma PlanEnd(program: seq<PipelineIr>, plan: seq<Planned>, diags: seq<Diagnostic>)
    requires PlannedUpTo(program, plan, diags, |program|)
    ensures |plan| == |program| && diags == ProgramDiagnostics(program, |program|)
    ensures (diags == [] <==> AllAccepted(program)) && (diags == [] ==> PlansOf(program, plan))
  {
    assert program[..|program|] == program;
  }

  /** `rx_build_execution_plan`: succeeds exactly when every pipeline is accepted. */
  method BuildExecutionPlan(program: seq<PipelineIr>) returns (ok: bool, plan: seq<Planned>, diags: seq<Diagnostic>)
    ensures ok <==> AllAccepted(program)
    ensures (ok <==> diags == []) && diags == ProgramDiagnostics(program, |program|)
    ensures |plan| == |program| && (ok ==> PlansOf(program, plan))
  {
    plan, diags := [], [];
    PlanStart(program);
    for i := 0 to |program|
      invariant PlannedUpTo(program, plan, diags, i)
    {
      var planned, ds := PlanPipeline(program[i], i);
      PlanMore(program, plan, diags, i, planned, ds);
      plan, diags := plan + [planned], diags + ds;
    }
    PlanEnd(program, plan, diags);
    ok := diags == [];
  }

  // --------------------------------------------------------------- the lowering

  datatype OpKind =
    | CallMap | CallMapInto | CallPairMap | CallTripleMap | CallFilter | CallScan | CallScanMut | CallReduce
    | CallReduceMut | CallMapTo | ApplyTake | ApplySkip | ApplyTakeWhile | ApplySkipWhile
    | ApplyDistinctUntilChanged | ApplyLast | ApplyFirst

  datatype SlotKind =
    | ScanAccum | ReduceAccum | TakeCount | SkipCount | SkipWhilePassed
    | LastKey | HasLastKey | LastValue | HasLastValue

  datatype StateSlot = StateSlot(kind: SlotKind, isPointer: bool, initial: Literal)

  /** The name of a slot is fixed by its kind, and tells the kinds apart. */
  function SlotName(k: SlotKind): string {
    match k
    case ScanAccum => "scan_accum"
    case ReduceAccum => "reduce_accum"
    case TakeCount => "take_count"
    case SkipCount => "skip_count"
    case SkipWhilePassed => "skip_while_passed"
    case LastKey => "last_key"
    case HasLastKey => "has_last_key"
    case LastValue => "last_value"
    case HasLastValue => "has_last_value"
  }

  /** `stage` is the position of the planned stage; the indices are -1 where unused. */
  datatype LoopOp = LoopOp(kind: OpKind, stage: nat, slot: int, aux: int)

  datatype Lowered = Lowered(source: SourceKind, count: int, innerN: int, slots: seq<StateSlot>, ops: seq<LoopOp>)

  function OpOf(k: StageKind): OpKind
    requires !k.Unsupported?
  {
    match k
    case Map => CallMap
    case MapInto => CallMapInto
    case PairMap => CallPairMap
    case TripleMap => CallTripleMap
    case Filter => CallFilter
    case Scan => CallScan
    case ScanFrom => CallScan
    case ScanMut => CallScanMut
    case Reduce => CallReduce
    case ReduceMut => CallReduceMut
    case MapTo => CallMapTo
    case Take => ApplyTake
    case Skip => ApplySkip
    case TakeWhile => ApplyTakeWhile
    case SkipWhile => ApplySkipWhile
    case DistinctUntilChanged => ApplyDistinctUntilChanged
    case Last => ApplyLast
    case First => ApplyFirst
  }

  /** The state an operator of this kind needs. */
  function SlotKinds(k: StageKind): (r: seq<SlotKind>)
    ensures |r| <= 2
  {
    match k
    case Scan => [ScanAccum]
    case ScanFrom => [ScanAccum]
    case ScanMut => [ScanAccum]
    case Reduce => [ReduceAccum]
    case ReduceMut => [ReduceAccum]
    case Take => [TakeCount]
    case Skip => [SkipCount]
    case SkipWhile => [SkipWhilePassed]
    case DistinctUntilChanged => [LastKey, HasLastKey]
    case Last => [LastValue, HasLastValue]
    case _ => []
  }

  /** The seed of an accumulator: a literal second argument, or 0. */
  function Seeded(kind: SlotKind, s: PlannedStage): StateSlot {
    if s.kind.Scan? || !s.secondary.LiteralBinding? then StateSlot(kind, false, Int(0))
    else StateSlot(kind, s.secondary.isPointer, s.secondary.literal)
  }

  function SlotFor(kind: SlotKind, s: PlannedStage): StateSlot {
    if kind.ScanAccum? || kind.ReduceAccum? then Seeded(kind, s) else StateSlot(kind, false, Int(0))
  }

  /** How many slots the first `k` stages take. */
  function SlotCount(stages: seq<PlannedStage>, k: nat): nat
    requires k <= |stages|
  {
    if k == 0 then 0 else SlotCount(stages, k - 1) + |SlotKinds(stages[k - 1].kind)|
  }

  /** An operator of stage `i` owns the slots from `at` on: as many as its kind needs,
      of the kinds it needs, with its seed. */
  predicate Owns(op: LoopOp, s: PlannedStage, i: nat, at: nat, slots: seq<StateSlot>) {
    var kinds := SlotKinds(s.kind);
    && !s.kind.Unsupported? && op.kind == OpOf(s.kind) && op.stage == i
    && op.slot == (if |kinds| > 0 then at else -1)
    && op.aux == (if |kinds| > 1 then at + 1 else -1)
    && at + |kinds| <= |slots|
    && (|kinds| > 0 ==> slots[at] == SlotFor(kinds[0], s))
    && (|kinds| > 1 ==> slots[at + 1] == SlotFor(kinds[1], s))
  }

  /** The first `k` operators own slots of their own. */
  predicate OwnAll(ops: seq<LoopOp>, stages: seq<PlannedStage>, slots: seq<StateSlot>, k: nat)
    requires k <= |stages| && k <= |ops|
  {
    forall i {:trigger ops[i]} | 0 <= i < k :: Owns(ops[i], stages[i], i, SlotCount(stages, i), slots)
  }

  /** Operators and stages one to one, every operator with slots of its own. */
  predicate LoweredFrom(l: Lowered, stages: seq<PlannedStage>) {
    && |l.ops| == |stages| && |l.slots| == SlotCount(stages, |stages|)
    && OwnAll(l.ops, stages, l.slots, |stages|)
  }

  function IntArgument(args: seq<Binding>, i: nat): int {
    if i < |args| && args[i].LiteralBinding? && args[i].literal.Int? then args[i].literal.value else 0
  }

  lemma {:induction false} SlotCountGrows(stages: seq<PlannedStage>, i: nat, j: nat)
    requires i <= j <= |stages|
    ensures SlotCount(stages, i) <= SlotCount(stages, j)
    ensures i < j ==> SlotCount(stages, i) + |SlotKinds(stages[i].kind)| <= SlotCount(stages, j)
  {
    if i < j {
      SlotCountGrows(stages, i, j - 1);
    }
  }

  lemma OwnAllSnoc(ops: seq<LoopOp>, op: LoopOp, stages: seq<PlannedStage>, i: nat,
                   slots: seq<StateSlot>, more: seq<StateSlot>)
    requires |ops| == i < |stages| && OwnAll(ops, stages, slots, i) && slots <= more
    requires Owns(op, stages[i], i, SlotCount(stages, i), more)
    ensures OwnAll(ops + [op], stages, more, i + 1)
  {
  }

  /** `append_state_slot` into the operator's first index. */
  method AddSlot(op: LoopOp, slots: seq<StateSlot>, slot: StateSlot) returns (o: LoopOp, r: seq<StateSlot>)
    ensures o == op.(slot := |slots|) && r == slots + [slot]
  {
    return op.(slot := |slots|), slots + [slot];
  }

  /** `append_state_slot` into its second index. */
  method AddAuxSlot(op: LoopOp, slots: seq<StateSlot>, slot: StateSlot) returns (o: LoopOp, r: seq<StateSlot>)
    ensures o == op.(aux := |slots|) && r == slots + [slot]
  {
    return op.(aux := |slots|), slots + [slot];
  }

  /** One turn of the lowering loop: the slots appended and the operator. */
  method LowerStage(s: PlannedStage, i: nat, slots: seq<StateSlot>) returns (ok: bool, op: LoopOp, r: seq<StateSlot>)
    ensures ok <==> !s.kind.Unsupported?
    ensures slots <= r
    ensures ok ==> Owns(op, s, i, |slots|, r) && |r| == |slots| + |SlotKinds(s.kind)|
  {
    ok, op, r := true, LoopOp(CallMap, i, -1, -1), slots;
    var initial := if s.secondary.LiteralBinding? then s.secondary.literal else Int(0);
    var isPointer := s.secondary.LiteralBinding? && s.secondary.isPointer;
    match s.kind
    case Map => op := op.(kind := CallMap);
    case MapInto => op := op.(kind := CallMapInto);
    case PairMap => op := op.(kind := CallPairMap);
    case TripleMap => op := op.(kind := CallTripleMap);
    case Filter => op := op.(kind := CallFilter);
    case Scan => op, r := AddSlot(op.(kind := CallScan), r, StateSlot(ScanAccum, false, Int(0)));
    case ScanFrom => op, r := AddSlot(op.(kind := CallScan), r, StateSlot(ScanAccum, isPointer, initial));
    case ScanMut => op, r := AddSlot(op.(kind := CallScanMut), r, StateSlot(ScanAccum, isPointer, initial));
    case Reduce => op, r := AddSlot(op.(kind := CallReduce), r, StateSlot(ReduceAccum, isPointer, initial));
    case ReduceMut => op, r := AddSlot(op.(kind := CallReduceMut), r, StateSlot(ReduceAccum, isPointer, initial));
    case MapTo => op := op.(kind := CallMapTo);
    case Take => op, r := AddSlot(op.(kind := ApplyTake), r, StateSlot(TakeCount, false, Int(0)));
    case Skip => op, r := AddSlot(op.(kind := ApplySkip), r, StateSlot(SkipCount, false, Int(0)));
    case TakeWhile => op := op.(kind := ApplyTakeWhile);
    case SkipWhile => op, r := AddSlot(op.(kind := ApplySkipWhile), r, StateSlot(SkipWhilePassed, false, Int(0)));
    case DistinctUntilChanged =>
      op, r := AddSlot(op.(kind := ApplyDistinctUntilChanged), r, StateSlot(LastKey, false, Int(0)));
      op, r := AddAuxSlot(op, r, StateSlot(HasLastKey, false, Int(0)));
    case Last =>
      op, r := AddSlot(op.(kind := ApplyLast), r, StateSlot(LastValue, false, Int(0)));
      op, r := AddAuxSlot(op, r, StateSlot(HasLastValue, false, Int(0)));
    case First => op := op.(kind := ApplyFirst);
    case Unsupported => ok := false;
  }

  /** The counts a source carries. */
  function SourceCounts(s: SourceCall): (int, int)
    requires SourceSelfContained(s)
  {
    match s.kind.value
    case SyntheticRecords => (IntArgument(s.arguments, 0), 0)
    case ExternalWindow => (0, IntArgument(s.arguments, 0))
    case Zip => (IntArgument(s.arguments, 1), IntArgument(s.arguments, 2))
    case ZipMergeMapRange => (0, IntArgument(s.arguments, 0))
    case _ => (0, 0)
  }

  /** `rx_lower_pipeline_segment`, on the one segment of a planned pipeline. */
  method LowerSegment(p: Planned) returns (ok: bool, l: Lowered)
    ensures ok <==> SourceSelfContained(p.source) && forall i | 0 <= i < |p.stages| :: !p.stages[i].kind.Unsupported?
    ensures ok ==> LoweredFrom(l, p.stages) && l.source == p.source.kind.value
    ensures ok ==> (l.count, l.innerN) == SourceCounts(p.source)
  {
    l := Lowered(OtherSource, 0, 0, [], []);
    if !SourceSelfContained(p.source) {
      return false, l;
    }
    var args := p.source.arguments;
    match p.source.kind.value {
      case Range => l := l.(source := Range);
      case SyntheticRecords => l := l.(source := SyntheticRecords, count := IntArgument(args, 0));
      case ExternalBuffer => l := l.(source := ExternalBuffer);
      case ExternalWindow => l := l.(source := ExternalWindow, innerN := IntArgument(args, 0));
      case Zip => l := l.(source := Zip, count := IntArgument(args, 1), innerN := IntArgument(args, 2));
      case ZipRange => l := l.(source := ZipRange);
      case ZipMergeMapRange => l := l.(source := ZipMergeMapRange, innerN := IntArgument(args, 0));
    }
    var slots, ops := [], [];
    for i := 0 to |p.stages|
      invariant |ops| == i && |slots| == SlotCount(p.stages, i)
      invariant OwnAll(ops, p.stages, slots, i)
      invariant forall j | 0 <= j < i :: !p.stages[j].kind.Unsupported?
    {
      var lowered, op, more := LowerStage(p.stages[i], i, slots);
      if !lowered {
        return false, l;
      }
      OwnAllSnoc(ops, op, p.stages, i, slots, more);
      slots, ops := more, ops + [op];
    }
    ok, l := true, l.(slots := slots, ops := ops);
  }

  predicate SlotsInRange(l: Lowered) {
    forall i | 0 <= i < |l.ops| :: l.ops[i].slot < |l.slots| && l.ops[i].aux < |l.slots|
  }

  /** `rx_validate_planner_ir` on one pipeline; its names are never missing here. */
  method Validate(l: Lowered) returns (ok: bool)
    ensures ok <==> SlotsInRange(l)
    ensures ok <==> forall op | op in l.ops :: op.slot < |l.slots| && op.aux < |l.slots|
  {
    for i := 0 to |l.ops|
      invariant forall j | 0 <= j < i :: l.ops[j].slot < |l.slots| && l.ops[j].aux < |l.slots|
    {
      if l.ops[i].slot >= |l.slots| || l.ops[i].aux >= |l.slots| {
        assert l.ops[i] in l.ops;
        return false;
      }
    }
    return true;
  }

  // ----------------------------------------------------------- what is lowered

  /** The operator works on the slot. */
  predicate UsesSlot(op: LoopOp, at: int) {
    at >= 0 && (op.slot == at || op.aux == at)
  }

  /** No slot has two operators. */
  lemma SlotsUnshared(l: Lowered, stages: seq<PlannedStage>, i: nat, j: nat, at: int)
    requires LoweredFrom(l, stages) && i < j < |stages|
    ensures !(UsesSlot(l.ops[i], at) && UsesSlot(l.ops[j], at))
  {
    SlotCountGrows(stages, i, j);
    assert Owns(l.ops[i], stages[i], i, SlotCount(stages, i), l.slots);
    assert Owns(l.ops[j], stages[j], j, SlotCount(stages, j), l.slots);
  }

  /** Every pipeline the planner accepts lowers and validates: operators and stages one
      to one, slots in range and of the operator's own kinds, terminals last. */
  lemma AcceptedLowers(p: PipelineIr, planned: Planned, l: Lowered)
    requires Accepted(p) && PlanOf(p, planned)
    ensures SourceSelfContained(planned.source)
    ensures forall i | 0 <= i < |planned.stages| :: !planned.stages[i].kind.Unsupported?
    ensures LoweredFrom(l, planned.stages) ==>
              && |l.ops| == |p.stages|
              && (forall i | 0 <= i < |l.ops| :: l.ops[i].kind == OpOf(KindOf(p.stages[i])))
              && SlotsInRange(l)
              && (forall i | 0 <= i < |l.ops| && Terminal(KindOf(p.stages[i])) :: i == |l.ops| - 1)
  {
    forall i | 0 <= i < |planned.stages|
      ensures !planned.stages[i].kind.Unsupported? && (Terminal(KindOf(p.stages[i])) ==> i == |p.stages| - 1)
    {
      assert StageFits(p, i) && planned.stages[i] == PlanStage(p.stages[i]);
    }
    if LoweredFrom(l, planned.stages) {
      forall i | 0 <= i < |l.ops|
        ensures l.ops[i].kind == OpOf(KindOf(p.stages[i])) && l.ops[i].slot < |l.slots| && l.ops[i].aux < |l.slots|
      {
        assert Owns(l.ops[i], planned.stages[i], i, SlotCount(planned.stages, i), l.slots);
      }
    }
  }

  /** Slot `at` is of this kind and starts with this literal. */
  predicate SlotIs(l: Lowered, at: int, kind: SlotKind, isPointer: bool, initial: Literal) {
    0 <= at < |l.slots| && l.slots[at] == StateSlot(kind, isPointer, initial)
  }

  /** The seed of an accumulator is the literal it was written with. */
  predicate SeededSlot(l: Lowered, at: int, kind: SlotKind, seed: Binding) {
    match seed
    case LiteralBinding(literal, isPointer) => SlotIs(l, at, kind, isPointer, literal)
    case _ => SlotIs(l, at, kind, false, Int(0))
  }

  /** The slots of each stage as it was written: an accumulator starts with the stage's
      literal seed or with 0, every counter and flag with 0. */
  lemma SlotsStart(p: PipelineIr, planned: Planned, l: Lowered, i: nat)
    requires PlanOf(p, planned) && LoweredFrom(l, planned.stages) && i < |p.stages|
    ensures |l.ops| == |p.stages|
    ensures var s, op := p.stages[i], l.ops[i];
            match KindOf(s)
            case Scan => SlotIs(l, op.slot, ScanAccum, false, Int(0))
            case ScanFrom => SeededSlot(l, op.slot, ScanAccum, s.secondary)
            case ScanMut => SeededSlot(l, op.slot, ScanAccum, s.secondary)
            case Reduce => SeededSlot(l, op.slot, ReduceAccum, s.secondary)
            case ReduceMut => SeededSlot(l, op.slot, ReduceAccum, s.secondary)
            case Take => SlotIs(l, op.slot, TakeCount, false, Int(0))
            case Skip => SlotIs(l, op.slot, SkipCount, false, Int(0))
            case SkipWhile => SlotIs(l, op.slot, SkipWhilePassed, false, Int(0))
            case DistinctUntilChanged =>
              SlotIs(l, op.slot, LastKey, false, Int(0)) && SlotIs(l, op.aux, HasLastKey, false, Int(0))
            case Last => SlotIs(l, op.slot, LastValue, false, Int(0)) && SlotIs(l, op.aux, HasLastValue, false, Int(0))
            case _ => op.slot == -1 && op.aux == -1
  {
    assert planned.stages[i] == PlanStage(p.stages[i]);
    assert Owns(l.ops[i], planned.stages[i], i, SlotCount(planned.stages, i), l.slots);
  }

  // ---------------------------------------------------------- a whole program

  predicate Lowerable(p: Planned) {
    p.candidate && SourceSelfContained(p.source) && forall i | 0 <= i < |p.stages| :: !p.stages[i].kind.Unsupported?
  }

  predicate LoweredAs(l: Lowered, p: Planned) {
    && SourceSelfContained(p.source) && LoweredFrom(l, p.stages) && l.source == p.source.kind.value
    && (l.count, l.innerN) == SourceCounts(p.source)
  }

  /** The counts of a source are the numbers it was written with. */
  lemma CountsKept(p: PipelineIr, planned: Planned, l: Lowered, n: int, pointer: bool)
    requires PlanOf(p, planned) && LoweredAs(l, planned)
    ensures var args := p.source.arguments;
            && (|args| > 0 && args[0] == LiteralBinding(Int(n), pointer) ==>
                  && (l.source.SyntheticRecords? ==> l.count == n)
                  && (l.source.ExternalWindow? || l.source.ZipMergeMapRange? ==> l.innerN == n))
            && (|args| > 1 && args[1] == LiteralBinding(Int(n), pointer) && l.source.Zip? ==> l.count == n)
            && (|args| > 2 && args[2] == LiteralBinding(Int(n), pointer) && l.source.Zip? ==> l.innerN == n)
  {
  }

  /** `rx_lower_execution_plan`: gives up at the first pipeline that is no candidate or
      does not lower. */
  method LowerExecutionPlan(plan: seq<Planned>) returns (ok: bool, program: seq<Lowered>)
    ensures ok <==> forall i | 0 <= i < |plan| :: Lowerable(plan[i])
    ensures ok ==> |program| == |plan| && forall i | 0 <= i < |plan| :: LoweredAs(program[i], plan[i])
  {
    program := [];
    for index := 0 to |plan|
      invariant |program| == index
      invariant forall i | 0 <= i < index :: Lowerable(plan[i]) && LoweredAs(program[i], plan[i])
    {
      if !plan[index].candidate {
        return false, program;
      }
      var lowered, l := LowerSegment(plan[index]);
      if !lowered {
        return false, program;
      }
      program := program + [l];
    }
    return true, program;
  }

  /** `rx_validate_planner_ir`. */
  method ValidateProgram(program: seq<Lowered>) returns (ok: bool)
    ensures ok <==> forall i | 0 <= i < |program| :: SlotsInRange(program[i])
  {
    for index := 0 to |program|
      invariant forall i | 0 <= i < index :: SlotsInRange(program[i])
    {
      var valid := Validate(program[index]);
      if !valid {
        return false;
      }
    }
    return true;
  }

  lemma AcceptedIsLowerable(p: PipelineIr, planned: Planned)
    requires Accepted(p) && PlanOf(p, planned)
    ensures Lowerable(planned)
    ensures forall l :: LoweredAs(l, planned) ==> SlotsInRange(l)
  {
    AcceptedLowers(p, planned, Lowered(OtherSource, 0, 0, [], []));
    forall l
      ensures LoweredAs(l, planned) ==> SlotsInRange(l)
    {
      AcceptedLowers(p, planned, l);
    }
  }

  /** Planning, lowering and validation of a whole program: they succeed exactly when
      every pipeline is accepted, and then each one is lowered from its own plan. */
  method Compile(ps: seq<PipelineIr>) returns (ok: bool, program: seq<Lowered>, plan: seq<Planned>)
    ensures ok <==> AllAccepted(ps)
    ensures ok ==> PlansOf(ps, plan) && |program| == |ps| && forall i | 0 <= i < |ps| :: LoweredAs(program[i], plan[i])
  {
    var built, diags;
    program := [];
    ok, built, diags := BuildExecutionPlan(ps);
    plan := built;
    if !ok {
      return;
    }
    forall i | 0 <= i < |ps|
      ensures Lowerable(built[i]) && forall l :: LoweredAs(l, built[i]) ==> SlotsInRange(l)
    {
      assert Accepted(ps[i]) && PlanOf(ps[i], built[i]);
      AcceptedIsLowerable(ps[i], built[i]);
    }
    ok, program := LowerExecutionPlan(built);
    if ok {
      ok := ValidateProgram(program);
    }
  }

  // ------------------------------------------------------------ distinct names

  /** Stages that need slots of the same names. */
  datatype Family = NoState | Scans | Reduces | Takes | Skips | SkipWhiles | Distincts | Lasts

  function FamilyOf(k: StageKind): Family {
    match k
    case Scan => Scans
    case ScanFrom => Scans
    case ScanMut => Scans
    case Reduce => Reduces
    case ReduceMut => Reduces
    case Take => Takes
    case Skip => Skips
    case SkipWhile => SkipWhiles
    case DistinctUntilChanged => Distincts
    case Last => Lasts
    case _ => NoState
  }

  predicate NamesDistinct(l: Lowered) {
    forall a, b | 0 <= a < b < |l.slots| :: SlotName(l.slots[a].kind) != SlotName(l.slots[b].kind)
  }

  /** scan, take, skip, skipWhile and distinctUntilChanged at most once each. */
  predicate FamiliesOnce(stages: seq<PlannedStage>) {
    forall i, j | 0 <= i < j < |stages| ::
      var f := FamilyOf(stages[i].kind);
      f.Scans? || f.Takes? || f.Skips? || f.SkipWhiles? || f.Distincts? ==> FamilyOf(stages[j].kind) != f
  }

  predicate TerminalsLast(stages: seq<PlannedStage>) {
    forall i | 0 <= i < |stages| - 1 :: !Terminal(stages[i].kind)
  }

  function OwnerFamily(k: SlotKind): Family {
    match k
    case ScanAccum => Scans
    case ReduceAccum => Reduces
    case TakeCount => Takes
    case SkipCount => Skips
    case SkipWhilePassed => SkipWhiles
    case LastKey => Distincts
    case HasLastKey => Distincts
    case LastValue => Lasts
    case HasLastValue => Lasts
  }

  lemma KindsOfStage(k: StageKind, d: nat, e: nat)
    requires d < |SlotKinds(k)| && e < |SlotKinds(k)|
    ensures OwnerFamily(SlotKinds(k)[d]) == FamilyOf(k) != NoState
    ensures SlotKinds(k)[d] == SlotKinds(k)[e] <==> d == e
  {
  }

  lemma KindsOfFamily(j: StageKind, k: StageKind)
    requires FamilyOf(j) == FamilyOf(k) != NoState
    ensures SlotKinds(j) == SlotKinds(k) != []
  {
  }

  /** The stage a slot belongs to. */
  lemma {:induction false} StageAt(stages: seq<PlannedStage>, k: nat, at: nat) returns (i: nat)
    requires k <= |stages| && at < SlotCount(stages, k)
    ensures i < k && SlotCount(stages, i) <= at < SlotCount(stages, i) + |SlotKinds(stages[i].kind)|
  {
    i := k - 1;
    if at < SlotCount(stages, k - 1) {
      i := StageAt(stages, k - 1, at);
    }
  }

  lemma SlotAt(l: Lowered, stages: seq<PlannedStage>, i: nat, d: nat)
    requires LoweredFrom(l, stages) && i < |stages| && d < |SlotKinds(stages[i].kind)|
    ensures var at := SlotCount(stages, i) + d;
            at < |l.slots| && l.slots[at].kind == SlotKinds(stages[i].kind)[d]
  {
    assert Owns(l.ops[i], stages[i], i, SlotCount(stages, i), l.slots);
  }

  lemma OwnerOf(l: Lowered, stages: seq<PlannedStage>, at: nat) returns (i: nat, d: nat)
    requires LoweredFrom(l, stages) && at < |l.slots|
    ensures i < |stages| && d < |SlotKinds(stages[i].kind)| && at == SlotCount(stages, i) + d
    ensures l.slots[at].kind == SlotKinds(stages[i].kind)[d]
    ensures FamilyOf(stages[i].kind) == OwnerFamily(l.slots[at].kind) != NoState
  {
    i := StageAt(stages, |stages|, at);
    d := at - SlotCount(stages, i);
    SlotAt(l, stages, i, d);
    KindsOfStage(stages[i].kind, d, d);
  }

  predicate KindsDistinct(l: Lowered) {
    forall a, b | 0 <= a < b < |l.slots| :: l.slots[a].kind != l.slots[b].kind
  }

  lemma NamesAreKinds(l: Lowered)
    ensures NamesDistinct(l) <==> KindsDistinct(l)
  {
  }

  lemma FamilyTwice(stages: seq<PlannedStage>, i: nat, j: nat)
    requires TerminalsLast(stages) && i < j < |stages|
    requires FamilyOf(stages[i].kind) == FamilyOf(stages[j].kind) != NoState
    ensures !FamiliesOnce(stages)
  {
  }

  /** Two slots of one kind come from two stages of one family. */
  lemma SameKind(l: Lowered, stages: seq<PlannedStage>, a: nat, b: nat)
    requires LoweredFrom(l, stages) && TerminalsLast(stages)
    requires a < b < |l.slots| && l.slots[a].kind == l.slots[b].kind
    ensures !FamiliesOnce(stages)
  {
    var i, d := OwnerOf(l, stages, a);
    var j, e := OwnerOf(l, stages, b);
    if i == j {
      KindsOfStage(stages[i].kind, d, e);
    } else if i > j {
      SlotCountGrows(stages, j, i);
    } else {
      FamilyTwice(stages, i, j);
    }
  }

  lemma SameFamily(l: Lowered, stages: seq<PlannedStage>, i: nat, j: nat)
    requires LoweredFrom(l, stages) && i < j < |stages|
    requires FamilyOf(stages[i].kind) == FamilyOf(stages[j].kind) != NoState
    ensures !KindsDistinct(l)
  {
    KindsOfFamily(stages[i].kind, stages[j].kind);
    SlotAt(l, stages, i, 0);
    SlotAt(l, stages, j, 0);
    SlotCountGrows(stages, i, j);
    assert l.slots[SlotCount(stages, i)].kind == l.slots[SlotCount(stages, j)].kind;
  }

  /** The names of the slots are distinct exactly when each stateful family occurs at
      most once. */
  lemma NamesDistinctExact(l: Lowered, stages: seq<PlannedStage>)
    requires LoweredFrom(l, stages) && TerminalsLast(stages)
    ensures NamesDistinct(l) <==> FamiliesOnce(stages)
  {
    NamesAreKinds(l);
    if !KindsDistinct(l) {
      var a, b :| 0 <= a < b < |l.slots| && l.slots[a].kind == l.slots[b].kind;
      SameKind(l, stages, a, b);
    }
    if !FamiliesOnce(stages) {
      var i, j :| 0 <= i < j < |stages| && FamilyOf(stages[i].kind) == FamilyOf(stages[j].kind) != NoState;
      SameFamily(l, stages, i, j);
    }
  }
}
