/** The audit pipeline: the plain specification (benchmarks/edu_complex_data.py), and
    the hand-fused loop over a direct-index table, the generated loop over the probing
    table, and the stream over a four-slot window
    (benchmarks/edu_complex_benchmark_manual.c, edu_complex_planner_generated.c,
    edu_complex_benchmark.c). The arithmetic on a record's fields is left open. */
module Audit {
  import opened Bits
  import opened Lists
  import opened Buckets
  import opened ProbeTable

  // ------------------------------------------------------------------ the data

  const TAGS: nat := 12

  type Tags = t: seq<nat> | |t| == TAGS witness seq(TAGS, i => 0)

  /** What enrichment makes of four neighbouring records. */
  datatype Enriched = Enriched(
    scholarship: nat, support: int, composite: nat, rate: nat, balance: nat, profile: int,
    absent: nat, late: nat, tags: Tags)

  /** The open arithmetic: `id` is the id of a record's school, `special` the special
      index its aggregate grows by and `shown` the one its snapshot uses, in the
      specification the same; the mixers stand for `mix32` over the fields they
      combine. */
  datatype Formulas<!R> = Formulas(
    id: R -> nat, special: R -> int, shown: R -> int, enrich: (R, R, R, R) -> Enriched,
    mixCompliance: (nat, int, int) -> nat,
    sign: (nat, nat, nat, nat, nat, int, nat, nat) -> int,
    mixDigest: (nat, nat, nat, nat, int, nat) -> nat)

  datatype Aggregate = Aggregate(
    active: nat, scholarships: nat, supports: nat, composites: nat, rates: nat, funding: int,
    compliance: nat, hist: Histogram)

  /** The aggregate of a school not seen before. */
  function Unseen(): Aggregate {
    Aggregate(0, 0, 0, 0, 0, 0, 0, seq(HIST, i => 0))
  }

  datatype Snapshot = Snapshot(school: nat, active: nat, funding: int, risk: nat, tier: nat, signature: int)

  datatype Digest = Digest(emitted: nat, enrollment: nat, risk: nat, maxTier: nat, lastSchool: nat, digest: nat)

  const ZERO: Digest := Digest(0, 0, 0, 0, 0, 0)

  datatype Window<R> = Window(primary: R, secondary: R, tertiary: R, quaternary: R)

  function WindowAt<R>(records: seq<R>, i: nat): Window<R>
    requires i + 3 < |records|
  {
    Window(records[i], records[i + 1], records[i + 2], records[i + 3])
  }

  /** Every four neighbouring records; none when there are fewer than four. */
  function Windows<R>(records: seq<R>): (ws: seq<Window<R>>)
    ensures |ws| == (if |records| >= 4 then |records| - 3 else 0)
    ensures forall i | 0 <= i < |ws| :: ws[i] == WindowAt(records, i)
  {
    if |records| < 4 then [] else seq(|records| - 3, i requires 0 <= i < |records| - 3 => WindowAt(records, i))
  }

  // ------------------------------------------------------------------ the steps

  function Hit(h: Histogram, tag: nat): Histogram {
    h[tag % HIST := h[tag % HIST] + 1]
  }

  function HitAll(h: Histogram, tags: seq<nat>): Histogram
    decreases |tags|
  {
    if tags == [] then h else HitAll(Hit(h, tags[0]), tags[1..])
  }

  function Enrich<R>(f: Formulas<R>, w: Window<R>): Enriched {
    f.enrich(w.primary, w.secondary, w.tertiary, w.quaternary)
  }

  /** The school's aggregate after one more window. */
  function Grown<R>(f: Formulas<R>, special: int, e: Enriched, a: Aggregate): Aggregate {
    Aggregate(
      a.active + 1,
      a.scholarships + (if e.scholarship > 0 then 1 else 0),
      a.supports + (if e.support >= 2 then 1 else 0),
      a.composites + e.composite,
      a.rates + e.rate,
      a.funding + e.balance - e.scholarship / 2 + special,
      f.mixCompliance(a.compliance, e.profile, special),
      HitAll(a.hist, e.tags))
  }

  /** The risk before it is cut off at 0. */
  function RawRisk(special: int, e: Enriched, a: Aggregate): int
    requires a.active > 0
  {
    15000 - a.composites / a.active * 2 + (a.funding / a.active) / 4 + a.supports * 13
    + (e.absent * 37 + e.late * 19) + special * 5 + a.compliance % 128
  }

  function Tier(risk: nat): nat {
    if risk >= 9000 then 2 else if risk >= 7000 then 1 else 0
  }

  function Observed<R>(f: Formulas<R>, school: nat, special: int, e: Enriched, a: Aggregate): Snapshot
    requires a.active > 0
  {
    var raw := RawRisk(special, e, a);
    var risk := if raw > 0 then raw else 0;
    var top := TopTwo(a.hist);
    Snapshot(school, a.active, a.funding / a.active, risk, Tier(risk),
             f.sign(school, Tier(risk), a.active, a.composites / a.active, a.rates / a.active,
                    a.funding / a.active, top.0, top.1))
  }

  predicate Relevant(s: Snapshot) {
    s.active >= 2 && (s.tier > 0 || s.funding > 100)
  }

  function SignatureOf(s: Snapshot): int {
    s.signature
  }

  predicate Cold(s: Snapshot) {
    s.active < 3
  }

  function Accumulate<R>(f: Formulas<R>, d: Digest, s: Snapshot): Digest {
    Digest(d.emitted + 1, d.enrollment + s.active, d.risk + s.risk,
           if s.tier > d.maxTier then s.tier else d.maxTier, s.school,
           f.mixDigest(d.digest, s.school, s.active, s.risk, s.funding, s.tier))
  }

  // ------------------------------------------------------------ the specification

  function Entry(table: map<nat, Aggregate>, id: nat): Aggregate {
    if id in table then table[id] else Unseen()
  }

  function GrownFor<R>(f: Formulas<R>, w: Window<R>, table: map<nat, Aggregate>): (a: Aggregate)
    ensures a.active > 0
  {
    Grown(f, f.special(w.primary), Enrich(f, w), Entry(table, f.id(w.primary)))
  }

  /** The snapshot of each window, taken right after its school's aggregate grew. */
  function Snapshots<R>(f: Formulas<R>, ws: seq<Window<R>>, table: map<nat, Aggregate>): seq<Snapshot>
    decreases |ws|
  {
    if ws == [] then []
    else
      var id, a := f.id(ws[0].primary), GrownFor(f, ws[0], table);
      [Observed(f, id, f.shown(ws[0].primary), Enrich(f, ws[0]), a)] + Snapshots(f, ws[1..], table[id := a])
  }

  function Accumulator<R>(f: Formulas<R>): (Digest, Snapshot) -> Digest {
    (d, s) => Accumulate(f, d, s)
  }

  /** The pipeline as list transforms: windows, enriched and aggregated by school;
      snapshots; the relevant ones; without repeated signatures; without the cold
      ones at the start; reduced. */
  function Specified<R>(f: Formulas<R>, records: seq<R>): Digest {
    Fold(Accumulator(f), ZERO,
         DropWhile(Cold, Dedup(SignatureOf, None,
           Filter(Relevant, Snapshots(f, Windows(records), map[])))))
  }

  // -------------------------------------------------------------- one item at a time

  /** The variables of the fused loops. */
  datatype Progress = Progress(last: Option<int>, started: bool, digest: Digest)

  const FRESH: Progress := Progress(None, false, ZERO)

  /** What the end of the loop body does with a snapshot. */
  function Consume<R>(f: Formulas<R>, p: Progress, s: Snapshot): Progress {
    if !Relevant(s) then p
    else if p.last == Some(s.signature) then p
    else if !p.started && Cold(s) then p.(last := Some(s.signature))
    else Progress(Some(s.signature), true, Accumulate(f, p.digest, s))
  }

  function ConsumeAll<R>(f: Formulas<R>, p: Progress, ss: seq<Snapshot>): Progress
    decreases |ss|
  {
    if ss == [] then p else ConsumeAll(f, Consume(f, p, ss[0]), ss[1..])
  }

  function Reduced<R>(f: Formulas<R>, p: Progress, kept: seq<Snapshot>): Digest {
    var deduped := Dedup(SignatureOf, p.last, kept);
    Fold(Accumulator(f), p.digest, if p.started then deduped else DropWhile(Cold, deduped))
  }

  /** The stages from the filter on, resumed from the loop's variables. */
  function Rest<R>(f: Formulas<R>, p: Progress, ss: seq<Snapshot>): Digest {
    Reduced(f, p, Filter(Relevant, ss))
  }

  /** One relevant snapshot. */
  lemma ConsumeKept<R>(f: Formulas<R>, p: Progress, s: Snapshot, kept: seq<Snapshot>)
    requires Relevant(s)
    ensures Reduced(f, p, [s] + kept) == Reduced(f, Consume(f, p, s), kept)
  {
  }

  lemma RestStep<R>(f: Formulas<R>, p: Progress, ss: seq<Snapshot>)
    requires ss != []
    ensures Rest(f, p, ss) == Rest(f, Consume(f, p, ss[0]), ss[1..])
  {
    var s, kept := ss[0], Filter(Relevant, ss[1..]);
    if !Relevant(s) {
      assert Filter(Relevant, ss) == [] + kept == kept;
    } else {
      assert Filter(Relevant, ss) == [s] + kept;
      ConsumeKept(f, p, s, kept);
    }
  }

  /** Item by item is stage by stage. */
  lemma {:induction false} ConsumeIsStages<R>(f: Formulas<R>, p: Progress, ss: seq<Snapshot>)
    ensures ConsumeAll(f, p, ss).digest == Rest(f, p, ss)
    decreases |ss|
  {
    if ss != [] {
      ConsumeIsStages(f, Consume(f, p, ss[0]), ss[1..]);
      RestStep(f, p, ss);
    }
  }

  /** The loops below keep a table and the progress; this is where they end. */
  function Fused<R>(f: Formulas<R>, ws: seq<Window<R>>, table: map<nat, Aggregate>, p: Progress): Progress {
    ConsumeAll(f, p, Snapshots(f, ws, table))
  }

  function Seen<R>(f: Formulas<R>, w: Window<R>, table: map<nat, Aggregate>): Snapshot {
    Observed(f, f.id(w.primary), f.shown(w.primary), Enrich(f, w), GrownFor(f, w, table))
  }

  lemma SnapshotsStep<R>(f: Formulas<R>, ws: seq<Window<R>>, table: map<nat, Aggregate>)
    requires ws != []
    ensures Snapshots(f, ws, table) ==
            [Seen(f, ws[0], table)] + Snapshots(f, ws[1..], table[f.id(ws[0].primary) := GrownFor(f, ws[0], table)])
  {
  }

  lemma FusedStep<R>(f: Formulas<R>, ws: seq<Window<R>>, table: map<nat, Aggregate>, p: Progress)
    requires ws != []
    ensures Fused(f, ws, table, p) ==
            Fused(f, ws[1..], table[f.id(ws[0].primary) := GrownFor(f, ws[0], table)],
                  Consume(f, p, Seen(f, ws[0], table)))
  {
  }

  lemma FusedIsSpecified<R>(f: Formulas<R>, records: seq<R>)
    ensures Fused(f, Windows(records), map[], FRESH).digest == Specified(f, records)
  {
    ConsumeIsStages(f, FRESH, Snapshots(f, Windows(records), map[]));
  }

  // ----------------------------------------------------------- shared entries

  /** A table entry: the aggregate, and the special index of the school it was made
      with. */
  datatype Cached = Cached(special: int, a: Aggregate)

  /** The special index of the first record of an id. */
  function FirstIndex<R>(f: Formulas<R>, records: seq<R>, id: nat): int {
    if records == [] then 0
    else if f.id(records[0]) == id then f.special(records[0])
    else FirstIndex(f, records[1..], id)
  }

  /** Snapshots show the school an entry was made with: that of the first record of
      the id. */
  function Shown<R>(f: Formulas<R>, records: seq<R>): Formulas<R> {
    f.(shown := r => FirstIndex(f, records, f.id(r)))
  }

  /** The entry's special index is used for growing too. */
  function Cache<R>(f: Formulas<R>, records: seq<R>): Formulas<R> {
    f.(shown := r => FirstIndex(f, records, f.id(r)), special := r => FirstIndex(f, records, f.id(r)))
  }

  /** A record whose id has not occurred before it is the first of its id. */
  lemma {:induction false} FirstIsNew<R>(f: Formulas<R>, records: seq<R>, at: nat)
    requires at < |records| && forall j | 0 <= j < at :: f.id(records[j]) != f.id(records[at])
    ensures FirstIndex(f, records, f.id(records[at])) == f.special(records[at])
  {
    if at > 0 {
      assert f.id(records[0]) != f.id(records[at]);
      FirstIsNew(f, records[1..], at - 1);
    }
  }

  /** Records of one school id share the special index, as they do where a loader
      hands out one school an id. */
  predicate OneSchoolPerId<R>(f: Formulas<R>, records: seq<R>) {
    forall i, j | 0 <= i < |records| && 0 <= j < |records| && f.id(records[i]) == f.id(records[j]) ::
      f.shown(records[i]) == f.special(records[j])
  }

  lemma {:induction false} SharedIndex<R>(f: Formulas<R>, records: seq<R>, at: nat)
    requires OneSchoolPerId(f, records) && at < |records|
    ensures FirstIndex(f, records, f.id(records[at])) == f.special(records[at]) == f.shown(records[at])
  {
    assert f.shown(records[at]) == f.special(records[at]);
    if f.id(records[0]) == f.id(records[at]) {
      assert f.shown(records[at]) == f.special(records[0]);
    } else {
      assert OneSchoolPerId(f, records[1..]) by {
        assert forall i | 0 <= i < |records| - 1 :: records[1..][i] == records[i + 1];
      }
      SharedIndex(f, records[1..], at - 1);
    }
  }

  /** Formulas that agree on the primary records, and share the rest, specify the same. */
  ghost predicate SameOn<R>(f: Formulas<R>, g: Formulas<R>, ws: seq<Window<R>>) {
    && g.id == f.id && g.enrich == f.enrich && g.mixCompliance == f.mixCompliance && g.sign == f.sign
    && g.mixDigest == f.mixDigest
    && forall i | 0 <= i < |ws| ::
         f.special(ws[i].primary) == g.special(ws[i].primary) && f.shown(ws[i].primary) == g.shown(ws[i].primary)
  }

  lemma SameSeen<R>(f: Formulas<R>, g: Formulas<R>, w: Window<R>, table: map<nat, Aggregate>)
    requires SameOn(f, g, [w])
    ensures GrownFor(f, w, table) == GrownFor(g, w, table) && Seen(f, w, table) == Seen(g, w, table)
  {
    assert [w][0] == w;
  }

  lemma {:induction false} SameSnapshots<R>(f: Formulas<R>, g: Formulas<R>, ws: seq<Window<R>>,
                                            table: map<nat, Aggregate>)
    requires SameOn(f, g, ws)
    ensures Snapshots(f, ws, table) == Snapshots(g, ws, table)
    decreases |ws|
  {
    if ws != [] {
      SnapshotsStep(f, ws, table);
      SnapshotsStep(g, ws, table);
      SameSeen(f, g, ws[0], table);
      SameSnapshots(f, g, ws[1..], table[f.id(ws[0].primary) := GrownFor(f, ws[0], table)]);
    }
  }

  lemma {:induction false} SameDigests<R>(f: Formulas<R>, g: Formulas<R>, d: Digest, ss: seq<Snapshot>)
    requires g.mixDigest == f.mixDigest
    ensures Fold(Accumulator(f), d, ss) == Fold(Accumulator(g), d, ss)
    decreases |ss|
  {
    if ss != [] {
      SameDigests(f, g, Accumulate(f, d, ss[0]), ss[1..]);
    }
  }

  lemma SameSpecified<R>(f: Formulas<R>, g: Formulas<R>, records: seq<R>)
    requires SameOn(f, g, Windows(records))
    ensures Specified(f, records) == Specified(g, records)
  {
    SameSnapshots(f, g, Windows(records), map[]);
    SameDigests(f, g, ZERO, DropWhile(Cold, Dedup(SignatureOf, None,
      Filter(Relevant, Snapshots(f, Windows(records), map[])))));
  }

  /** Where records of one id share the special index, caching it changes nothing. */
  lemma CachesAreSpecified<R>(f: Formulas<R>, records: seq<R>)
    requires OneSchoolPerId(f, records)
    ensures Specified(Cache(f, records), records) == Specified(f, records)
    ensures Specified(Shown(f, records), records) == Specified(f, records)
  {
    var ws := Windows(records);
    forall i | 0 <= i < |ws|
      ensures FirstIndex(f, records, f.id(ws[i].primary)) == f.special(ws[i].primary) == f.shown(ws[i].primary)
    {
      SharedIndex(f, records, i);
    }
    SameSpecified(f, Cache(f, records), records);
    SameSpecified(f, Shown(f, records), records);
  }

  /** The entry is the aggregate of the specification, made with the special index
      its school shows. */
  predicate Backs<R>(f: Formulas<R>, records: seq<R>, id: nat, c: Cached, table: map<nat, Aggregate>) {
    && id in table && c.a == table[id]
    && forall i | 0 <= i < |records| && f.id(records[i]) == id :: c.special == f.shown(records[i])
  }

  /** The schools of the first `n` records have entries. */
  predicate Visited<R>(f: Formulas<R>, records: seq<R>, n: nat, table: map<nat, Aggregate>)
    requires n <= |records|
  {
    forall j | 0 <= j < n :: f.id(records[j]) in table
  }

  function Abs(n: int): nat {
    if n < 0 then -n else n
  }

  /** C's quotient of integers: rounded towards zero. */
  function Truncated(n: int, d: int): int
    requires d != 0
  {
    if (n < 0) == (d < 0) then Abs(n) / Abs(d) else -(Abs(n) / Abs(d))
  }

  lemma FloorOf(n: int, d: nat, q: int, r: int)
    requires d > 0 && q == (if n >= 0 then n / d else -(-n / d)) && r == n - d * q
    ensures n / d == if r != 0 && n < 0 then q - 1 else q
  {
    if n < 0 {
      var k, s := -n / d, -n % d;
      assert -n == d * k + s;
      assert d * -k == -(d * k) && d * (-k - 1) == -(d * k) - d;
      if s == 0 {
        DivUnique(n, d, -k, 0);
      } else {
        DivUnique(n, d, -k - 1, d - s);
      }
    }
  }

  lemma NegatedProduct(d: int, t: int)
    ensures -d * t == -(d * t)
  {
  }

  /** Dividing by a negative number is dividing the negated numbers. */
  lemma NegatedParts(n: int, d: int)
    requires d < 0
    ensures Truncated(n, d) == Truncated(-n, -d)
    ensures n - d * Truncated(n, d) == -(-n - -d * Truncated(-n, -d))
  {
    var t := Truncated(n, d);
    if n == 0 {
      assert 0 / Abs(d) == 0;
    }
    assert Truncated(-n, -d) == t;
    NegatedProduct(d, t);
  }

  /** `floor_div_i64`: C's quotient, less one when it was rounded up. */
  method FloorDiv(numerator: int, denominator: int) returns (quotient: int)
    requires denominator != 0
    ensures denominator > 0 ==> quotient == numerator / denominator
    ensures denominator < 0 ==> quotient == -numerator / -denominator
  {
    quotient := Truncated(numerator, denominator);
    var remainder := numerator - denominator * quotient;
    if denominator > 0 {
      FloorOf(numerator, denominator, quotient, remainder);
    } else {
      NegatedParts(numerator, denominator);
      FloorOf(-numerator, -denominator, quotient, -remainder);
    }
    if remainder != 0 && (numerator < 0) != (denominator < 0) {
      quotient := quotient - 1;
    }
  }

  // ------------------------------------------------- the end of the loop bodies

  /** From the grown aggregate to the digest, as `run_manual_context` writes it: the
      signature only for relevant snapshots, the two best buckets by one scan. */
  method FinishManual<R>(f: Formulas<R>, school: nat, special: int, e: Enriched, a: Aggregate, p: Progress)
      returns (r: Progress)
    requires a.active > 0
    ensures r == Consume(f, p, Observed(f, school, special, e, a))
  {
    r := p;
    var avgComposite := a.composites / a.active;
    var avgAttendance := a.rates / a.active;
    var funding := FloorDiv(a.funding, a.active);
    var pressure := e.absent * 37 + e.late * 19;
    var quarter := FloorDiv(funding, 4);
    var raw := 15000 - avgComposite * 2 + quarter + a.supports * 13 + pressure + special * 5 + a.compliance % 128;
    var risk := if raw > 0 then raw else 0;
    var tier := if risk >= 9000 then 2 else if risk >= 7000 then 1 else 0;
    if a.active < 2 || (tier == 0 && funding <= 100) {
      return;
    }
    var top0, top1 := ChooseTopTwo(a.hist);
    var signature := f.sign(school, tier, a.active, avgComposite, avgAttendance, funding, top0, top1);
    if r.last.Some? && signature == r.last.value {
      return;
    }
    r := r.(last := Some(signature));
    if !r.started && a.active < 3 {
      return;
    }
    var d := r.digest;
    r := r.(started := true, digest := Digest(
      d.emitted + 1, d.enrollment + a.active, d.risk + risk, if tier > d.maxTier then tier else d.maxTier, school,
      f.mixDigest(d.digest, school, a.active, risk, funding, tier)));
  }

  /** `populate_school_snapshot`: always with all six buckets. */
  method PopulateSnapshot<R>(f: Formulas<R>, school: nat, special: int, e: Enriched, a: Aggregate) returns (s: Snapshot)
    requires a.active > 0
    ensures s == Observed(f, school, special, e, a)
  {
    var avgComposite := a.composites / a.active;
    var avgAttendance := a.rates / a.active;
    var funding := FloorDiv(a.funding, a.active);
    var pressure := e.absent * 37 + e.late * 19;
    var quarter := FloorDiv(funding, 4);
    var raw := 15000 - avgComposite * 2 + quarter + a.supports * 13 + pressure + special * 5 + a.compliance % 128;
    var risk := if raw > 0 then raw else 0;
    var tier := if risk >= 9000 then 2 else if risk >= 7000 then 1 else 0;
    var top := ChooseTopBuckets(a.hist);
    s := Snapshot(school, a.active, funding, risk, tier,
                  f.sign(school, tier, a.active, avgComposite, avgAttendance, funding, top[0], top[1]));
  }

  /** The stages after the snapshot, as generated: filter, distinctUntilChanged,
      skipWhile, reduce, with a continue each. */
  method FinishStaged<R>(f: Formulas<R>, s: Snapshot, p: Progress) returns (r: Progress)
    ensures r == Consume(f, p, s)
  {
    r := p;
    if !Relevant(s) {
      return;
    }
    var key := SignatureOf(s);
    if r.last.Some? && key == r.last.value {
      return;
    }
    r := r.(last := Some(key));
    if !r.started && Cold(s) {
      return;
    }
    r := r.(started := true);
    r := r.(digest := Accumulate(f, r.digest, s));
  }

  // ------------------------------------------------------- growing an aggregate

  lemma {:induction false} HitsSoFar(h: Histogram, tags: seq<nat>, k: nat)
    requires k < |tags|
    ensures HitAll(h, tags[..k + 1]) == Hit(HitAll(h, tags[..k]), tags[k])
    decreases k
  {
    if k > 0 {
      assert tags[..k + 1][1..] == tags[1..][..k] && tags[..k][1..] == tags[1..][..k - 1];
      HitsSoFar(Hit(h, tags[0]), tags[1..], k - 1);
    } else {
      assert tags[..1][1..] == [];
    }
  }

  /** `tag_hist[tag & 31] += 1`, the hits of the first `k` tags done. */
  method HitOne(ghost start: Histogram, tags: seq<nat>, k: nat, h: Histogram) returns (r: Histogram)
    requires k < |tags| && h == HitAll(start, tags[..k])
    ensures r == HitAll(start, tags[..k + 1])
  {
    HitsSoFar(start, tags, k);
    var bucket := tags[k] % HIST;
    r := h[bucket := h[bucket] + 1];
  }

  /** The twelve histogram hits of `run_manual_context`, written out. */
  method HitTwelve(start: Histogram, t: Tags) returns (h: Histogram)
    ensures h == HitAll(start, t)
  {
    h := HitOne(start, t, 0, start);
    h := HitOne(start, t, 1, h);
    h := HitOne(start, t, 2, h);
    h := HitOne(start, t, 3, h);
    h := HitOne(start, t, 4, h);
    h := HitOne(start, t, 5, h);
    h := HitOne(start, t, 6, h);
    h := HitOne(start, t, 7, h);
    h := HitOne(start, t, 8, h);
    h := HitOne(start, t, 9, h);
    h := HitOne(start, t, 10, h);
    h := HitOne(start, t, 11, h);
    assert t[..TAGS] == t;
  }

  /** The update in `run_manual_context`, field by field. */
  method GrowManual<R>(f: Formulas<R>, special: int, e: Enriched, a: Aggregate) returns (g: Aggregate)
    ensures g == Grown(f, special, e, a)
  {
    var h := HitTwelve(a.hist, e.tags);
    g := a.(active := a.active + 1);
    g := g.(scholarships := g.scholarships + if e.scholarship > 0 then 1 else 0);
    g := g.(supports := g.supports + if e.support >= 2 then 1 else 0);
    g := g.(composites := g.composites + e.composite, rates := g.rates + e.rate);
    g := g.(funding := g.funding + (e.balance - e.scholarship / 2 + special));
    g := g.(compliance := f.mixCompliance(g.compliance, e.profile, special), hist := h);
  }

  /** The update in `update_database_state_mut`: the hits in a loop, last. */
  method GrowLooped<R>(f: Formulas<R>, special: int, e: Enriched, a: Aggregate) returns (g: Aggregate)
    ensures g == Grown(f, special, e, a)
  {
    g := a.(active := a.active + 1);
    g := g.(scholarships := g.scholarships + if e.scholarship > 0 then 1 else 0);
    g := g.(supports := g.supports + if e.support >= 2 then 1 else 0);
    g := g.(composites := g.composites + e.composite, rates := g.rates + e.rate);
    g := g.(funding := g.funding + (e.balance - e.scholarship / 2 + special));
    g := g.(compliance := f.mixCompliance(g.compliance, e.profile, special));
    var h := a.hist;
    for index := 0 to TAGS
      invariant h == HitAll(a.hist, e.tags[..index])
    {
      h := HitOne(a.hist, e.tags, index, h);
    }
    assert e.tags[..TAGS] == e.tags;
    g := g.(hist := h);
  }

  // ------------------------------------------------------ the direct-index table

  class ManualContext {
    const base: nat
    const aggregates: array<Option<Cached>>

    /** Entry `i` belongs to school `base + i`, and holds what the map has for it. */
    ghost predicate Holds<R>(f: Formulas<R>, records: seq<R>, table: map<nat, Aggregate>)
      reads aggregates
    {
      && (forall i | 0 <= i < |records| :: base <= f.id(records[i]) < base + aggregates.Length)
      && (forall i | 0 <= i < aggregates.Length :: aggregates[i].Some? <==> base + i in table)
      && (forall i | 0 <= i < aggregates.Length && aggregates[i].Some? ::
            Backs(f, records, base + i, aggregates[i].value, table))
    }

    /** `build_manual_context`: from the smallest to the largest school id. */
    constructor <R>(f: Formulas<R>, records: seq<R>)
      requires records != []
      ensures fresh(aggregates) && Holds(Cache(f, records), records, map[])
    {
      var min: nat, max: nat := f.id(records[0]), f.id(records[0]);
      for i := 1 to |records|
        invariant min <= max && forall j | 0 <= j < i :: min <= f.id(records[j]) <= max
      {
        if f.id(records[i]) < min {
          min := f.id(records[i]);
        }
        if f.id(records[i]) > max {
          max := f.id(records[i]);
        }
      }
      base := min;
      aggregates := new Option<Cached>[max - min + 1](_ => None);
    }

    /** The update of the school of window `at`. */
    method Grow<R>(f: Formulas<R>, ghost records: seq<R>, w: Window<R>, ghost at: nat, e: Enriched,
                   ghost table: map<nat, Aggregate>) returns (c: Cached)
      requires Holds(Cache(f, records), records, table) && e == Enrich(f, w)
      requires at < |records| && records[at] == w.primary && Visited(f, records, at, table)
      modifies aggregates
      ensures c == Cached(Cache(f, records).shown(w.primary), GrownFor(Cache(f, records), w, table))
      ensures Holds(Cache(f, records), records, table[f.id(w.primary) := c.a])
    {
      var id := f.id(w.primary);
      var slot := id - base;
      if aggregates[slot].None? {
        FirstIsNew(f, records, at);
        aggregates[slot] := Some(Cached(f.special(w.primary), Unseen()));
      }
      var entry := aggregates[slot].value;
      var grown := GrowManual(f, entry.special, e, entry.a);
      c := entry.(a := grown);
      aggregates[slot] := Some(c);
    }
  }

  /** The end of the loop body does not look at special indices. */
  lemma FinishSame<R>(f: Formulas<R>, g: Formulas<R>, school: nat, special: int, e: Enriched, a: Aggregate, p: Progress)
    requires a.active > 0 && g.sign == f.sign && g.mixDigest == f.mixDigest
    ensures Observed(f, school, special, e, a) == Observed(g, school, special, e, a)
    ensures var s := Observed(f, school, special, e, a); Consume(f, p, s) == Consume(g, p, s)
  {
  }

  /** One turn of the loop of `run_manual_context` is one step of the specified run. */
  lemma ManualStep<R>(f: Formulas<R>, records: seq<R>, rest: seq<Window<R>>, table: map<nat, Aggregate>, p: Progress,
                      e: Enriched, c: Cached)
    requires rest != [] && e == Enrich(f, rest[0])
    requires var g := Cache(f, records); c == Cached(g.shown(rest[0].primary), GrownFor(g, rest[0], table))
    ensures var id := f.id(rest[0].primary);
            Fused(Cache(f, records), rest, table, p) ==
            Fused(Cache(f, records), rest[1..], table[id := c.a],
                  Consume(f, p, Observed(f, id, c.special, e, c.a)))
  {
    var g := Cache(f, records);
    FusedStep(g, rest, table, p);
    FinishSame(f, g, f.id(rest[0].primary), c.special, e, c.a, p);
  }

  /** `run_manual_context`: the fused loop over the direct-index table. */
  method RunContext<R>(f: Formulas<R>, records: seq<R>, context: ManualContext) returns (result: Digest)
    requires |records| >= 4 && context.Holds(Cache(f, records), records, map[])
    modifies context.aggregates
    ensures result == Fused(Cache(f, records), Windows(records), map[], FRESH).digest
  {
    ghost var g := Cache(f, records);
    ghost var rest, table: map<nat, Aggregate> := Windows(records), map[];
    var p := FRESH;
    for index := 0 to |records| - 3
      invariant context.Holds(g, records, table)
      invariant Visited(f, records, index, table) && rest == Windows(records)[index..]
      invariant Fused(g, rest, table, p) == Fused(g, Windows(records), map[], FRESH)
    {
      var w := WindowAt(records, index);
      var e := Enrich(f, w);
      var c := context.Grow(f, records, w, index, e, table);
      ManualStep(f, records, rest, table, p, e, c);
      p := FinishManual(f, f.id(w.primary), c.special, e, c.a, p);
      table, rest := table[f.id(w.primary) := c.a], rest[1..];
    }
    result := p.digest;
  }

  /** The benchmark: the digest specified with the special index of the first record of
      each id. */
  method RunManual<R>(f: Formulas<R>, records: seq<R>) returns (result: Digest)
    ensures result == Specified(Cache(f, records), records)
    ensures OneSchoolPerId(f, records) ==> result == Specified(f, records)
  {
    FusedIsSpecified(Cache(f, records), records);
    if OneSchoolPerId(f, records) {
      CachesAreSpecified(f, records);
    }
    if |records| < 4 {
      return ZERO;
    }
    var context := new ManualContext(f, records);
    result := RunContext(f, records, context);
  }

  // --------------------------------------------------------- the probing table

  const DATABASE_CAPACITY: nat := 8192

  /** `populate_enriched_record` keeps the absences and late arrivals of the four
      records in 16 bits. */
  function Narrow(e: Enriched): Enriched {
    e.(absent := e.absent % 0x1_0000, late := e.late % 0x1_0000)
  }

  function Narrowed<R>(f: Formulas<R>): Formulas<R> {
    f.(enrich := (a, b, c, d) => Narrow(f.enrich(a, b, c, d)))
  }

  function Ids<R>(f: Formulas<R>, records: seq<R>): set<nat> {
    set i | 0 <= i < |records| :: f.id(records[i])
  }

  /** The table holds what the map has. */
  ghost predicate Stored<R>(f: Formulas<R>, records: seq<R>, contents: map<nat, Cached>, table: map<nat, Aggregate>) {
    && contents.Keys == table.Keys && contents.Keys <= Ids(f, records)
    && forall id | id in contents :: Backs(f, records, id, contents[id], table)
  }

  /** The entry of the school of record `at`: shown with its first index, and holding
      the aggregate so far. */
  lemma EntryHolds<R>(f: Formulas<R>, records: seq<R>, at: nat, contents: map<nat, Cached>,
                      table: map<nat, Aggregate>)
    requires Stored(Shown(f, records), records, contents, table)
    requires at < |records| && Visited(f, records, at, table)
    ensures var id := f.id(records[at]);
            var entry := if id in contents then contents[id] else Cached(f.special(records[at]), Unseen());
            entry == Cached(FirstIndex(f, records, id), Entry(table, id))
  {
    if f.id(records[at]) in contents {
      assert Shown(f, records).id(records[at]) == f.id(records[at]);
    } else {
      FirstIsNew(f, records, at);
    }
  }

  /** Storing an entry that shows its school's first index. */
  lemma StoredMore<R>(f: Formulas<R>, records: seq<R>, at: nat, contents: map<nat, Cached>,
                      table: map<nat, Aggregate>, c: Cached)
    requires Stored(Shown(f, records), records, contents, table) && at < |records|
    requires c.special == FirstIndex(f, records, f.id(records[at]))
    ensures var id := f.id(records[at]);
            Stored(Shown(f, records), records, contents[id := c], table[id := c.a])
  {
    var id, g := f.id(records[at]), Shown(f, records);
    assert id in Ids(g, records) by {
      assert g.id(records[at]) == id;
    }
    assert Backs(g, records, id, c, table[id := c.a]);
  }

  lemma GrownEntry<R>(f: Formulas<R>, records: seq<R>, w: Window<R>, e: Enriched, table: map<nat, Aggregate>)
    requires e == Enrich(f, w)
    ensures var id := f.id(w.primary);
            Cached(FirstIndex(f, records, id), Grown(f, f.special(w.primary), e, Entry(table, id))) ==
            Cached(Shown(f, records).shown(w.primary), GrownFor(Shown(f, records), w, table))
  {
  }

  /** `update_database_state_mut` for the school of window `at`. */
  method UpdateDatabase<R>(f: Formulas<R>, ghost records: seq<R>, state: Table<Cached>, w: Window<R>, ghost at: nat,
                           e: Enriched, ghost table: map<nat, Aggregate>) returns (c: Cached)
    requires state.Valid() && |Ids(f, records)| <= state.slots.Length && e == Enrich(f, w)
    requires Stored(Shown(f, records), records, state.contents, table)
    requires at < |records| && records[at] == w.primary && Visited(f, records, at, table)
    modifies state`contents, state.slots
    ensures state.Valid()
    ensures c == Cached(Shown(f, records).shown(w.primary), GrownFor(Shown(f, records), w, table))
    ensures Stored(Shown(f, records), records, state.contents, table[f.id(w.primary) := c.a])
  {
    var id := f.id(w.primary);
    assert Ids(f, records) == Ids(Shown(f, records), records) && f.id(records[at]) in Ids(f, records);
    RoomFor(state.contents.Keys, Ids(f, records), id, state.slots.Length);
    var slot := state.Find(id);
    FoundMeans(state.hash, state.slots[..], state.contents, id, slot);
    EntryHolds(f, records, at, state.contents, table);
    var entry := if state.slots[slot].Full? then state.slots[slot].value else Cached(f.special(w.primary), Unseen());
    var grown := GrowLooped(f, f.special(w.primary), e, entry.a);
    c := Cached(entry.special, grown);
    GrownEntry(f, records, w, e, table);
    StoredMore(f, records, at, state.contents, table, c);
    state.Write(id, slot, c);
  }

  /** The formulas of the table-driven loops: sums of 16 bits, snapshots that show the
      entry's school. */
  function Tabled<R>(f: Formulas<R>, records: seq<R>): Formulas<R> {
    Shown(Narrowed(f), records)
  }

  /** Window `at` through all stages, as the planner's loop and the stream do it. */
  method Item<R>(f: Formulas<R>, ghost records: seq<R>, state: Table<Cached>, w: Window<R>, ghost at: nat, p: Progress,
                 ghost table: map<nat, Aggregate>) returns (r: Progress, ghost grown: map<nat, Aggregate>)
    requires state.Valid() && |Ids(f, records)| <= state.slots.Length
    requires Stored(Tabled(f, records), records, state.contents, table)
    requires at < |records| && records[at] == w.primary && Visited(f, records, at, table)
    modifies state`contents, state.slots
    ensures state.Valid() && Stored(Tabled(f, records), records, state.contents, grown)
    ensures Visited(f, records, at + 1, grown)
    ensures grown == table[f.id(w.primary) := GrownFor(Tabled(f, records), w, table)]
    ensures r == Consume(Tabled(f, records), p, Seen(Tabled(f, records), w, table))
  {
    var n := Narrowed(f);
    ghost var g := Tabled(f, records);
    var id := f.id(w.primary);
    var e := Narrow(Enrich(f, w));
    assert Ids(n, records) == Ids(f, records);
    var c := UpdateDatabase(n, records, state, w, at, e, table);
    var snapshot := PopulateSnapshot(n, id, c.special, e, c.a);
    FinishSame(n, g, id, c.special, e, c.a, p);
    r := FinishStaged(n, snapshot, p);
    grown := table[id := c.a];
  }

  lemma TabledIsNarrowed<R>(f: Formulas<R>, records: seq<R>)
    ensures OneSchoolPerId(f, records) ==>
              Specified(Tabled(f, records), records) == Specified(Narrowed(f), records)
  {
    if OneSchoolPerId(f, records) {
      assert OneSchoolPerId(Narrowed(f), records);
      CachesAreSpecified(Narrowed(f), records);
    }
  }

  lemma DatabaseSize()
    ensures DATABASE_CAPACITY == Pow2(13)
  {
  }

  /** `run_edu_complex_planner`: the generated loop over the zipped records. */
  method RunPlanner<R>(f: Formulas<R>, hash: nat -> nat, records: seq<R>) returns (result: Digest)
    requires |Ids(f, records)| <= DATABASE_CAPACITY
    ensures result == Specified(Tabled(f, records), records)
    ensures OneSchoolPerId(f, records) ==> result == Specified(Narrowed(f), records)
  {
    ghost var g := Tabled(f, records);
    FusedIsSpecified(g, records);
    TabledIsNarrowed(f, records);
    DatabaseSize();
    var state := new Table<Cached>(hash, DATABASE_CAPACITY, 13);
    var zipped := Windows(records);
    ghost var table: map<nat, Aggregate> := map[];
    var p := FRESH;
    for src := 0 to |zipped|
      invariant state.Valid() && fresh(state) && fresh(state.slots) && state.slots.Length == DATABASE_CAPACITY
      invariant Stored(g, records, state.contents, table) && Visited(f, records, src, table)
      invariant Fused(g, zipped, map[], FRESH) == Fused(g, zipped[src..], table, p)
    {
      assert zipped[src..][0] == zipped[src] && zipped[src..][1..] == zipped[src + 1..];
      FusedStep(g, zipped[src..], table, p);
      p, table := Item(f, records, state, zipped[src], src, p, table);
    }
    result := p.digest;
  }

  // -------------------------------------------------------- the four-slot window

  function Built<R>(build: nat -> R, count: nat): (r: seq<R>)
    ensures |r| == count && forall i | 0 <= i < count :: r[i] == build(i)
  {
    seq(count, i requires 0 <= i => build(i))
  }

  /** The slots hold the four records from `base` on, each in the slot of its number
      modulo 4; past the end of the stream a slot may be stale. */
  ghost predicate Ring<R>(slots: seq<R>, build: nat -> R, count: nat, base: nat) {
    |slots| == 4 && forall i: nat | base <= i < base + 4 && i < count :: slots[i % 4] == build(i)
  }

  lemma RingTurns<R>(slots: seq<R>, build: nat -> R, count: nat, base: nat, next: seq<R>)
    requires Ring(slots, build, count, base)
    requires next == if base + 4 < count then slots[base % 4 := build(base + 4)] else slots
    ensures Ring(next, build, count, base + 1)
  {
  }

  /** Where the stream is before window `base`. */
  ghost predicate Streaming<R>(f: Formulas<R>, build: nat -> R, count: nat, slots: seq<R>, base: nat,
                               contents: map<nat, Cached>, table: map<nat, Aggregate>, p: Progress) {
    var ws := Windows(Built(build, count));
    var records := Built(build, count);
    var g := Tabled(f, records);
    && base <= |ws| && Ring(slots, build, count, base)
    && Stored(g, records, contents, table) && Visited(f, records, base, table)
    && Fused(g, ws, map[], FRESH) == Fused(g, ws[base..], table, p)
  }

  ghost predicate Servable<R>(f: Formulas<R>, build: nat -> R, count: nat) {
    |Ids(f, Built(build, count))| <= DATABASE_CAPACITY
  }

  lemma RingWindow<R>(slots: seq<R>, build: nat -> R, count: nat, base: nat)
    requires Ring(slots, build, count, base) && base + 3 < count
    ensures Window(slots[base % 4], slots[(base + 1) % 4], slots[(base + 2) % 4], slots[(base + 3) % 4]) ==
            WindowAt(Built(build, count), base)
  {
  }

  /** The stream is before window `base`: the four slots and the table hold what they
      should. */
  ghost predicate Ready<R>(f: Formulas<R>, build: nat -> R, count: nat, window: array<R>, base: nat,
                           state: Table<Cached>, table: map<nat, Aggregate>, p: Progress)
    reads window, state, state.slots
  {
    && state.Valid() && state.slots.Length == DATABASE_CAPACITY && window.Length == 4
    && Streaming(f, build, count, window[..], base, state.contents, table, p)
  }

  /** One turn of the stream: the window's stages, then the next record. */
  method StreamItem<R>(f: Formulas<R>, build: nat -> R, count: nat, window: array<R>, base: nat, state: Table<Cached>,
                       p: Progress, ghost table: map<nat, Aggregate>)
      returns (r: Progress, ghost grown: map<nat, Aggregate>)
    requires Servable(f, build, count) && base + 3 < count && Ready(f, build, count, window, base, state, table, p)
    modifies window, state`contents, state.slots
    ensures Ready(f, build, count, window, base + 1, state, grown, r)
  {
    ghost var records, slots := Built(build, count), window[..];
    ghost var rest := Windows(records)[base..];
    RingWindow(slots, build, count, base);
    var w := Window(window[base % 4], window[(base + 1) % 4], window[(base + 2) % 4], window[(base + 3) % 4]);
    assert rest[0] == w && rest[1..] == Windows(records)[base + 1..];
    FusedStep(Tabled(f, records), rest, table, p);
    assert records[base] == w.primary;
    r, grown := Item(f, records, state, w, base, p, table);
    if base + 4 < count {
      window[base % 4] := build(base + 4);
    }
    RingTurns(slots, build, count, base, window[..]);
  }

  lemma StreamStarts<R>(f: Formulas<R>, build: nat -> R, count: nat, slots: seq<R>)
    requires |slots| == 4 && forall i: nat | i < 4 :: slots[i] == build(i)
    ensures Streaming(f, build, count, slots, 0, map[], map[], FRESH)
  {
  }

  lemma StreamEnds<R>(f: Formulas<R>, build: nat -> R, count: nat, slots: seq<R>, contents: map<nat, Cached>,
                      table: map<nat, Aggregate>, p: Progress)
    requires count >= 4 && Streaming(f, build, count, slots, count - 3, contents, table, p)
    ensures p.digest == Specified(Tabled(f, Built(build, count)), Built(build, count))
  {
    FusedIsSpecified(Tabled(f, Built(build, count)), Built(build, count));
    assert Windows(Built(build, count))[count - 3..] == [];
  }

  const BATCH: nat := 1_000_000

  /** The inner loop of the stream, one batch: a turn, then the rest of the batch. */
  method StreamBatch<R>(f: Formulas<R>, build: nat -> R, count: nat, window: array<R>, start: nat, end: nat,
                        state: Table<Cached>, p: Progress, ghost table: map<nat, Aggregate>)
      returns (r: Progress, ghost grown: map<nat, Aggregate>)
    requires start <= end && end + 3 <= count
    requires Servable(f, build, count) && Ready(f, build, count, window, start, state, table, p)
    modifies window, state`contents, state.slots
    ensures Ready(f, build, count, window, end, state, grown, r)
    decreases end - start
  {
    r, grown := p, table;
    if start < end {
      r, grown := StreamItem(f, build, count, window, start, state, p, table);
      r, grown := StreamBatch(f, build, count, window, start + 1, end, state, r, grown);
    }
  }

  /** `run_synthetic_stream`: records are built as they are needed, into the slot that
      the oldest one leaves. */
  method RunStream<R>(f: Formulas<R>, hash: nat -> nat, build: nat -> R, count: nat) returns (result: Digest)
    requires Servable(f, build, count)
    ensures result == Specified(Tabled(f, Built(build, count)), Built(build, count))
    ensures OneSchoolPerId(f, Built(build, count)) ==> result == Specified(Narrowed(f), Built(build, count))
  {
    TabledIsNarrowed(f, Built(build, count));
    if count < 4 {
      FusedIsSpecified(Tabled(f, Built(build, count)), Built(build, count));
      return ZERO;
    }
    DatabaseSize();
    var state := new Table<Cached>(hash, DATABASE_CAPACITY, 13);
    var window := new R[4](i requires 0 <= i => build(i));
    StreamStarts(f, build, count, window[..]);
    var p, batchStart := FRESH, 0;
    ghost var table: map<nat, Aggregate>, done: nat := map[], 0;
    while batchStart + 3 < count
      invariant fresh(state) && fresh(state.slots) && Ready(f, build, count, window, done, state, table, p)
      invariant fresh(window) && done == (if batchStart + 3 < count then batchStart else count - 3)
    {
      var batchEnd := batchStart + BATCH;
      if batchEnd > count - 3 {
        batchEnd := count - 3;
      }
      p, table := StreamBatch(f, build, count, window, batchStart, batchEnd, state, p, table);
      batchStart, done := batchStart + BATCH, batchEnd;
    }
    StreamEnds(f, build, count, window[..], state.contents, table, p);
    result := p.digest;
  }

  // ----------------------------------------------------------- sixteen bits

  /** What the 16 bits change in the raw risk of an item: 37 and 19 for every absence
      and late arrival cut off, and nothing exactly when none is. */
  lemma NarrowRiskExact(special: int, e: Enriched, a: Aggregate)
    requires a.active > 0
    ensures RawRisk(special, Narrow(e), a) ==
            RawRisk(special, e, a) - 37 * (e.absent - e.absent % 0x1_0000) - 19 * (e.late - e.late % 0x1_0000)
    ensures RawRisk(special, Narrow(e), a) == RawRisk(special, e, a) <==> e.absent < 0x1_0000 && e.late < 0x1_0000
    ensures RawRisk(special, Narrow(e), a) <= RawRisk(special, e, a)
  {
  }

  /** A window that loses nothing: its absences and late arrivals fit in 16 bits, or
      its risk is cut off at 0 anyway. */
  predicate Harmless<R>(f: Formulas<R>, w: Window<R>, table: map<nat, Aggregate>) {
    var e := Enrich(f, w);
    (e.absent < 0x1_0000 && e.late < 0x1_0000) || RawRisk(f.shown(w.primary), e, GrownFor(f, w, table)) <= 0
  }

  predicate AllHarmless<R>(f: Formulas<R>, ws: seq<Window<R>>, table: map<nat, Aggregate>)
    decreases |ws|
  {
    ws == []
    || (Harmless(f, ws[0], table)
        && AllHarmless(f, ws[1..], table[f.id(ws[0].primary) := GrownFor(f, ws[0], table)]))
  }

  /** Aggregates do not look at what is cut off. */
  lemma NarrowGrown<R>(f: Formulas<R>, w: Window<R>, table: map<nat, Aggregate>)
    ensures GrownFor(Narrowed(f), w, table) == GrownFor(f, w, table)
  {
  }

  /** Of two items that differ in what is cut off only, the snapshots are the same
      exactly when the risks are. */
  lemma ObservedRisk<R>(f: Formulas<R>, id: nat, shown: int, e: Enriched, d: Enriched, a: Aggregate)
    requires a.active > 0
    ensures var x, y := RawRisk(shown, e, a), RawRisk(shown, d, a);
            Observed(f, id, shown, d, a) == Observed(f, id, shown, e, a) <==> x == y || (x <= 0 && y <= 0)
  {
    assert Observed(f, id, shown, e, a).risk == (if RawRisk(shown, e, a) > 0 then RawRisk(shown, e, a) else 0);
    assert Observed(f, id, shown, d, a).risk == (if RawRisk(shown, d, a) > 0 then RawRisk(shown, d, a) else 0);
  }

  lemma NarrowSeen<R>(f: Formulas<R>, w: Window<R>, table: map<nat, Aggregate>)
    ensures Seen(Narrowed(f), w, table) == Seen(f, w, table) <==> Harmless(f, w, table)
  {
    var id, shown, e, a := f.id(w.primary), f.shown(w.primary), Enrich(f, w), GrownFor(f, w, table);
    NarrowGrown(f, w, table);
    NarrowRiskExact(shown, e, a);
    ObservedRisk(f, id, shown, e, Narrow(e), a);
    FinishSame(f, Narrowed(f), id, shown, Narrow(e), a, FRESH);
  }

  lemma SameConsed(x: Snapshot, y: Snapshot, xs: seq<Snapshot>, ys: seq<Snapshot>)
    ensures [x] + xs == [y] + ys <==> x == y && xs == ys
  {
    if [x] + xs == [y] + ys {
      assert x == ([x] + xs)[0] == ([y] + ys)[0] == y;
      assert xs == ([x] + xs)[1..] == ([y] + ys)[1..] == ys;
    }
  }

  /** The 16 bits leave the snapshots of a run as specified exactly when no window
      loses anything. */
  lemma {:induction false} NarrowSnapshotsExact<R>(f: Formulas<R>, ws: seq<Window<R>>, table: map<nat, Aggregate>)
    ensures Snapshots(Narrowed(f), ws, table) == Snapshots(f, ws, table) <==> AllHarmless(f, ws, table)
    decreases |ws|
  {
    if ws != [] {
      var grown := table[f.id(ws[0].primary) := GrownFor(f, ws[0], table)];
      NarrowGrown(f, ws[0], table);
      NarrowSeen(f, ws[0], table);
      SnapshotsStep(Narrowed(f), ws, table);
      SnapshotsStep(f, ws, table);
      NarrowSnapshotsExact(f, ws[1..], grown);
      SameConsed(Seen(Narrowed(f), ws[0], table), Seen(f, ws[0], table), Snapshots(Narrowed(f), ws[1..], grown),
                 Snapshots(f, ws[1..], grown));
    }
  }

  /** Then the table-driven loops meet the specification too. */
  lemma NarrowedIsSpecified<R>(f: Formulas<R>, records: seq<R>)
    requires AllHarmless(f, Windows(records), map[])
    ensures Specified(Narrowed(f), records) == Specified(f, records)
  {
    NarrowSnapshotsExact(f, Windows(records), map[]);
    SameDigests(Narrowed(f), f, ZERO, DropWhile(Cold, Dedup(SignatureOf, None,
      Filter(Relevant, Snapshots(f, Windows(records), map[])))));
  }
}
