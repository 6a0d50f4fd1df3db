/** What the audit's digest is made of: totals over the kept snapshots, each of them
    taken from totals over the windows of its school (benchmarks/edu_complex_data.py). */
module AuditTotals {
  import opened Bits
  import opened Lists
  import opened Buckets
  import opened Audit

  /** The sum of `g` over a list. */
  function Total<A>(g: A -> int, xs: seq<A>): int {
    if xs == [] then 0 else Total(g, xs[..|xs| - 1]) + g(xs[|xs| - 1])
  }

  lemma TotalSnoc<A>(g: A -> int, xs: seq<A>, x: A)
    ensures Total(g, xs + [x]) == Total(g, xs) + g(x)
  {
    assert (xs + [x])[..|xs|] == xs;
  }

  // ------------------------------------------------------------------ the digest

  /** The snapshots that reach the reduction. */
  function Kept<R>(f: Formulas<R>, records: seq<R>): seq<Snapshot> {
    DropWhile(Cold, Dedup(SignatureOf, None, Filter(Relevant, Snapshots(f, Windows(records), map[]))))
  }

  function ActiveOf(s: Snapshot): int { s.active }

  function RiskOf(s: Snapshot): int { s.risk }

  /** The mixer run over the snapshots, from 0. */
  function Mixed<R>(f: Formulas<R>, ss: seq<Snapshot>): nat {
    if ss == [] then 0
    else
      var s := ss[|ss| - 1];
      f.mixDigest(Mixed(f, ss[..|ss| - 1]), s.school, s.active, s.risk, s.funding, s.tier)
  }

  /** `d` is the digest of these snapshots: their number, their sums, their highest
      tier and their last school, each 0 when there are none. */
  predicate Sums<R>(f: Formulas<R>, ss: seq<Snapshot>, d: Digest) {
    && d.emitted == |ss|
    && d.enrollment == Total(ActiveOf, ss)
    && d.risk == Total(RiskOf, ss)
    && (forall i | 0 <= i < |ss| :: ss[i].tier <= d.maxTier)
    && (d.maxTier == 0 || exists i | 0 <= i < |ss| :: ss[i].tier == d.maxTier)
    && d.lastSchool == (if ss == [] then 0 else ss[|ss| - 1].school)
    && d.digest == Mixed(f, ss)
  }

  lemma SumsMore<R>(f: Formulas<R>, ss: seq<Snapshot>, d: Digest, s: Snapshot)
    requires Sums(f, ss, d)
    ensures Sums(f, ss + [s], Accumulate(f, d, s))
  {
    TotalSnoc(ActiveOf, ss, s);
    TotalSnoc(RiskOf, ss, s);
    assert (ss + [s])[..|ss|] == ss && (ss + [s])[|ss|] == s;
    if d.maxTier >= s.tier && d.maxTier != 0 {
      var i :| 0 <= i < |ss| && ss[i].tier == d.maxTier;
      assert (ss + [s])[i].tier == d.maxTier;
    }
  }

  lemma {:induction false} FoldSums<R>(f: Formulas<R>, ss: seq<Snapshot>)
    ensures Sums(f, ss, Fold(Accumulator(f), Digest(0, 0, 0, 0, 0, 0), ss))
  {
    if ss != [] {
      var n := |ss| - 1;
      FoldSums(f, ss[..n]);
      FoldSnoc(Accumulator(f), Digest(0, 0, 0, 0, 0, 0), ss[..n], ss[n]);
      SumsMore(f, ss[..n], Fold(Accumulator(f), Digest(0, 0, 0, 0, 0, 0), ss[..n]), ss[n]);
      assert ss[..n] + [ss[n]] == ss;
    }
  }

  /** The digest sums up the kept snapshots; fewer than four records give none. */
  lemma DigestSums<R>(f: Formulas<R>, records: seq<R>)
    ensures Sums(f, Kept(f, records), Specified(f, records))
    ensures |records| < 4 ==> Kept(f, records) == [] && Specified(f, records) == Digest(0, 0, 0, 0, 0, 0)
  {
    FoldSums(f, Kept(f, records));
  }

  /** What is kept: at least two windows and a tier or more than 100 of funding, and
      from the start on at least three windows. */
  lemma KeptMeans(s: Snapshot)
    ensures Relevant(s) <==> !(s.active < 2 || (s.tier == 0 && s.funding <= 100))
    ensures Cold(s) <==> s.active < 3
  {
  }

  // -------------------------------------------------------------- the aggregates

  /** What a window adds to its school's aggregate. */
  function Scholarships<R>(f: Formulas<R>): Window<R> -> int {
    (w: Window<R>) => if Enrich(f, w).scholarship >= 1 then 1 else 0
  }

  function Supports<R>(f: Formulas<R>): Window<R> -> int {
    (w: Window<R>) => if Enrich(f, w).support < 2 then 0 else 1
  }

  function Composites<R>(f: Formulas<R>): Window<R> -> int {
    (w: Window<R>) => Enrich(f, w).composite
  }

  function Rates<R>(f: Formulas<R>): Window<R> -> int {
    (w: Window<R>) => Enrich(f, w).rate
  }

  function Fundings<R>(f: Formulas<R>): Window<R> -> int {
    (w: Window<R>) => f.special(w.primary) + Enrich(f, w).balance - Enrich(f, w).scholarship / 2
  }

  /** How many of the tags fall into a bucket. */
  function TagsIn(tags: seq<nat>, bucket: nat): nat {
    if tags == [] then 0
    else TagsIn(tags[..|tags| - 1], bucket) + if tags[|tags| - 1] % 32 == bucket then 1 else 0
  }

  function InBucket<R>(f: Formulas<R>, bucket: nat): Window<R> -> int {
    (w: Window<R>) => TagsIn(Enrich(f, w).tags, bucket)
  }

  function Compliance<R>(f: Formulas<R>, own: seq<Window<R>>): nat {
    if own == [] then 0
    else
      var w := own[|own| - 1];
      f.mixCompliance(Compliance(f, own[..|own| - 1]), Enrich(f, w).profile, f.special(w.primary))
  }

  /** The aggregate of a school with these windows. */
  predicate Totals<R>(f: Formulas<R>, own: seq<Window<R>>, a: Aggregate) {
    && a.active == |own|
    && a.scholarships == Total(Scholarships(f), own)
    && a.supports == Total(Supports(f), own)
    && a.composites == Total(Composites(f), own)
    && a.rates == Total(Rates(f), own)
    && a.funding == Total(Fundings(f), own)
    && a.compliance == Compliance(f, own)
    && |a.hist| == 32 && forall b | 0 <= b < 32 :: a.hist[b] == Total(InBucket(f, b), own)
  }

  lemma {:induction false} HitAllCounts(h: Histogram, tags: seq<nat>, b: nat)
    requires b < 32
    ensures HitAll(h, tags)[b] == h[b] + TagsIn(tags, b)
    decreases |tags|
  {
    if tags != [] {
      var n := |tags| - 1;
      HitAllCounts(h, tags[..n], b);
      HitsSoFar(h, tags, n);
      assert tags[..n + 1] == tags;
    }
  }

  lemma TotalsStart<R>(f: Formulas<R>)
    ensures Totals(f, [], Unseen())
  {
  }

  lemma TotalsMore<R>(f: Formulas<R>, own: seq<Window<R>>, a: Aggregate, w: Window<R>)
    requires Totals(f, own, a)
    ensures Totals(f, own + [w], Grown(f, f.special(w.primary), Enrich(f, w), a))
  {
    TotalSnoc(Scholarships(f), own, w);
    TotalSnoc(Supports(f), own, w);
    TotalSnoc(Composites(f), own, w);
    TotalSnoc(Rates(f), own, w);
    TotalSnoc(Fundings(f), own, w);
    assert (own + [w])[..|own|] == own;
    forall b | 0 <= b < 32
      ensures HitAll(a.hist, Enrich(f, w).tags)[b] == Total(InBucket(f, b), own + [w])
    {
      HitAllCounts(a.hist, Enrich(f, w).tags, b);
      TotalSnoc(InBucket(f, b), own, w);
    }
  }

  /** The windows whose first record is of school `id`. */
  function OwnWindows<R>(f: Formulas<R>, id: nat, ws: seq<Window<R>>): seq<Window<R>> {
    if ws == [] then []
    else
      var n := |ws| - 1;
      OwnWindows(f, id, ws[..n]) + if f.id(ws[n].primary) == id then [ws[n]] else []
  }

  /** The table after some windows. */
  function TableAfter<R>(f: Formulas<R>, ws: seq<Window<R>>): map<nat, Aggregate> {
    if ws == [] then map[]
    else
      var n := |ws| - 1;
      var table := TableAfter(f, ws[..n]);
      table[f.id(ws[n].primary) := GrownFor(f, ws[n], table)]
  }

  lemma OwnMore<R>(f: Formulas<R>, id: nat, ws: seq<Window<R>>, w: Window<R>)
    ensures OwnWindows(f, id, ws + [w]) ==
            if f.id(w.primary) == id then OwnWindows(f, id, ws) + [w] else OwnWindows(f, id, ws)
  {
    assert (ws + [w])[..|ws|] == ws;
  }

  lemma TableMore<R>(f: Formulas<R>, ws: seq<Window<R>>, w: Window<R>)
    ensures var table := TableAfter(f, ws);
            TableAfter(f, ws + [w]) == table[f.id(w.primary) := GrownFor(f, w, table)]
  {
    assert (ws + [w])[..|ws|] == ws;
  }

  lemma EntryMore<R>(f: Formulas<R>, ws: seq<Window<R>>, w: Window<R>, id: nat)
    ensures var a := Entry(TableAfter(f, ws), id);
            Entry(TableAfter(f, ws + [w]), id) ==
            if f.id(w.primary) == id then Grown(f, f.special(w.primary), Enrich(f, w), a) else a
  {
    TableMore(f, ws, w);
  }

  lemma {:induction false} TableTotals<R>(f: Formulas<R>, ws: seq<Window<R>>, id: nat)
    ensures Totals(f, OwnWindows(f, id, ws), Entry(TableAfter(f, ws), id))
  {
    if ws == [] {
      TotalsStart(f);
    } else {
      var n := |ws| - 1;
      TableTotals(f, ws[..n], id);
      assert ws[..n] + [ws[n]] == ws;
      OwnMore(f, id, ws[..n], ws[n]);
      EntryMore(f, ws[..n], ws[n], id);
      TotalsMore(f, OwnWindows(f, id, ws[..n]), Entry(TableAfter(f, ws[..n]), id), ws[n]);
    }
  }

  function SeenAt<R>(f: Formulas<R>, ws: seq<Window<R>>, j: nat): Snapshot
    requires j < |ws|
  {
    Seen(f, ws[j], TableAfter(f, ws[..j]))
  }

  /** The snapshots of the windows from `k` on, each in terms of the windows before it. */
  predicate Sees<R>(f: Formulas<R>, ws: seq<Window<R>>, k: nat, ss: seq<Snapshot>) {
    k + |ss| == |ws| && forall j | k <= j < |ws| :: SeenAt(f, ws, j) == ss[j - k]
  }

  lemma SeesCons<R>(f: Formulas<R>, ws: seq<Window<R>>, k: nat, rest: seq<Snapshot>)
    requires k < |ws| && Sees(f, ws, k + 1, rest)
    ensures Sees(f, ws, k, [SeenAt(f, ws, k)] + rest)
  {
    forall j | k <= j < |ws|
      ensures SeenAt(f, ws, j) == ([SeenAt(f, ws, k)] + rest)[j - k]
    {
      if j > k {
        assert SeenAt(f, ws, j) == rest[j - k - 1];
      }
    }
  }

  lemma SnapshotsFrom<R>(f: Formulas<R>, ws: seq<Window<R>>, k: nat)
    requires k < |ws|
    ensures Snapshots(f, ws[k..], TableAfter(f, ws[..k])) ==
            [SeenAt(f, ws, k)] + Snapshots(f, ws[k + 1..], TableAfter(f, ws[..k + 1]))
  {
    assert ws[k..][0] == ws[k] && ws[k..][1..] == ws[k + 1..] && ws[..k + 1] == ws[..k] + [ws[k]];
    SnapshotsStep(f, ws[k..], TableAfter(f, ws[..k]));
    TableMore(f, ws[..k], ws[k]);
  }

  lemma {:induction false} SnapshotsSee<R>(f: Formulas<R>, ws: seq<Window<R>>, k: nat)
    requires k <= |ws|
    ensures Sees(f, ws, k, Snapshots(f, ws[k..], TableAfter(f, ws[..k])))
    decreases |ws| - k
  {
    if k < |ws| {
      SnapshotsFrom(f, ws, k);
      SnapshotsSee(f, ws, k + 1);
      SeesCons(f, ws, k, Snapshots(f, ws[k + 1..], TableAfter(f, ws[..k + 1])));
    }
  }

  lemma SnapshotAt<R>(f: Formulas<R>, ws: seq<Window<R>>, i: nat)
    requires i < |ws|
    ensures |Snapshots(f, ws, map[])| == |ws| && Snapshots(f, ws, map[])[i] == SeenAt(f, ws, i)
  {
    assert ws[0..] == ws;
    SnapshotsSee(f, ws, 0);
  }

  /** Snapshot `i` is taken of the totals over its school's windows up to the `i`-th. */
  lemma SnapshotTotals<R>(f: Formulas<R>, records: seq<R>, i: nat) returns (a: Aggregate)
    requires i < |Windows(records)|
    ensures var ws := Windows(records);
            var id := f.id(records[i]);
            && i < |Snapshots(f, ws, map[])|
            && Totals(f, OwnWindows(f, id, ws[..i + 1]), a) && a.active > 0
            && Snapshots(f, ws, map[])[i] == Observed(f, id, f.shown(records[i]), Enrich(f, ws[i]), a)
  {
    var ws := Windows(records);
    assert ws[..i + 1] == ws[..i] + [ws[i]];
    SnapshotAt(f, ws, i);
    a := GrownFor(f, ws[i], TableAfter(f, ws[..i]));
    EntryMore(f, ws[..i], ws[i], f.id(records[i]));
    TableTotals(f, ws[..i + 1], f.id(records[i]));
  }

  // --------------------------------------------------------------- the snapshots

  /** `q` is `n` divided by `d`, rounded down. */
  predicate IsFloor(n: int, d: nat, q: int) {
    d * q <= n < d * q + d
  }

  lemma FloorIs(n: int, d: nat, q: int)
    requires d > 0
    ensures IsFloor(n, d, q) <==> q == n / d
  {
    if IsFloor(n, d, q) {
      DivUnique(n, d, q, n - d * q);
    } else {
      assert d * (n / d) + n % d == n;
    }
  }

  /** A snapshot of an aggregate: its averages are rounded down, its risk is not below
      0, its tier goes by thresholds, and its signature mixes them with the two busiest
      buckets. */
  lemma ObservedMeans<R>(f: Formulas<R>, id: nat, special: int, e: Enriched, a: Aggregate, composite: nat, rate: nat,
                         top0: nat, top1: nat)
    requires a.active > 0 && IsFloor(a.composites, a.active, composite) && IsFloor(a.rates, a.active, rate)
    requires Best(a.hist, [], top0) && Best(a.hist, [top0], top1)
    ensures var s := Observed(f, id, special, e, a);
            && s.school == id && s.active == a.active && IsFloor(a.funding, a.active, s.funding)
            && (if RawRisk(special, e, a) < 0 then s.risk == 0 else s.risk == RawRisk(special, e, a))
            && (s.tier == 2 <==> s.risk >= 9000) && (s.tier == 1 <==> 7000 <= s.risk < 9000)
            && (s.tier == 0 <==> s.risk < 7000)
            && s.signature == f.sign(id, s.tier, a.active, composite, rate, s.funding, top0, top1)
  {
    FloorIs(a.composites, a.active, composite);
    FloorIs(a.rates, a.active, rate);
    FloorIs(a.funding, a.active, a.funding / a.active);
    BestUnique(a.hist, [], top0, TopTwo(a.hist).0);
    BestUnique(a.hist, [top0], top1, TopTwo(a.hist).1);
  }

  lemma OneMoreEach(n: int, d: nat, k: int)
    requires d > 0
    ensures (n + d * k) / d == n / d + k
  {
    FloorIs(n, d, n / d);
    assert d * (n / d + k) == d * (n / d) + d * k;
    FloorIs(n + d * k, d, n / d + k);
  }

  /** What the raw risk grows by: 37 for an absence, 19 for a late arrival, 5 for each
      unit of the special index, 13 for a supported window, 1 for every 4 of average
      funding, and 2 less for each point of the average composite; of the compliance
      mix only 7 bits count. */
  lemma RiskEffects(special: int, e: Enriched, a: Aggregate, k: nat)
    requires a.active > 0
    ensures RawRisk(special, e.(absent := e.absent + k), a) == RawRisk(special, e, a) + 37 * k
    ensures RawRisk(special, e.(late := e.late + k), a) == RawRisk(special, e, a) + 19 * k
    ensures RawRisk(special + k, e, a) == RawRisk(special, e, a) + 5 * k
    ensures RawRisk(special, e, a.(supports := a.supports + k)) == RawRisk(special, e, a) + 13 * k
    ensures RawRisk(special, e, a.(composites := a.composites + a.active * k)) == RawRisk(special, e, a) - 2 * k
    ensures RawRisk(special, e, a.(funding := a.funding + a.active * (4 * k))) == RawRisk(special, e, a) + k
    ensures RawRisk(special, e, a.(compliance := a.compliance + 128 * k)) == RawRisk(special, e, a)
  {
    OneMoreEach(a.composites, a.active, k);
    OneMoreEach(a.funding, a.active, 4 * k);
  }

  /** And what it is where nothing but the funding and the compliance counts. */
  lemma RiskBase(e: Enriched, a: Aggregate, funding: int)
    requires e.absent == 0 && e.late == 0 && a.supports == 0 && a.composites == 0 && a.compliance < 128
    requires a.active > 0 && 0 <= funding < 4 && IsFloor(a.funding, a.active, funding)
    ensures RawRisk(0, e, a) == 15000 + a.compliance
  {
    FloorIs(a.funding, a.active, funding);
    assert 0 / a.active == 0;
  }
}
