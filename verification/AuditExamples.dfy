/** Small audits worked out: six records of one school, where the loaders and the 16-bit
    sums lead away from the specification (benchmarks/edu_complex_data.py). */
module AuditExamples {
  import opened Lists
  import opened Audit
  import opened AuditFiles

  /** A window of which only absences and late arrivals are left. */
  function Missed(absent: nat, late: nat): Enriched {
    Enriched(0, 0, 0, 0, 0, 0, absent, late, seq(TAGS, i => 0))
  }

  /** On these windows there is one school, every window is `e`, and of the mixers only
      the signature matters, which is the number of windows so far. */
  ghost predicate Flat<R>(f: Formulas<R>, ws: seq<Window<R>>, e: Enriched) {
    && (forall i | 0 <= i < |ws| :: f.id(ws[i].primary) == 7 && Enrich(f, ws[i]) == e)
    && (forall i | 0 <= i < |ws| :: f.special(ws[i].primary) == f.shown(ws[i].primary))
    && (forall c, p, s :: f.mixCompliance(c, p, s) == 0)
    && (forall k, t, n, c, r, b, t0, t1 :: f.sign(k, t, n, c, r, b, t0, t1) == n)
  }

  /** The aggregate so far: `n` windows, `funding` in all, nothing else. */
  predicate Bare(a: Aggregate, n: nat, funding: int) {
    a.active == n && a.funding == funding && a.composites == 0 && a.supports == 0 && a.compliance == 0
  }

  lemma FlatGrows<R>(f: Formulas<R>, w: Window<R>, absent: nat, late: nat, table: map<nat, Aggregate>, n: nat,
                     funding: int)
    requires Flat(f, [w], Missed(absent, late)) && Bare(Entry(table, 7), n, funding)
    ensures Bare(GrownFor(f, w, table), n + 1, funding + f.special(w.primary))
  {
    assert [w][0] == w;
  }

  lemma FlatSeen<R>(f: Formulas<R>, w: Window<R>, absent: nat, late: nat, table: map<nat, Aggregate>, n: nat,
                    funding: int)
    requires Flat(f, [w], Missed(absent, late)) && n > 0 && Bare(GrownFor(f, w, table), n, funding)
    requires funding >= 0 && f.special(w.primary) >= 0
    ensures var s := Seen(f, w, table);
            && s.active == n && s.signature == n && s.tier == 2
            && s.risk == 15000 + (funding / n) / 4 + absent * 37 + late * 19 + f.special(w.primary) * 5
  {
    assert [w][0] == w;
  }

  lemma FlatWindow<R>(f: Formulas<R>, ws: seq<Window<R>>, e: Enriched, i: nat)
    requires Flat(f, ws, e) && i < |ws|
    ensures Flat(f, [ws[i]], e)
  {
  }

  /** One of them, `n` having been seen before it. */
  lemma OneWindow<R>(f: Formulas<R>, ws: seq<Window<R>>, i: nat, absent: nat, late: nat, table: map<nat, Aggregate>,
                     n: nat, funding: int)
    requires i < |ws| && Flat(f, ws, Missed(absent, late)) && Bare(Entry(table, 7), n, funding)
    requires funding >= 0 && f.special(ws[i].primary) >= 0
    ensures f.id(ws[i].primary) == 7
    ensures Bare(GrownFor(f, ws[i], table), n + 1, funding + f.special(ws[i].primary))
    ensures var s, v := Seen(f, ws[i], table), f.special(ws[i].primary);
            && s.active == n + 1 && s.signature == n + 1 && s.tier == 2
            && s.risk == 15000 + ((funding + v) / (n + 1)) / 4 + absent * 37 + late * 19 + v * 5
  {
    FlatWindow(f, ws, Missed(absent, late), i);
    FlatGrows(f, ws[i], absent, late, table, n, funding);
    FlatSeen(f, ws[i], absent, late, table, n + 1, funding + f.special(ws[i].primary));
  }

  /** Three windows of one school: the third alone is reduced. */
  lemma ThreeWindows<R>(f: Formulas<R>, records: seq<R>, absent: nat, late: nat, v: int)
    requires |records| == 6 && 0 <= v < 6 && Flat(f, Windows(records), Missed(absent, late))
    requires f.special(records[0]) == 0 && f.special(records[1]) == v && f.special(records[2]) == v
    ensures Specified(f, records).risk == 15000 + absent * 37 + late * 19 + 5 * v
  {
    var ws := Windows(records);
    var t0: map<nat, Aggregate> := map[];
    var t1 := t0[7 := GrownFor(f, ws[0], t0)];
    var t2 := t1[7 := GrownFor(f, ws[1], t1)];
    var t3 := t2[7 := GrownFor(f, ws[2], t2)];
    OneWindow(f, ws, 0, absent, late, t0, 0, 0);
    OneWindow(f, ws, 1, absent, late, t1, 1, 0);
    OneWindow(f, ws, 2, absent, late, t2, 2, v);
    var p := Consume(f, FRESH, Seen(f, ws[0], t0));
    var q := Consume(f, p, Seen(f, ws[1], t1));
    var r := Consume(f, q, Seen(f, ws[2], t2));
    assert p == FRESH && q == Progress(Some(2), false, ZERO);
    FusedStep(f, ws, t0, FRESH);
    FusedStep(f, ws[1..], t1, p);
    FusedStep(f, ws[2..], t2, q);
    assert ws[1..][1..] == ws[2..] && ws[2..][1..] == [];
    assert Fused(f, [], t3, r) == r;
    FusedIsSpecified(f, records);
  }

  // -------------------------------------------------- records that disagree

  /** One school; a record's special index is what is on disk. */
  function Plain(): FileFormulas<int, int> {
    FileFormulas((d: int) => 7, (d: int) => d, (v: int) => v,
                 (a: Student<int, int>, b: Student<int, int>, c: Student<int, int>, d: Student<int, int>) =>
                   Missed(0, 0),
                 (c: nat, p: int, s: int) => 0,
                 (k: nat, t: nat, n: nat, c: nat, r: nat, b: int, t0: nat, t1: nat) => n,
                 (d: nat, k: nat, n: nat, r: nat, b: int, t: nat) => 0)
  }

  /** A file whose records of one id disagree about the special index: the risk of the
      loaded records and that of the records' own fields differ. */
  lemma DisagreeingFileDiffers()
    ensures var disks := [0, 3, 3, 3, 3, 3];
            && !Consistent(Plain(), disks)
            && Specified(InMemory(Plain()), Loaded(Plain(), disks)).risk == 15000
            && Specified(InMemory(Plain()), Own(Plain(), disks)).risk == 15015
  {
    var disks := [0, 3, 3, 3, 3, 3];
    assert Plain().id(disks[0]) == Plain().id(disks[1]);
    ThreeWindows(InMemory(Plain()), Loaded(Plain(), disks), 0, 0, 0);
    ThreeWindows(InMemory(Plain()), Own(Plain(), disks), 0, 0, 3);
  }

  // ------------------------------------------------------ absences cut off

  /** One school, and four neighbouring records together miss `absent` times. */
  function Absences(absent: nat): Formulas<int> {
    Formulas((r: int) => 7, (r: int) => 0, (r: int) => 0, (a: int, b: int, c: int, d: int) => Missed(absent, 0),
             (c: nat, p: int, s: int) => 0,
             (k: nat, t: nat, n: nat, c: nat, r: nat, b: int, t0: nat, t1: nat) => n,
             (d: nat, k: nat, n: nat, r: nat, b: int, t: nat) => 0)
  }

  /** 65536 absences in every window are none in 16 bits: the risk of the table-driven
      loops and the specified one differ. */
  lemma NarrowedDigestDiffers(records: seq<int>)
    requires |records| == 6
    ensures var f := Absences(0x1_0000);
            && !AllHarmless(f, Windows(records), map[])
            && Specified(Narrowed(f), records).risk == 15000
            && Specified(f, records).risk == 2439832
  {
    var f := Absences(0x1_0000);
    ThreeWindows(f, records, 0x1_0000, 0, 0);
    ThreeWindows(Narrowed(f), records, 0, 0, 0);
    if AllHarmless(f, Windows(records), map[]) {
      NarrowedIsSpecified(f, records);
    }
  }
}
