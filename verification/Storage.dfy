/** Storage layout: the symbols a pipeline asks storage for and the two passes that
    size and bind it (core/planner/astgen.c), and the one-block layout of the dataset
    loader (benchmarks/edu_complex_benchmark_manual.c). */
module Storage {
  import opened Bits

  // ------------------------------------------------------------------ symbols

  const CAPACITY: nat := 256

  /** A state slot, by its initial value, and an operator, by its in-place storage:
      an empty name means that it asks for none. */
  datatype Pipeline = Pipeline(slotSymbols: seq<string>, opSymbols: seq<string>)

  /** The names in order of first occurrence, without empty ones and repetitions. */
  function Uniques(names: seq<string>): seq<string> {
    if names == [] then []
    else
      var n := |names| - 1;
      var before := Uniques(names[..n]);
      if names[n] == "" || names[n] in before then before else before + [names[n]]
  }

  lemma {:induction false} UniquesMeaning(names: seq<string>)
    ensures forall x :: x in Uniques(names) <==> x in names && x != ""
    ensures forall i, j | 0 <= i < j < |Uniques(names)| :: Uniques(names)[i] != Uniques(names)[j]
    ensures |Uniques(names)| <= |names|
  {
    if names != [] {
      var n := |names| - 1;
      assert names == names[..n] + [names[n]];
      UniquesMeaning(names[..n]);
    }
  }

  lemma UniquesSnoc(names: seq<string>, x: string)
    ensures Uniques(names + [x]) ==
            (if x == "" || x in Uniques(names) then Uniques(names) else Uniques(names) + [x])
  {
  }

  lemma {:induction false} UniquesGrow(names: seq<string>, more: seq<string>)
    ensures |Uniques(names)| <= |Uniques(names + more)|
    decreases |more|
  {
    if more == [] {
      assert names + more == names;
    } else {
      var n := |more| - 1;
      assert names + more == (names + more[..n]) + [more[n]];
      UniquesGrow(names, more[..n]);
      UniquesSnoc(names + more[..n], more[n]);
    }
  }

  /** `symbol_list_append_unique`. */
  method AppendUnique(list: seq<string>, name: string) returns (ok: bool, r: seq<string>)
    ensures ok <==> name == "" || name in list || |list| < 256
    ensures r == if name == "" || name in list || !ok then list else list + [name]
  {
    if name == "" {
      return true, list;
    }
    for i := 0 to |list|
      invariant name !in list[..i]
    {
      if list[i] == name {
        return true, list;
      }
    }
    assert list[..|list|] == list;
    if |list| >= CAPACITY {
      return false, list;
    }
    return true, list + [name];
  }

  lemma AppendStep(before: seq<string>, names: seq<string>, i: nat)
    requires i < |names|
    ensures var done, x := Uniques(before + names[..i]), names[i];
            && Uniques(before + names[..i + 1]) == (if x == "" || x in done then done else done + [x])
            && |Uniques(before + names[..i + 1])| <= |Uniques(before + names)|
  {
    assert before + names[..i + 1] == (before + names[..i]) + [names[i]];
    UniquesSnoc(before + names[..i], names[i]);
    assert before + names == (before + names[..i + 1]) + names[i + 1..];
    UniquesGrow(before + names[..i + 1], names[i + 1..]);
  }

  /** One of the loops of `collect_storage_symbols`, after the names of `before`. */
  method AppendEach(list: seq<string>, names: seq<string>, ghost before: seq<string>)
      returns (ok: bool, symbols: seq<string>)
    requires list == Uniques(before) && |list| <= CAPACITY
    ensures ok <==> |Uniques(before + names)| <= CAPACITY
    ensures ok ==> symbols == Uniques(before + names)
  {
    ok, symbols := true, list;
    assert before + [] == before;
    for i := 0 to |names|
      invariant ok && symbols == Uniques(before + names[..i]) && |symbols| <= CAPACITY
    {
      AppendStep(before, names, i);
      ok, symbols := AppendUnique(symbols, names[i]);
      if !ok {
        return;
      }
    }
    assert names[..|names|] == names;
  }

  /** `collect_storage_symbols`: fails exactly when there are too many. */
  method CollectStorageSymbols(p: Pipeline) returns (ok: bool, symbols: seq<string>)
    ensures ok <==> |Uniques(p.slotSymbols + p.opSymbols)| <= 256
    ensures ok ==> symbols == Uniques(p.slotSymbols + p.opSymbols)
  {
    assert [] + p.slotSymbols == p.slotSymbols;
    ok, symbols := AppendEach([], p.slotSymbols, []);
    if !ok {
      UniquesGrow(p.slotSymbols, p.opSymbols);
      return;
    }
    ok, symbols := AppendEach(symbols, p.opSymbols, p.slotSymbols);
  }

  // ------------------------------------------------------------------- layout

  /** What `resolve` answers for a symbol. An alignment of 0 counts as 1. */
  datatype Request = Request(bytes: nat, alignment: nat)

  /** The first multiple of the alignment from `value` on. */
  function AlignUp(value: nat, alignment: nat): nat {
    if alignment > 0 then (value + (alignment - 1)) / alignment * alignment else value
  }

  lemma AlignUpMeaning(value: nat, alignment: nat)
    requires alignment > 0
    ensures AlignUp(value, alignment) % alignment == 0
    ensures value <= AlignUp(value, alignment) < value + alignment
  {
    var v, n := value + (alignment - 1), alignment;
    assert v == n * (v / n) + v % n;
    assert v / n * n == n * (v / n) + 0;
    ModUnique(v / n * n, n, v / n, 0);
  }

  lemma MaskByPower(v: nat, n: nat)
    requires PowerOfTwo(n)
    ensures And(v, n - 1) == v % n
  {
    var k: nat :| n == Pow2(k);
    MaskIsMod(v, k);
  }

  lemma DivisionRounds(v: nat, n: nat)
    requires n > 0
    ensures v - v % n == v / n * n
  {
  }

  lemma MaskClears(v: nat, n: nat)
    requires PowerOfTwo(n)
    ensures v - And(v, n - 1) == v / n * n
  {
    MaskByPower(v, n);
    DivisionRounds(v, n);
  }

  /** `rx_align_up_size` and `align_up_size`: `(value + mask) & ~mask`. */
  method AlignUpSize(value: nat, alignment: nat) returns (r: nat)
    requires alignment == 0 || PowerOfTwo(alignment)
    ensures r == AlignUp(value, alignment)
  {
    if alignment == 0 {
      return value;
    }
    var mask := alignment - 1;
    var v := value + mask;
    r := v - And(v, mask);
    MaskClears(v, alignment);
  }

  ghost predicate WellFormed(reqs: seq<Request>) {
    forall i | 0 <= i < |reqs| :: reqs[i].alignment == 0 || PowerOfTwo(reqs[i].alignment)
  }

  function Alignment(r: Request): (a: nat)
    ensures a > 0
  {
    if r.alignment > 0 then r.alignment else 1
  }

  /** Where the storage of the requests ends. */
  function End(reqs: seq<Request>): nat {
    if reqs == [] then 0
    else
      var n := |reqs| - 1;
      AlignUp(End(reqs[..n]), Alignment(reqs[n])) + reqs[n].bytes
  }

  /** Where the region of request `i` starts. */
  function Start(reqs: seq<Request>, i: nat): nat
    requires i < |reqs|
  {
    AlignUp(End(reqs[..i]), Alignment(reqs[i]))
  }

  lemma AlignmentIsPower(r: Request)
    requires r.alignment == 0 || PowerOfTwo(r.alignment)
    ensures PowerOfTwo(Alignment(r))
  {
    assert 1 == Pow2(0);
  }

  lemma EndSnoc(reqs: seq<Request>, i: nat)
    requires i < |reqs|
    ensures End(reqs[..i + 1]) == Start(reqs, i) + reqs[i].bytes
  {
    assert reqs[..i + 1][..i] == reqs[..i];
  }

  lemma RegionAligned(reqs: seq<Request>, i: nat)
    requires i < |reqs|
    ensures Start(reqs, i) % Alignment(reqs[i]) == 0
  {
    AlignUpMeaning(End(reqs[..i]), Alignment(reqs[i]));
  }

  lemma StartsAfter(reqs: seq<Request>, i: nat)
    requires i < |reqs|
    ensures End(reqs[..i]) <= Start(reqs, i) < End(reqs[..i]) + Alignment(reqs[i])
  {
  }

  /** A region ends within the total, and within every later prefix of it. */
  lemma {:induction false} RegionPlaced(reqs: seq<Request>, i: nat, k: nat)
    requires i < k <= |reqs|
    ensures Start(reqs, i) + reqs[i].bytes <= End(reqs[..k])
    decreases k
  {
    if k == i + 1 {
      EndSnoc(reqs, i);
    } else {
      RegionPlaced(reqs, i, k - 1);
      StartsAfter(reqs, k - 1);
      EndSnoc(reqs, k - 1);
    }
  }

  /** The regions follow one another without overlap and fill the total exactly: the
      last one ends where the sizing pass ends. */
  lemma RegionsFit(reqs: seq<Request>, i: nat, j: nat)
    requires i < j < |reqs|
    ensures Start(reqs, i) + reqs[i].bytes <= Start(reqs, j)
    ensures Start(reqs, |reqs| - 1) + reqs[|reqs| - 1].bytes == End(reqs)
  {
    RegionPlaced(reqs, i, j);
    StartsAfter(reqs, j);
    EndSnoc(reqs, |reqs| - 1);
    assert reqs[..|reqs|] == reqs;
  }

  function Requests(symbols: seq<string>, resolve: string -> Request): (r: seq<Request>)
    ensures |r| == |symbols| && forall i | 0 <= i < |symbols| :: r[i] == resolve(symbols[i])
  {
    seq(|symbols|, i requires 0 <= i < |symbols| => resolve(symbols[i]))
  }

  /** `rx_storage_bytes_*`. */
  method StorageBytes(symbols: seq<string>, resolve: string -> Request) returns (total: nat)
    requires WellFormed(Requests(symbols, resolve))
    ensures total == End(Requests(symbols, resolve))
  {
    ghost var reqs := Requests(symbols, resolve);
    total := 0;
    for i := 0 to |symbols|
      invariant total == End(reqs[..i])
    {
      EndSnoc(reqs, i);
      var r := resolve(symbols[i]);
      AlignmentIsPower(r);
      total := AlignUpSize(total, Alignment(r));
      total := total + r.bytes;
    }
    assert reqs[..|reqs|] == reqs;
  }

  datatype Region = Region(symbol: string, at: nat, bytes: nat)

  /** Inside the block of `total` bytes at `base`, disjoint and in order; each one
      aligned when the base is. */
  ghost predicate Laid(regions: seq<Region>, resolve: string -> Request, base: nat, total: nat) {
    && (forall i | 0 <= i < |regions| ::
          var a := Alignment(resolve(regions[i].symbol));
          base <= regions[i].at && regions[i].at + regions[i].bytes <= base + total
          && (base % a == 0 ==> regions[i].at % a == 0))
    && (forall i, j | 0 <= i < j < |regions| :: regions[i].at + regions[i].bytes <= regions[j].at)
  }

  function Place(symbols: seq<string>, reqs: seq<Request>, base: nat, i: nat): Region
    requires i < |symbols| == |reqs|
  {
    Region(symbols[i], base + Start(reqs, i), reqs[i].bytes)
  }

  function Placed(symbols: seq<string>, reqs: seq<Request>, base: nat, k: nat): (r: seq<Region>)
    requires k <= |symbols| == |reqs|
    ensures |r| == k && forall j | 0 <= j < k :: r[j] == Place(symbols, reqs, base, j)
  {
    if k == 0 then [] else Placed(symbols, reqs, base, k - 1) + [Place(symbols, reqs, base, k - 1)]
  }

  lemma PlaceStep(symbols: seq<string>, reqs: seq<Request>, base: nat, i: nat, at: nat)
    requires i < |symbols| == |reqs| && at == AlignUp(End(reqs[..i]), Alignment(reqs[i]))
    ensures Placed(symbols, reqs, base, i + 1) ==
            Placed(symbols, reqs, base, i) + [Region(symbols[i], base + at, reqs[i].bytes)]
    ensures End(reqs[..i + 1]) == at + reqs[i].bytes
  {
    EndSnoc(reqs, i);
  }

  /** The loop of `rx_bind_storage_*`. */
  method BindEach(symbols: seq<string>, resolve: string -> Request, base: nat) returns (regions: seq<Region>)
    requires WellFormed(Requests(symbols, resolve))
    ensures regions == Placed(symbols, Requests(symbols, resolve), base, |symbols|)
  {
    ghost var reqs := Requests(symbols, resolve);
    var cursor := 0;
    regions := [];
    for i := 0 to |symbols|
      invariant cursor == End(reqs[..i]) && regions == Placed(symbols, reqs, base, i)
    {
      var r := resolve(symbols[i]);
      AlignmentIsPower(r);
      cursor := AlignUpSize(cursor, Alignment(r));
      PlaceStep(symbols, reqs, base, i, cursor);
      regions := regions + [Region(symbols[i], base + cursor, r.bytes)];
      cursor := cursor + r.bytes;
    }
  }

  lemma PlaceInside(symbols: seq<string>, reqs: seq<Request>, base: nat, i: nat)
    requires i < |symbols| == |reqs|
    ensures var r := Place(symbols, reqs, base, i); base <= r.at && r.at + r.bytes <= base + End(reqs)
  {
    assert reqs[..|reqs|] == reqs;
    RegionPlaced(reqs, i, |reqs|);
  }

  lemma SumAligned(a: nat, b: nat, n: nat)
    requires n > 0 && a % n == 0 && b % n == 0
    ensures (a + b) % n == 0
  {
    assert a == n * (a / n) && b == n * (b / n);
    assert a + b == n * (a / n + b / n) + 0;
    ModUnique(a + b, n, a / n + b / n, 0);
  }

  lemma PlaceAligned(symbols: seq<string>, reqs: seq<Request>, base: nat, i: nat, a: nat)
    requires i < |symbols| == |reqs| && a == Alignment(reqs[i])
    requires base % a == 0
    ensures Place(symbols, reqs, base, i).at % a == 0
  {
    RegionAligned(reqs, i);
    SumAligned(base, Start(reqs, i), a);
  }

  lemma BoundLaid(regions: seq<Region>, symbols: seq<string>, resolve: string -> Request, base: nat)
    requires regions == Placed(symbols, Requests(symbols, resolve), base, |symbols|)
    ensures Laid(regions, resolve, base, End(Requests(symbols, resolve)))
  {
    var reqs := Requests(symbols, resolve);
    forall i | 0 <= i < |regions|
      ensures var a := Alignment(resolve(regions[i].symbol));
              base <= regions[i].at && regions[i].at + regions[i].bytes <= base + End(reqs)
              && (base % a == 0 ==> regions[i].at % a == 0)
    {
      PlaceInside(symbols, reqs, base, i);
      if base % Alignment(reqs[i]) == 0 {
        PlaceAligned(symbols, reqs, base, i, Alignment(reqs[i]));
      }
    }
    forall i, j | 0 <= i < j < |regions|
      ensures regions[i].at + regions[i].bytes <= regions[j].at
    {
      RegionsFit(reqs, i, j);
    }
  }

  /** `rx_bind_storage_*`: the regions it binds are laid out within what the sizing
      pass asked for, one region a symbol. */
  method BindStorage(symbols: seq<string>, resolve: string -> Request, base: nat) returns (regions: seq<Region>)
    requires WellFormed(Requests(symbols, resolve))
    ensures |regions| == |symbols|
    ensures forall i | 0 <= i < |symbols| ::
              regions[i].symbol == symbols[i] && regions[i].bytes == resolve(symbols[i]).bytes
    ensures Laid(regions, resolve, base, End(Requests(symbols, resolve)))
  {
    regions := BindEach(symbols, resolve, base);
    BoundLaid(regions, symbols, resolve, base);
  }

  /** A pipeline's symbols, each named once, get a region each, laid out in the bytes
      asked for; unless there are more symbols than the list holds. */
  method PlanStorage(p: Pipeline, resolve: string -> Request, base: nat)
      returns (ok: bool, total: nat, regions: seq<Region>)
    requires forall x: string :: resolve(x).alignment == 0 || PowerOfTwo(resolve(x).alignment)
    ensures ok <==> |Uniques(p.slotSymbols + p.opSymbols)| <= 256
    ensures ok ==> Laid(regions, resolve, base, total)
    ensures ok ==> forall x | x in p.slotSymbols + p.opSymbols && x != "" ::
              exists i :: 0 <= i < |regions| && regions[i].symbol == x && regions[i].bytes == resolve(x).bytes
    ensures ok ==> forall i, j | 0 <= i < j < |regions| :: regions[i].symbol != regions[j].symbol
  {
    var symbols;
    ok, symbols := CollectStorageSymbols(p);
    total, regions := 0, [];
    if ok {
      UniquesMeaning(p.slotSymbols + p.opSymbols);
      total := StorageBytes(symbols, resolve);
      regions := BindStorage(symbols, resolve, base);
      forall x | x in p.slotSymbols + p.opSymbols && x != ""
        ensures exists i :: 0 <= i < |regions| && regions[i].symbol == x && regions[i].bytes == resolve(x).bytes
      {
        var i :| 0 <= i < |symbols| && symbols[i] == x;
        assert regions[i].symbol == x;
      }
    }
  }

  // --------------------------------------------------------- the dataset block

  /** Sizes and alignments of the structures in the dataset's block. */
  datatype Shapes = Shapes(dataset: nat, list: Request, pointer: Request, record: Request, school: Request)

  /** The six parts of the block, for `count` records and `capacity` table slots. */
  function Parts(s: Shapes, count: nat, capacity: nat): seq<Request> {
    [Request(s.dataset, 1),
     s.list,
     Request((if count > 0 then count else 2) * s.pointer.bytes, s.pointer.alignment),
     Request((if count > 0 then count else 1) * s.record.bytes, s.record.alignment),
     Request(capacity * s.pointer.bytes, s.pointer.alignment),
     Request((if count > 0 then count else 1) * s.school.bytes, s.school.alignment)]
  }

  ghost predicate Sound(s: Shapes) {
    PowerOfTwo(s.list.alignment) && PowerOfTwo(s.pointer.alignment) &&
    PowerOfTwo(s.record.alignment) && PowerOfTwo(s.school.alignment)
  }

  /** One part of the block: align, then add its bytes. */
  lemma PartStep(s: Shapes, count: nat, capacity: nat, i: nat)
    requires Sound(s) && i < 6
    ensures var parts := Parts(s, count, capacity);
            End(parts[..i + 1]) == Start(parts, i) + parts[i].bytes
            && (i > 0 ==> Start(parts, i) == AlignUp(End(parts[..i]), parts[i].alignment))
            && (i == 0 ==> Start(parts, i) == 0)
  {
    EndSnoc(Parts(s, count, capacity), i);
  }

  /** The total size, as `load_manual_dataset` adds it up. */
  method DatasetSize(s: Shapes, count: nat, capacity: nat) returns (total: nat)
    requires Sound(s)
    ensures total == End(Parts(s, count, capacity))
  {
    ghost var parts := Parts(s, count, capacity);
    PartStep(s, count, capacity, 0);
    PartStep(s, count, capacity, 1);
    PartStep(s, count, capacity, 2);
    total := AlignUpSize(s.dataset, s.list.alignment);
    total := AlignUpSize(total + s.list.bytes, s.pointer.alignment);
    total := total + (if count > 0 then count else 2) * s.pointer.bytes;
    assert total == End(parts[..3]);
    PartStep(s, count, capacity, 3);
    total := AlignUpSize(total, s.record.alignment);
    total := total + (if count > 0 then count else 1) * s.record.bytes;
    PartStep(s, count, capacity, 4);
    total := AlignUpSize(total, s.pointer.alignment);
    total := total + capacity * s.pointer.bytes;
    PartStep(s, count, capacity, 5);
    total := AlignUpSize(total, s.school.alignment);
    total := total + (if count > 0 then count else 1) * s.school.bytes;
    assert parts[..6] == parts;
  }

  /** The offsets its second pass hands out, with a cursor of its own. */
  method DatasetOffsets(s: Shapes, count: nat, capacity: nat)
      returns (list: nat, data: nat, records: nat, table: nat, schools: nat)
    requires Sound(s)
    ensures var parts := Parts(s, count, capacity);
            && list == Start(parts, 1) && data == Start(parts, 2) && records == Start(parts, 3)
            && table == Start(parts, 4) && schools == Start(parts, 5)
  {
    PartStep(s, count, capacity, 0);
    PartStep(s, count, capacity, 1);
    PartStep(s, count, capacity, 2);
    var cursor := AlignUpSize(s.dataset, s.list.alignment);
    list := cursor;
    cursor := AlignUpSize(cursor + s.list.bytes, s.pointer.alignment);
    data := cursor;
    cursor := cursor + (if count > 0 then count else 2) * s.pointer.bytes;
    PartStep(s, count, capacity, 3);
    cursor := AlignUpSize(cursor, s.record.alignment);
    records := cursor;
    cursor := cursor + (if count > 0 then count else 1) * s.record.bytes;
    PartStep(s, count, capacity, 4);
    cursor := AlignUpSize(cursor, s.pointer.alignment);
    table := cursor;
    cursor := cursor + capacity * s.pointer.bytes;
    PartStep(s, count, capacity, 5);
    cursor := AlignUpSize(cursor, s.school.alignment);
    schools := cursor;
  }

  /** The two passes agree: the parts lie in order, apart and aligned, and end where
      the block ends. */
  lemma DatasetFits(s: Shapes, count: nat, capacity: nat, i: nat, j: nat)
    requires i < j < 6
    ensures var parts := Parts(s, count, capacity);
            && Start(parts, i) + parts[i].bytes <= Start(parts, j)
            && Start(parts, j) % Alignment(parts[j]) == 0
            && Start(parts, 5) + parts[5].bytes == End(parts)
  {
    RegionsFit(Parts(s, count, capacity), i, j);
    RegionAligned(Parts(s, count, capacity), j);
  }
}
