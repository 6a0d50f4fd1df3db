/** The linear-probing tables of the audit benchmark
    (benchmarks/edu_complex_benchmark.c, benchmarks/edu_complex_benchmark_manual.c). */
module ProbeTable {
  import opened Bits
  import opened Lists

  // -------------------------------------------------------------------- sizes

  const U32: nat := 0x1_0000_0000

  /** `next_power_of_two_u32`: doubling from 1 in 32 bits. */
  method NextPowerOfTwo(value: nat) returns (result: nat, ghost exponent: nat)
    requires value <= 0x8000_0000
    ensures result == Pow2(exponent) && value <= result
    ensures result > 1 ==> result < 2 * value
  {
    result, exponent := 1, 0;
    while result < value
      invariant result == Pow2(exponent)
      invariant result > 1 ==> result < 2 * value
      decreases value - result
    {
      result, exponent := result * 2 % U32, exponent + 1;
    }
  }

  /** The loop's variable after `k` doublings in 32 bits. */
  function Doubled(k: nat): (d: nat)
    ensures d < U32
  {
    if k == 0 then 1 else Doubled(k - 1) * 2 % U32
  }

  lemma Pow2Fits(k: nat)
    requires k < 32
    ensures Pow2(k) <= 0x8000_0000
  {
    Pow2Values();
    Pow2Monotone(k, 31);
  }

  lemma {:induction false} DoubledIsPow2(k: nat)
    requires k < 32
    ensures Doubled(k) == Pow2(k)
  {
    if k > 0 {
      DoubledIsPow2(k - 1);
      Pow2Fits(k);
    }
  }

  lemma TopDoubling(k: nat)
    requires k == 31
    ensures Doubled(k) == 0x8000_0000
  {
    DoubledIsPow2(k);
    Pow2Values();
  }

  /** Past the top bit the doublings are zero. */
  lemma {:induction false} DoubledIsZero(top: nat, k: nat)
    requires Doubled(top) == 0x8000_0000 && k > top
    ensures Doubled(k) == 0
  {
    if k > top + 1 {
      DoubledIsZero(top, k - 1);
    }
  }

  /** The doubling loop ends exactly for values up to 2^31. */
  lemma DoublingEnds(value: nat)
    ensures (exists k: nat :: Doubled(k) >= value) <==> value <= 0x8000_0000
  {
    TopDoubling(31);
    forall k: nat
      ensures Doubled(k) <= 0x8000_0000
    {
      if k < 32 {
        DoubledIsPow2(k);
        Pow2Fits(k);
      } else {
        DoubledIsZero(31, k);
      }
    }
  }

  // ------------------------------------------------------------------- slots

  datatype Slot<V> = Empty | Full(key: nat, value: V)

  /** The slot `k` steps after `home`, going round. */
  function Ahead(home: nat, k: nat, n: nat): nat {
    if home + k < n then home + k else home + k - n
  }

  /** How many steps lead from `home` to slot `i`. */
  function Steps(home: nat, i: nat, n: nat): nat
    requires home < n && i < n
  {
    if i >= home then i - home else i + n - home
  }

  function Home(hash: nat -> nat, key: nat, n: nat): (h: nat)
    requires n > 0
    ensures h < n
  {
    hash(key) % n
  }

  /** Every slot from the home of `key` up to slot `i` holds some other key. */
  predicate Passed<V>(hash: nat -> nat, t: seq<Slot<V>>, key: nat, i: nat)
    requires i < |t|
  {
    var n := |t|;
    var home := Home(hash, key, n);
    forall j | 0 <= j < Steps(home, i, n) :: t[Ahead(home, j, n)].Full? && t[Ahead(home, j, n)].key != key
  }

  /** The probing invariant: no empty slot, and no slot with the same key, lies
      between the home of a key and its slot. */
  predicate Probing<V>(hash: nat -> nat, t: seq<Slot<V>>) {
    forall i | 0 <= i < |t| && t[i].Full? :: Passed(hash, t, t[i].key, i)
  }

  /** The table stores the map. */
  ghost predicate Stores<V>(hash: nat -> nat, t: seq<Slot<V>>, m: map<nat, V>) {
    && Probing(hash, t)
    && (forall i | 0 <= i < |t| && t[i].Full? :: t[i].key in m && m[t[i].key] == t[i].value)
    && (forall key | key in m :: exists i :: 0 <= i < |t| && t[i].Full? && t[i].key == key)
  }

  /** What a probe for `key` stops at. */
  predicate Found<V>(hash: nat -> nat, t: seq<Slot<V>>, key: nat, i: nat) {
    i < |t| && Passed(hash, t, key, i) && (t[i].Full? ==> t[i].key == key)
  }

  lemma SlotOfKey<V>(hash: nat -> nat, t: seq<Slot<V>>, m: map<nat, V>, key: nat, i: nat, other: nat)
    requires Stores(hash, t, m) && Found(hash, t, key, i)
    requires other < |t| && t[other].Full? && t[other].key == key
    ensures other == i
  {
    var n := |t|;
    var home := Home(hash, key, n);
    var k, l := Steps(home, i, n), Steps(home, other, n);
    assert Ahead(home, k, n) == i && Ahead(home, l, n) == other;
    assert Passed(hash, t, key, other);
  }

  /** A probe finds the key's value when the map has the key, and an empty slot
      when it does not. */
  lemma FoundMeans<V>(hash: nat -> nat, t: seq<Slot<V>>, m: map<nat, V>, key: nat, i: nat)
    requires Stores(hash, t, m) && Found(hash, t, key, i)
    ensures t[i].Full? <==> key in m
    ensures key in m ==> m[key] == t[i].value
  {
    if key in m {
      var other :| 0 <= other < |t| && t[other].Full? && t[other].key == key;
      SlotOfKey(hash, t, m, key, i, other);
    }
  }

  lemma WriteKeepsPassed<V>(hash: nat -> nat, t: seq<Slot<V>>, key: nat, i: nat, v: V, other: nat, j: nat)
    requires i < |t| && j < |t| && Passed(hash, t, other, j)
    requires other != key || j == i
    ensures Passed(hash, t[i := Full(key, v)], other, j)
  {
  }

  /** Writing the slot a probe stopped at updates the map and keeps the invariant. */
  lemma WriteStores<V>(hash: nat -> nat, t: seq<Slot<V>>, m: map<nat, V>, key: nat, i: nat, v: V)
    requires Stores(hash, t, m) && Found(hash, t, key, i)
    ensures Stores(hash, t[i := Full(key, v)], m[key := v])
  {
    var t', m' := t[i := Full(key, v)], m[key := v];
    FoundMeans(hash, t, m, key, i);
    forall j | 0 <= j < |t'| && t'[j].Full?
      ensures Passed(hash, t', t'[j].key, j) && t'[j].key in m' && m'[t'[j].key] == t'[j].value
    {
      if j == i {
        WriteKeepsPassed(hash, t, key, i, v, key, j);
      } else {
        if t[j].key == key {
          SlotOfKey(hash, t, m, key, i, j);
        }
        WriteKeepsPassed(hash, t, key, i, v, t[j].key, j);
      }
    }
    forall k | k in m'
      ensures exists j :: 0 <= j < |t'| && t'[j].Full? && t'[j].key == k
    {
      if k == key {
        assert t'[i].Full? && t'[i].key == k;
      } else {
        var j :| 0 <= j < |t| && t[j].Full? && t[j].key == k;
        assert t'[j] == t[j];
      }
    }
  }

  // --------------------------------------------------- an empty slot always left

  function KeysUpTo<V>(t: seq<Slot<V>>, k: nat): set<nat>
    requires k <= |t|
  {
    set i | 0 <= i < k && t[i].Full? :: t[i].key
  }

  lemma KeysStep<V>(t: seq<Slot<V>>, k: nat)
    requires 0 < k <= |t|
    ensures KeysUpTo(t, k) ==
            if t[k - 1].Full? then KeysUpTo(t, k - 1) + {t[k - 1].key} else KeysUpTo(t, k - 1)
  {
  }

  lemma {:induction false} FullKeysCount<V>(hash: nat -> nat, t: seq<Slot<V>>, m: map<nat, V>, k: nat)
    requires Stores(hash, t, m) && k <= |t| && forall i | 0 <= i < |t| :: t[i].Full?
    ensures |KeysUpTo(t, k)| == k
    decreases k
  {
    if k > 0 {
      FullKeysCount(hash, t, m, k - 1);
      var key := t[k - 1].key;
      if key in KeysUpTo(t, k - 1) {
        var i :| 0 <= i < k - 1 && t[i].Full? && t[i].key == key;
        assert Found(hash, t, key, i);
        SlotOfKey(hash, t, m, key, i, k - 1);
      }
      KeysStep(t, k);
    }
  }

  /** With fewer keys than slots some slot is empty. */
  lemma SomeEmpty<V>(hash: nat -> nat, t: seq<Slot<V>>, m: map<nat, V>) returns (e: nat)
    requires Stores(hash, t, m) && |m| < |t|
    ensures e < |t| && t[e].Empty?
  {
    if forall i | 0 <= i < |t| :: t[i].Full? {
      FullKeysCount(hash, t, m, |t|);
      assert KeysUpTo(t, |t|) <= m.Keys;
      SubsetSize(KeysUpTo(t, |t|), m.Keys);
      assert false;
    }
    e :| 0 <= e < |t| && !t[e].Full?;
  }

  /** The probe stops at the slot: it is empty, or the key's own. */
  predicate StopsAt<V>(t: seq<Slot<V>>, key: nat, e: nat) {
    e < |t| && (t[e].Empty? || t[e].key == key)
  }

  lemma {:induction false} KeysFewer<V>(t: seq<Slot<V>>, e: nat, k: nat)
    requires e < |t| && t[e].Empty? && k <= |t|
    ensures |KeysUpTo(t, k)| <= (if e < k then k - 1 else k)
    decreases k
  {
    if k > 0 {
      KeysFewer(t, e, k - 1);
      KeysStep(t, k);
    }
  }

  /** The loop of a probe has no bound of its own: it meets a slot to stop at exactly
      when the map has the key or not every slot is taken. */
  lemma ProbeEndsExact<V>(hash: nat -> nat, t: seq<Slot<V>>, m: map<nat, V>, key: nat)
    requires Stores(hash, t, m)
    ensures (exists e: nat :: StopsAt(t, key, e)) <==> key in m || |m| < |t|
  {
    if key in m {
      var e :| 0 <= e < |t| && t[e].Full? && t[e].key == key;
      assert StopsAt(t, key, e);
    } else if |m| < |t| {
      var e := SomeEmpty(hash, t, m);
      assert StopsAt(t, key, e);
    } else if e: nat :| StopsAt(t, key, e) {
      KeysFewer(t, e, |t|);
      assert m.Keys <= KeysUpTo(t, |t|);
      SubsetSize(m.Keys, KeysUpTo(t, |t|));
    }
  }

  /** The slots before step `k` hold other keys. */
  predicate Skipped<V>(hash: nat -> nat, t: seq<Slot<V>>, key: nat, k: nat)
    requires |t| > 0
  {
    forall j | 0 <= j < k ::
      var i := Ahead(Home(hash, key, |t|), j, |t|); i < |t| && t[i].Full? && t[i].key != key
  }

  /** The probe has made `k` steps, and slot `e` will stop it. */
  predicate Underway<V>(hash: nat -> nat, t: seq<Slot<V>>, key: nat, e: nat, k: nat) {
    && StopsAt(t, key, e) && k <= Steps(Home(hash, key, |t|), e, |t|) && Skipped(hash, t, key, k)
  }

  lemma Stopped<V>(hash: nat -> nat, t: seq<Slot<V>>, key: nat, e: nat, k: nat)
    requires Underway(hash, t, key, e, k)
    requires var i := Ahead(Home(hash, key, |t|), k, |t|); StopsAt(t, key, i)
    ensures Found(hash, t, key, Ahead(Home(hash, key, |t|), k, |t|))
  {
  }

  lemma StepsOn<V>(hash: nat -> nat, t: seq<Slot<V>>, key: nat, e: nat, k: nat)
    requires Underway(hash, t, key, e, k)
    requires var i := Ahead(Home(hash, key, |t|), k, |t|); i < |t| && !StopsAt(t, key, i)
    ensures Underway(hash, t, key, e, k + 1)
  {
    var home := Home(hash, key, |t|);
    assert Ahead(home, Steps(home, e, |t|), |t|) == e;
  }

  // ---------------------------------------------------------------- the table

  function Value<V>(m: map<nat, V>, key: nat): Option<V> {
    if key in m then Some(m[key]) else None
  }

  /** One table update: the entry of `key` replaced, or made from nothing. */
  datatype Update<!V> = Update(key: nat, f: Option<V> -> V)

  function Updated<V>(m: map<nat, V>, u: Update<V>): map<nat, V> {
    m[u.key := u.f(Value(m, u.key))]
  }

  function FoldUpdates<V>(m: map<nat, V>, us: seq<Update<V>>): map<nat, V>
    decreases |us|
  {
    if us == [] then m else FoldUpdates(Updated(m, us[0]), us[1..])
  }

  /** The updates of one key, in order. */
  function OwnUpdates<V>(us: seq<Update<V>>, key: nat): seq<Update<V>> {
    if us == [] then []
    else
      var n := |us| - 1;
      OwnUpdates(us[..n], key) + if us[n].key == key then [us[n]] else []
  }

  /** What a key's own updates make of its entry. */
  function OwnValue<V>(start: Option<V>, us: seq<Update<V>>): Option<V> {
    if us == [] then start
    else
      var n := |us| - 1;
      Some(us[n].f(OwnValue(start, us[..n])))
  }

  lemma {:induction false} FoldUpdatesSnoc<V>(m: map<nat, V>, us: seq<Update<V>>, u: Update<V>)
    ensures FoldUpdates(m, us + [u]) == Updated(FoldUpdates(m, us), u)
    decreases |us|
  {
    if us == [] {
      assert [] + [u] == [u] && [u][1..] == [];
    } else {
      assert (us + [u])[1..] == us[1..] + [u];
      FoldUpdatesSnoc(Updated(m, us[0]), us[1..], u);
    }
  }

  /** Every key ends with what its own updates, in order, make of its entry; the
      updates of other keys do not matter. */
  lemma {:induction false} FoldUpdatesMeans<V>(m: map<nat, V>, us: seq<Update<V>>, key: nat)
    ensures Value(FoldUpdates(m, us), key) == OwnValue(Value(m, key), OwnUpdates(us, key))
    decreases |us|
  {
    if us != [] {
      var n := |us| - 1;
      FoldUpdatesMeans(m, us[..n], key);
      FoldUpdatesSnoc(m, us[..n], us[n]);
      assert us[..n] + [us[n]] == us;
      var own := OwnUpdates(us[..n], key);
      assert (own + [us[n]])[..|own|] == own && own + [] == own;
    }
  }

  function UpdateKeys<V>(us: seq<Update<V>>): set<nat> {
    set i | 0 <= i < |us| :: us[i].key
  }

  /** A key of at most `n` is there, or there is room for it. */
  lemma RoomFor(some: set<nat>, all: set<nat>, key: nat, n: nat)
    requires some <= all && key in all && |all| <= n
    ensures key in some || |some| < n
  {
    if key !in some {
      SubsetSize(some + {key}, all);
    }
  }

  lemma NextSlot(slot: nat, n: nat, exponent: nat)
    requires slot < n == Pow2(exponent)
    ensures And(slot + 1, n - 1) == if slot + 1 < n then slot + 1 else 0
  {
    MaskIsMod(slot + 1, exponent);
    if slot + 1 == n {
      ModUnique(n, n, 1, 0);
    } else {
      ModUnique(slot + 1, n, 0, slot + 1);
    }
  }

  /** `DatabaseState` and the loader's school table. */
  class Table<V> {
    const hash: nat -> nat
    const slots: array<Slot<V>>
    ghost const exponent: nat
    ghost var contents: map<nat, V>

    ghost predicate Valid()
      reads this, slots
    {
      slots.Length == Pow2(exponent) && Stores(hash, slots[..], contents)
    }

    constructor (hash: nat -> nat, capacity: nat, ghost exponent: nat)
      requires capacity == Pow2(exponent)
      ensures Valid() && fresh(slots) && slots.Length == capacity
      ensures contents == map[] && this.hash == hash
    {
      this.hash := hash;
      this.exponent := exponent;
      this.slots := new Slot<V>[capacity](_ => Empty);
      this.contents := map[];
    }

    /** `find_school_aggregate` and `load_school_slot`: the loop has no bound of its
        own; it ends because some slot stops it. */
    method Find(key: nat) returns (slot: nat)
      requires Valid() && (key in contents || |contents| < slots.Length)
      ensures Found(hash, slots[..], key, slot)
    {
      var mask := slots.Length - 1;
      slot := And(hash(key), mask);
      MaskIsMod(hash(key), exponent);
      ghost var t, n := slots[..], slots.Length;
      ghost var home, k := Home(hash, key, n), 0;
      ProbeEndsExact(hash, t, contents, key);
      ghost var e: nat :| StopsAt(t, key, e);
      while true
        invariant k < n && slot == Ahead(home, k, n) && Underway(hash, t, key, e, k)
        decreases n - k
      {
        if slots[slot].Empty? || slots[slot].key == key {
          Stopped(hash, t, key, e, k);
          return;
        }
        StepsOn(hash, t, key, e, k);
        NextSlot(slot, n, exponent);
        slot, k := And(slot + 1, mask), k + 1;
      }
    }

    /** Storing through the pointer that a probe returned. */
    method Write(key: nat, slot: nat, value: V)
      requires Valid() && Found(hash, slots[..], key, slot)
      modifies this`contents, slots
      ensures Valid() && contents == old(contents)[key := value]
      ensures slots[..] == old(slots[..])[slot := Full(key, value)]
      ensures Found(hash, slots[..], key, slot)
    {
      WriteStores(hash, slots[..], contents, key, slot, value);
      WriteKeepsPassed(hash, slots[..], key, slot, value, key, slot);
      ghost var t := slots[..];
      slots[slot] := Full(key, value);
      contents := contents[key := value];
      assert slots[..] == t[slot := Full(key, value)];
    }

    /** `update_database_state` up to what it computes for the entry. */
    method Apply(u: Update<V>)
      requires Valid() && (u.key in contents || |contents| < slots.Length)
      modifies this`contents, slots
      ensures Valid() && contents == Updated(old(contents), u)
    {
      var slot := Find(u.key);
      FoundMeans(hash, slots[..], contents, u.key, slot);
      Write(u.key, slot, u.f(if slots[slot].Full? then Some(slots[slot].value) else None));
    }

    /** Any run of updates with no more distinct keys than slots: every probe ends, and
        the table is the map that the updates fold to. */
    method Run(us: seq<Update<V>>)
      requires Valid() && |contents.Keys + UpdateKeys(us)| <= slots.Length
      modifies this`contents, slots
      ensures Valid() && contents == FoldUpdates(old(contents), us)
    {
      for i := 0 to |us|
        invariant Valid() && contents.Keys <= old(contents.Keys) + UpdateKeys(us)
        invariant FoldUpdates(old(contents), us) == FoldUpdates(contents, us[i..])
      {
        assert us[i..][0] == us[i] && us[i..][1..] == us[i + 1..];
        assert us[i].key in UpdateKeys(us);
        RoomFor(contents.Keys, old(contents.Keys) + UpdateKeys(us), us[i].key, slots.Length);
        Apply(us[i]);
      }
    }
  }

  // --------------------------------------------------------------- the loader

  /** The school of an id: made from the first record that has it. */
  function SchoolOf<R, V>(id: R -> nat, derive: R -> V, records: seq<R>, key: nat): Option<V> {
    if records == [] then None
    else if id(records[0]) == key then Some(derive(records[0]))
    else SchoolOf(id, derive, records[1..], key)
  }

  lemma {:induction false} SchoolOfSnoc<R, V>(id: R -> nat, derive: R -> V, records: seq<R>, r: R, key: nat)
    ensures SchoolOf(id, derive, records + [r], key) ==
            (var s := SchoolOf(id, derive, records, key);
             if s.Some? then s else if id(r) == key then Some(derive(r)) else None)
    decreases |records|
  {
    if records == [] {
      assert ([] + [r])[0] == r && ([] + [r])[1..] == [];
    } else {
      assert (records + [r])[1..] == records[1..] + [r];
      if id(records[0]) != key {
        SchoolOfSnoc(id, derive, records[1..], r, key);
      }
    }
  }

  lemma {:induction false} SchoolOfAppend<R, V>(id: R -> nat, derive: R -> V, records: seq<R>, more: seq<R>, key: nat)
    requires SchoolOf(id, derive, records, key).Some?
    ensures SchoolOf(id, derive, records + more, key) == SchoolOf(id, derive, records, key)
    decreases |records|
  {
    assert (records + more)[0] == records[0] && (records + more)[1..] == records[1..] + more;
    if id(records[0]) != key {
      SchoolOfAppend(id, derive, records[1..], more, key);
    }
  }

  /** `school_capacity` in `load_manual_dataset`. */
  method SchoolCapacity(recordCount: nat) returns (capacity: nat, ghost exponent: nat)
    requires recordCount <= 0x4000_0000
    ensures capacity == Pow2(exponent) && capacity > recordCount
    ensures recordCount > 0 ==> 2 * recordCount <= capacity < 4 * recordCount
  {
    capacity, exponent := NextPowerOfTwo(if recordCount > 0 then recordCount * 2 else 2);
  }

  /** The first `i` records are loaded: the table holds the school of every id among
      them, and each record was given it. */
  ghost predicate LoadedUpTo<R, V>(id: R -> nat, derive: R -> V, records: seq<R>, i: nat, contents: map<nat, V>,
                                   given: seq<V>) {
    && i <= |records| && |given| == i
    && (forall key: nat :: Value(contents, key) == SchoolOf(id, derive, records[..i], key))
    && (forall j | 0 <= j < i :: SchoolOf(id, derive, records[..i], id(records[j])) == Some(given[j]))
  }

  lemma LoadStart<R, V>(id: R -> nat, derive: R -> V, records: seq<R>)
    ensures LoadedUpTo(id, derive, records, 0, map[], [])
  {
  }

  lemma LoadEnd<R, V>(id: R -> nat, derive: R -> V, records: seq<R>, contents: map<nat, V>, given: seq<V>)
    requires LoadedUpTo(id, derive, records, |records|, contents, given)
    ensures |given| == |records|
    ensures forall i | 0 <= i < |records| :: SchoolOf(id, derive, records, id(records[i])) == Some(given[i])
    ensures forall key: nat :: Value(contents, key) == SchoolOf(id, derive, records, key)
  {
    assert records[..|records|] == records;
  }

  lemma LoadStep<R, V>(id: R -> nat, derive: R -> V, records: seq<R>, i: nat, before: map<nat, V>, after: map<nat, V>,
                       given: seq<V>)
    requires i < |records| && |given| == i + 1 && LoadedUpTo(id, derive, records, i, before, given[..i])
    requires var r := records[i];
             after == (if id(r) in before then before else before[id(r) := derive(r)]) && given[i] == after[id(r)]
    ensures LoadedUpTo(id, derive, records, i + 1, after, given)
  {
    assert records[..i + 1] == records[..i] + [records[i]];
    forall key: nat
      ensures Value(after, key) == SchoolOf(id, derive, records[..i + 1], key)
    {
      SchoolOfSnoc(id, derive, records[..i], records[i], key);
    }
    forall j | 0 <= j <= i
      ensures SchoolOf(id, derive, records[..i + 1], id(records[j])) == Some(given[j])
    {
      if j < i {
        SchoolOfAppend(id, derive, records[..i], [records[i]], id(records[j]));
      } else {
        assert Value(after, id(records[i])) == Some(given[i]);
      }
    }
  }

  /** The record loop of `load_manual_dataset`: the pool never runs out, and every
      record gets the school of its id, one and the same for all records of the id. */
  method LoadSchools<R, V>(hash: nat -> nat, id: R -> nat, derive: R -> V, records: seq<R>)
      returns (ok: bool, table: Table<V>, given: seq<V>)
    requires |records| <= 0x4000_0000
    ensures ok && fresh(table) && table.Valid()
    ensures |given| == |records|
    ensures forall i | 0 <= i < |records| :: SchoolOf(id, derive, records, id(records[i])) == Some(given[i])
    ensures forall key: nat :: Value(table.contents, key) == SchoolOf(id, derive, records, key)
  {
    var capacity, exponent := SchoolCapacity(|records|);
    table := new Table(hash, capacity, exponent);
    given := [];
    LoadStart(id, derive, records);
    var schoolCount := 0;
    for i := 0 to |records|
      invariant fresh(table) && fresh(table.slots) && table.Valid() && table.slots.Length == capacity
      invariant |table.contents| == schoolCount <= i
      invariant LoadedUpTo(id, derive, records, i, table.contents, given)
    {
      var r := records[i];
      ghost var before := table.contents;
      var slot := table.Find(id(r));
      FoundMeans(hash, table.slots[..], table.contents, id(r), slot);
      if table.slots[slot].Empty? {
        if schoolCount >= |records| {
          assert false;
          return false, table, given;
        }
        schoolCount := schoolCount + 1;
        table.Write(id(r), slot, derive(r));
      }
      FoundMeans(hash, table.slots[..], table.contents, id(r), slot);
      given := given + [table.slots[slot].value];
      LoadStep(id, derive, records, i, before, table.contents, given);
    }
    ok := true;
    LoadEnd(id, derive, records, table.contents, given);
  }
}
