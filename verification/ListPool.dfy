/** Lists and the pool they are recycled through (core/src/list.c). */
module ListPool {
  import opened Bits
  import opened Lists

  const POOL_MAX: nat := 512
  const CAPACITY_LIMIT: nat := 8

  /** A capacity a list may have: a power of two, at least 2. */
  ghost predicate Capacity(n: nat) {
    n >= 2 && PowerOfTwo(n)
  }

  lemma Doubles(n: nat)
    requires Capacity(n)
    ensures Capacity(2 * n)
  {
    var k: nat :| n == Pow2(k);
    assert 2 * n == Pow2(k + 1);
  }

  /** From `n` on, doubled until it is large enough. */
  function Normalized(capacity: int, n: nat): (r: nat)
    requires n > 0
    ensures capacity <= r && (r == n || r < 2 * capacity)
    decreases capacity - n
  {
    if n >= capacity then n else Normalized(capacity, 2 * n)
  }

  /** `normalized_capacity`: the smallest capacity that is large enough. */
  method NormalizedCapacity(capacity: int) returns (result: nat)
    ensures Capacity(result) && result == Normalized(capacity, 2)
  {
    result := 2;
    assert 2 == Pow2(1);
    while result < capacity
      invariant Capacity(result) && Normalized(capacity, 2) == Normalized(capacity, result)
      decreases capacity - result
    {
      Doubles(result);
      result := result * 2;
    }
  }

  // ------------------------------------------------------------------- a list

  /** Between a capacity and its double there is no other. */
  lemma NoCapacityBetween(n: nat, m: nat)
    requires Capacity(n) && Capacity(m) && 2 * n <= m < 4 * n
    ensures m == 2 * n
  {
    var j: nat :| n == Pow2(j);
    var k: nat :| m == Pow2(k);
    if k <= j {
      Pow2Monotone(k, j);
    } else if k > j + 1 {
      Pow2Monotone(j + 2, k);
    }
  }

  class List {
    var data: array<int>
    var hasPayload: bool
    var front: nat
    var rear: nat
    var size: nat

    ghost predicate Valid()
      reads this
    {
      size <= data.Length && front == 0 && rear == size && Capacity(data.Length)
    }

    function Items(): (r: seq<int>)
      requires size <= data.Length
      reads this, data
      ensures |r| == size
    {
      data[..size]
    }

    constructor (capacity: nat)
      requires Capacity(capacity)
      ensures Valid() && fresh(data) && data.Length == capacity && Items() == [] && !hasPayload
    {
      data := new int[capacity](_ => 0);
      hasPayload, front, rear, size := false, 0, 0, 0;
    }

    /** `list_reserve`. */
    method Reserve(capacity: int)
      requires Valid()
      modifies this
      ensures Valid() && Items() == old(Items()) && hasPayload == old(hasPayload)
      ensures capacity <= data.Length
      ensures if capacity <= old(data.Length) then data == old(data) else fresh(data)
      ensures capacity > old(data.Length) ==> data.Length < 2 * capacity
    {
      if capacity <= data.Length {
        return;
      }
      var newSize := NormalizedCapacity(capacity);
      var grown := new int[newSize](
        i requires 0 <= i reads this, data => if i < size && i < data.Length then data[i] else 0);
      assert grown[..size] == data[..size];
      data := grown;
      front := 0;
      rear := size;
    }

    /** A full list is resized to twice its capacity, no more. */
    method MaybeGrow()
      requires Valid()
      modifies this
      ensures Valid() && Items() == old(Items()) && hasPayload == old(hasPayload) && size < data.Length
      ensures data == old(data) || fresh(data)
      ensures data.Length == if old(size) == old(data.Length) then 2 * old(data.Length) else old(data.Length)
    {
      if size == data.Length {
        ghost var n := data.Length;
        Reserve(data.Length * 2);
        NoCapacityBetween(n, data.Length);
      }
    }

    /** `push_back`. */
    method PushBack(item: int)
      requires Valid()
      modifies this, data
      ensures Valid() && Items() == old(Items()) + [item] && hasPayload == old(hasPayload)
      ensures data == old(data) || fresh(data)
      ensures data.Length == if old(size) == old(data.Length) then 2 * old(data.Length) else old(data.Length)
    {
      MaybeGrow();
      data[size] := item;
      size := size + 1;
      rear := size;
    }

    /** `push_front`: moves every item one place up. */
    method PushFront(item: int)
      requires Valid()
      modifies this, data
      ensures Valid() && Items() == [item] + old(Items()) && hasPayload == old(hasPayload)
      ensures data == old(data) || fresh(data)
      ensures data.Length == if old(size) == old(data.Length) then 2 * old(data.Length) else old(data.Length)
    {
      ghost var before := Items();
      MaybeGrow();
      forall i | 1 <= i <= size {
        data[i] := data[i - 1];
      }
      assert data[1..size + 1] == before;
      data[0] := item;
      assert data[..size + 1] == [item] + data[1..size + 1];
      size := size + 1;
      rear := size;
    }

    /** `payload_block` is set, as zip and mergeMap do for the pairs they make. */
    method AttachPayload()
      requires Valid()
      modifies this`hasPayload
      ensures Valid() && hasPayload
    {
      hasPayload := true;
    }

    /** `pop`; NULL stands for the result of an empty list. */
    method Pop() returns (item: Option<int>)
      requires Valid()
      modifies this
      ensures Valid() && data == old(data) && hasPayload == old(hasPayload)
      ensures if old(size) == 0 then item == None && Items() == []
              else item == Some(old(Items())[old(size) - 1]) && Items() == old(Items())[..old(size) - 1]
    {
      if size == 0 {
        return None;
      }
      item := Some(data[size - 1]);
      size := size - 1;
      rear := size;
    }

    /** `popstart`: moves every other item one place down. */
    method PopStart() returns (item: Option<int>)
      requires Valid()
      modifies this, data
      ensures Valid() && data == old(data) && hasPayload == old(hasPayload)
      ensures if old(size) == 0 then item == None && Items() == []
              else item == Some(old(Items())[0]) && Items() == old(Items())[1..]
    {
      if size == 0 {
        return None;
      }
      item := Some(data[0]);
      forall i | 0 <= i < size - 1 {
        data[i] := data[i + 1];
      }
      size := size - 1;
      rear := size;
    }

    /** `list_remove`; an index out of range changes nothing. */
    method Remove(idx: int)
      requires Valid()
      modifies this, data
      ensures Valid() && data == old(data) && hasPayload == old(hasPayload)
      ensures Items() == if 0 <= idx < old(size) then old(Items())[..idx] + old(Items())[idx + 1..] else old(Items())
    {
      if idx < 0 || idx >= size {
        return;
      }
      forall i | idx <= i < size - 1 {
        data[i] := data[i + 1];
      }
      size := size - 1;
      rear := size;
    }
  }

  // ----------------------------------------------------------------- the pool

  lemma TakenOut(before: seq<List>, i: nat)
    requires i < |before| && forall a, b | 0 <= a < b < |before| :: before[a] != before[b]
    ensures var n := |before| - 1;
            var after := before[i := before[n]][..n];
            && multiset(after) + multiset{before[i]} == multiset(before) && before[i] !in after
            && (forall a, b | 0 <= a < b < n :: after[a] != after[b])
            && (forall l | l in after :: l in before)
  {
    var n := |before| - 1;
    assert before == before[..n] + [before[n]];
    if i < n {
      assert before[i := before[n]][..n] == before[..n][i := before[n]];
    } else {
      assert before[i := before[n]][..n] == before[..n];
    }
  }

  class Pool {
    const slots: array<List?>
    var count: nat
    ghost var pooled: seq<List>
    ghost var live: set<List>

    /** What a pooled list is: empty, without payload, small. */
    static ghost predicate Recyclable(l: List)
      reads l
    {
      l.Valid() && !l.hasPayload && l.data.Length <= CAPACITY_LIMIT
    }

    ghost predicate Slots()
      reads this, slots
    {
      && slots.Length == POOL_MAX && count == |pooled| <= POOL_MAX
      && (forall i | 0 <= i < count :: slots[i] == pooled[i])
    }

    ghost function Known(): set<List>
      reads this
    {
      live + set l | l in pooled
    }

    /** The pooled lists are distinct and belong to nobody; no two lists share an
        array. */
    ghost predicate Apart()
      reads this, live, pooled
    {
      && (forall i, j | 0 <= i < j < |pooled| :: pooled[i] != pooled[j])
      && (forall l | l in pooled :: l !in live)
      && (forall a, b | a in Known() && b in Known() && a != b :: a.data != b.data)
    }

    ghost predicate Valid()
      reads this, slots, live, pooled
    {
      Slots() && Apart() && (forall l | l in pooled :: Recyclable(l)) && (forall l | l in live :: l.Valid())
    }

    constructor ()
      ensures Valid() && live == {} && pooled == [] && fresh(slots)
    {
      slots := new List?[POOL_MAX](_ => null);
      count := 0;
      pooled := [];
      live := {};
    }

    /** The list is none of the known ones and shares no array with them. */
    ghost predicate Separate(l: List)
      reads this, l, Known()
    {
      l !in Known() && forall x | x in Known() :: x.data != l.data
    }

    /** A pool without list `i`, the top one in its place. */
    static ghost function Without(lists: seq<List>, i: nat): seq<List>
      requires i < |lists|
    {
      var n := |lists| - 1;
      lists[i := lists[n]][..n]
    }

    static ghost predicate SomeFit(lists: seq<List>, normalized: nat)
      reads lists`data
    {
      exists i :: 0 <= i < |lists| && lists[i].data.Length >= normalized
    }

    /** `l` was the topmost large enough list of `lists`; now the pool is without it. */
    ghost predicate TookTop(lists: seq<List>, l: List, normalized: nat)
      reads this`pooled, lists`data
    {
      exists i: nat ::
        && i < |lists| && lists[i] == l && lists[i].data.Length >= normalized
        && (forall j | i < j < |lists| :: lists[j].data.Length < normalized)
        && pooled == Without(lists, i)
    }

    method RemoveAt(i: nat) returns (l: List)
      requires Valid() && i < count
      modifies this`count, this`pooled, slots
      ensures Valid() && live == old(live)
      ensures l == old(pooled)[i] && Recyclable(l) && Separate(l)
      ensures pooled == Without(old(pooled), i) && multiset(pooled) + multiset{l} == multiset(old(pooled))
      ensures forall x | x in pooled :: x in old(pooled)
    {
      TakenOut(pooled, i);
      ghost var rest := Without(pooled, i);
      l := slots[i];
      assert l in Known();
      slots[i] := slots[count - 1];
      count := count - 1;
      pooled := rest;
    }

    /** The scan of `init_list_with_capacity`, from the top of the pool down: takes out
        the first list found that is large enough, the top one filling its place. */
    method TakeFrom(normalized: nat) returns (l: List?)
      requires Valid()
      modifies this`count, this`pooled, slots
      ensures Valid() && live == old(live)
      ensures forall x | x in pooled :: x in old(pooled)
      ensures l == null ==> pooled == old(pooled)
      ensures l != null <==> SomeFit(old(pooled), normalized)
      ensures l != null ==>
                && TookTop(old(pooled), l, normalized)
                && l in old(pooled) && l !in pooled && l.data.Length >= normalized && Recyclable(l)
                && multiset(pooled) + multiset{l} == multiset(old(pooled)) && Separate(l)
    {
      var i := count - 1;
      while i >= 0
        invariant -1 <= i < count
        invariant forall j | i < j < count :: pooled[j].data.Length < normalized
      {
        if slots[i].data.Length >= normalized {
          ghost var before := pooled;
          l := RemoveAt(i);
          assert before[i] == l;
          return;
        }
        i := i - 1;
      }
      l := null;
    }

    /** From the pool, if it has a list that is large enough, or new. */
    method Obtain(normalized: nat) returns (l: List)
      requires Valid() && Capacity(normalized)
      modifies this`count, this`pooled, slots
      ensures Valid() && live == old(live) && l.Valid() && Separate(l) && l.data.Length >= normalized
      ensures forall x | x in pooled :: x in old(pooled)
      ensures if normalized <= CAPACITY_LIMIT && SomeFit(old(pooled), normalized)
              then TookTop(old(pooled), l, normalized)
              else fresh(l) && l.data.Length == normalized
      ensures if fresh(l) then fresh(l.data) && pooled == old(pooled) else l in old(pooled)
    {
      var found: List? := null;
      if normalized <= CAPACITY_LIMIT {
        found := TakeFrom(normalized);
      }
      if found == null {
        l := new List(normalized);
      } else {
        l := found;
      }
    }

    method HandOut(l: List)
      requires Valid() && l.Valid() && Separate(l)
      modifies this`live, l`hasPayload, l`front, l`rear, l`size
      ensures Valid() && live == old(live) + {l} && l.Items() == [] && !l.hasPayload
    {
      l.hasPayload, l.front, l.rear, l.size := false, 0, 0, 0;
      live := live + {l};
    }

    /** A list of a normalised capacity, handed out empty. */
    method Serve(normalized: nat) returns (l: List)
      requires Valid() && Capacity(normalized)
      modifies this`count, this`pooled, this`live, slots
      modifies pooled`hasPayload, pooled`front, pooled`rear, pooled`size
      ensures Valid() && live == old(live) + {l} && l !in old(live)
      ensures l.Items() == [] && l.data.Length >= normalized && !l.hasPayload
      ensures if normalized <= CAPACITY_LIMIT && SomeFit(old(pooled), normalized)
              then TookTop(old(pooled), l, normalized)
              else fresh(l) && l.data.Length == normalized
      ensures Known() <= old(Known()) + {l}
      ensures if fresh(l) then fresh(l.data) && pooled == old(pooled) else l in old(pooled)
    {
      l := Obtain(normalized);
      HandOut(l);
    }

    /** `init_list_with_capacity`: no live list is handed out again. */
    method InitList(capacity: int) returns (l: List)
      requires Valid()
      modifies this`count, this`pooled, this`live, slots
      modifies pooled`hasPayload, pooled`front, pooled`rear, pooled`size
      ensures Valid() && live == old(live) + {l} && l !in old(live)
      ensures l.Items() == [] && l.data.Length >= capacity && !l.hasPayload
      ensures var n := Normalized(capacity, 2);
              if n <= 8 && SomeFit(old(pooled), n)
              then TookTop(old(pooled), l, n)
              else fresh(l) && l.data.Length == n
      ensures Known() <= old(Known()) + {l}
      ensures if fresh(l) then fresh(l.data) && pooled == old(pooled) else l in old(pooled)
    {
      var normalized := NormalizedCapacity(capacity);
      l := Serve(normalized);
    }

    /** The same, as far as ownership goes. */
    method Allocate(capacity: int) returns (l: List)
      requires Valid()
      modifies this`count, this`pooled, this`live, slots
      modifies pooled`hasPayload, pooled`front, pooled`rear, pooled`size
      ensures Valid() && live == old(live) + {l} && l !in old(live) && l.Items() == [] && !l.hasPayload
      ensures Known() <= old(Known()) + {l}
      ensures if fresh(l) then fresh(l.data) else l in old(pooled)
    {
      l := InitList(capacity);
    }

    method Recycle(l: List)
      requires Valid() && Separate(l) && Recyclable(l) && count < POOL_MAX
      modifies this`count, this`pooled, slots, l
      ensures Valid() && live == old(live) && pooled == old(pooled) + [l] && l.data == old(l.data)
    {
      l.front, l.rear, l.size := 0, 0, 0;
      slots[count] := l;
      count := count + 1;
      pooled := pooled + [l];
    }

    ghost method Release(l: List)
      requires Valid() && l in live
      modifies this`live
      ensures Valid() && live == old(live) - {l} && Separate(l)
    {
      live := live - {l};
    }

    /** `freelist`: back to the pool when small, without payload and while there is
        room; otherwise released for good. */
    method FreeList(l: List)
      requires Valid() && l in live
      modifies this, slots, l
      ensures Valid() && live == old(live) - {l} && l.data == old(l.data)
      ensures pooled == if !old(l.hasPayload) && old(l.data).Length <= 8 && |old(pooled)| < 512
                        then old(pooled) + [l] else old(pooled)
    {
      Release(l);
      if !l.hasPayload && l.data.Length <= CAPACITY_LIMIT && count < POOL_MAX {
        Recycle(l);
      }
    }

    /** A change to one live list that reallocates at most its own array keeps the
        pool valid. */
    twostate lemma OneListChanged(l: List)
      requires old(Valid()) && unchanged(this) && unchanged(slots) && l in live
      requires forall x | x in pooled || (x in live && x != l) :: unchanged(x)
      requires l.Valid() && (l.data == old(l.data) || fresh(l.data))
      ensures Valid()
    {
    }
  }

  // ------------------------------------------------------------------ any run

  /** Commands on lists named by the order of their creation. */
  datatype Command =
    | New(capacity: int)
    | PushBack(list: nat, item: int)
    | PushFront(list: nat, item: int)
    | Pop(list: nat)
    | PopStart(list: nat)
    | Remove(list: nat, idx: int)
    | Reserve(list: nat, capacity: int)
    | AttachPayload(list: nat)
    | Free(list: nat)

  /** What a list holds, and whether it owns a payload block. */
  datatype Held = Held(items: seq<int>, payload: bool)

  /** What each list holds; nothing once it is freed. */
  type Model = seq<Option<Held>>

  function ItemEffect(c: Command, v: seq<int>): seq<int> {
    match c
    case PushBack(_, x) => v + [x]
    case PushFront(_, x) => [x] + v
    case Pop(_) => if v == [] then v else v[..|v| - 1]
    case PopStart(_) => if v == [] then v else v[1..]
    case Remove(_, idx) => if 0 <= idx < |v| then v[..idx] + v[idx + 1..] else v
    case _ => v
  }

  /** A freed list is not used again, nor freed again. */
  predicate Allowed(m: Model, c: Command) {
    c.New? || (c.list < |m| && m[c.list].Some?)
  }

  function Effect(m: Model, c: Command): Model
    requires Allowed(m, c)
  {
    match c
    case New(_) => m + [Some(Held([], false))]
    case Free(h) => m[h := None]
    case _ =>
      var held := m[c.list].value;
      m[c.list := Some(Held(ItemEffect(c, held.items), held.payload || c.AttachPayload?))]
  }

  predicate AllAllowed(m: Model, cs: seq<Command>)
    decreases |cs|
  {
    cs == [] || (Allowed(m, cs[0]) && AllAllowed(Effect(m, cs[0]), cs[1..]))
  }

  function Effects(m: Model, cs: seq<Command>): Model
    requires AllAllowed(m, cs)
    decreases |cs|
  {
    if cs == [] then m else Effects(Effect(m, cs[0]), cs[1..])
  }

  /** What the commands on list `h` alone make of what it holds. */
  function OwnEffects(held: Option<Held>, cs: seq<Command>, h: nat): Option<Held>
    decreases |cs|
  {
    if cs == [] then held
    else
      var c := cs[0];
      OwnEffects(
        if c.New? || c.list != h || held.None? then held
        else if c.Free? then None
        else Some(Held(ItemEffect(c, held.value.items), held.value.payload || c.AttachPayload?)),
        cs[1..], h)
  }

  /** Each list ends with what its own commands made of it, whatever the others did. */
  lemma {:induction false} EffectsAreOwn(m: Model, cs: seq<Command>, h: nat)
    requires AllAllowed(m, cs) && h < |m|
    ensures h < |Effects(m, cs)| && Effects(m, cs)[h] == OwnEffects(m[h], cs, h)
    decreases |cs|
  {
    if cs != [] {
      EffectsAreOwn(Effect(m, cs[0]), cs[1..], h);
    }
  }

  /** The live lists are the unfreed handles, each one's own and holding what the
      model says. */
  ghost predicate Matches(pool: Pool, handles: seq<List>, m: Model)
    reads pool, pool.live, set l | l in pool.live :: l.data
  {
    && |handles| == |m|
    && (forall i | 0 <= i < |m| && m[i].Some? :: handles[i] in pool.live)
    && (forall l | l in pool.live :: l.Valid())
    && (forall i | 0 <= i < |m| && m[i].Some? ::
          handles[i].Items() == m[i].value.items && handles[i].hasPayload == m[i].value.payload)
    && (forall i, j | 0 <= i < j < |m| && m[i].Some? && m[j].Some? :: handles[i] != handles[j])
  }

  /** A command on one list. */
  method ListCommand(l: List, c: Command)
    requires l.Valid() && !c.New? && !c.Free?
    modifies l, l.data
    ensures l.Valid() && l.Items() == ItemEffect(c, old(l.Items()))
    ensures l.hasPayload == (old(l.hasPayload) || c.AttachPayload?)
    ensures l.data == old(l.data) || fresh(l.data)
  {
    match c
    case PushBack(_, x) => l.PushBack(x);
    case PushFront(_, x) => l.PushFront(x);
    case Pop(_) => var item := l.Pop();
    case PopStart(_) => var item := l.PopStart();
    case Remove(_, idx) => l.Remove(idx);
    case Reserve(_, capacity) => l.Reserve(capacity);
    case AttachPayload(_) => l.AttachPayload();
  }

  /** The pool has come to know no list but new ones, and no array but new ones. */
  twostate predicate NoStrangers(pool: Pool)
    reads pool, pool.Known()
  {
    forall l | l in pool.Known() ::
      if l in old(pool.Known()) then l.data == old(l.data) || fresh(l.data) else fresh(l) && fresh(l.data)
  }

  method RunNew(pool: Pool, handles: seq<List>, ghost m: Model, c: Command) returns (l: List)
    requires pool.Valid() && Matches(pool, handles, m) && c.New?
    modifies pool, pool.slots, pool.Known()
    ensures pool.Valid() && Matches(pool, handles + [l], Effect(m, c)) && NoStrangers(pool)
  {
    l := pool.Allocate(c.capacity);
    assert forall x | x in old(pool.live) :: x.Items() == old(x.Items());
  }

  method RunFree(pool: Pool, handles: seq<List>, ghost m: Model, c: Command)
    requires pool.Valid() && Matches(pool, handles, m) && c.Free? && Allowed(m, c)
    modifies pool, pool.slots, pool.Known()
    ensures pool.Valid() && Matches(pool, handles, Effect(m, c)) && NoStrangers(pool)
  {
    pool.FreeList(handles[c.list]);
    assert forall x | x in pool.live :: x.Items() == old(x.Items());
  }

  /** A command on a live list of the pool: the pool stays valid, no other list changes. */
  method ChangeList(pool: Pool, l: List, c: Command)
    requires pool.Valid() && l in pool.live && !c.New? && !c.Free?
    modifies l, l.data
    ensures pool.Valid() && NoStrangers(pool)
    ensures l.Items() == ItemEffect(c, old(l.Items()))
    ensures l.hasPayload == (old(l.hasPayload) || c.AttachPayload?)
    ensures forall x | x in pool.live && x != l :: x.Items() == old(x.Items()) && x.hasPayload == old(x.hasPayload)
  {
    ListCommand(l, c);
    pool.OneListChanged(l);
  }

  method RunList(pool: Pool, handles: seq<List>, ghost m: Model, c: Command)
    requires pool.Valid() && Matches(pool, handles, m) && !c.New? && !c.Free? && Allowed(m, c)
    modifies handles[c.list], handles[c.list].data
    ensures pool.Valid() && Matches(pool, handles, Effect(m, c)) && NoStrangers(pool)
  {
    ChangeList(pool, handles[c.list], c);
  }

  method RunOne(pool: Pool, handles: seq<List>, ghost m: Model, c: Command) returns (r: seq<List>)
    requires pool.Valid() && Matches(pool, handles, m) && Allowed(m, c)
    modifies pool, pool.slots, pool.Known(), set l | l in pool.Known() :: l.data
    ensures pool.Valid() && Matches(pool, r, Effect(m, c)) && NoStrangers(pool)
  {
    r := handles;
    if c.New? {
      var l := RunNew(pool, handles, m, c);
      r := handles + [l];
    } else if c.Free? {
      RunFree(pool, handles, m, c);
    } else {
      assert handles[c.list] in pool.Known();
      RunList(pool, handles, m, c);
    }
  }

  /** Any run of allocations, changes, payloads and single frees from an empty pool: the
      pool stays valid, so holds small lists without payload only, whatever was freed;
      the unfreed lists are pairwise different, none is pooled, and each one holds
      exactly what its own commands put into it, a payload included. */
  method Run(cs: seq<Command>) returns (pool: Pool, handles: seq<List>)
    requires AllAllowed([], cs)
    ensures fresh(pool) && pool.Valid() && Matches(pool, handles, Effects([], cs))
  {
    pool := new Pool();
    handles := [];
    ghost var m: Model := [];
    for i := 0 to |cs|
      invariant fresh(pool) && fresh(pool.slots) && forall l | l in pool.Known() :: fresh(l) && fresh(l.data)
      invariant pool.Valid() && Matches(pool, handles, m)
      invariant AllAllowed(m, cs[i..]) && Effects(m, cs[i..]) == Effects([], cs)
    {
      assert cs[i..][0] == cs[i] && cs[i..][1..] == cs[i + 1..];
      handles := RunOne(pool, handles, m, cs[i]);
      m := Effect(m, cs[i]);
    }
  }
}
