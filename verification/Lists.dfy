/** List transforms: the plain meaning every executor and every generated loop
    of the repository is compared with. */
module Lists {

  datatype Option<+T> = None | Some(value: T)

  function Map<A, B>(f: A -> B, xs: seq<A>): (ys: seq<B>)
    ensures |ys| == |xs|
    ensures forall i | 0 <= i < |xs| :: ys[i] == f(xs[i])
  {
    if xs == [] then [] else [f(xs[0])] + Map(f, xs[1..])
  }

  function Filter<A>(p: A -> bool, xs: seq<A>): seq<A> {
    if xs == [] then []
    else (if p(xs[0]) then [xs[0]] else []) + Filter(p, xs[1..])
  }

  /** The left fold. */
  function Fold<A, B>(f: (B, A) -> B, b: B, xs: seq<A>): B {
    if xs == [] then b else Fold(f, f(b, xs[0]), xs[1..])
  }

  /** The running left folds, without the seed. */
  function Scan<A, B>(f: (B, A) -> B, b: B, xs: seq<A>): (ys: seq<B>)
    ensures |ys| == |xs|
  {
    if xs == [] then [] else var n := f(b, xs[0]); [n] + Scan(f, n, xs[1..])
  }

  function TakeWhile<A>(p: A -> bool, xs: seq<A>): seq<A> {
    if xs == [] || !p(xs[0]) then [] else [xs[0]] + TakeWhile(p, xs[1..])
  }

  function DropWhile<A>(p: A -> bool, xs: seq<A>): seq<A> {
    if xs == [] || !p(xs[0]) then xs else DropWhile(p, xs[1..])
  }

  /** Keeps an item when its key differs from the key of the last kept item;
      `prev` is the key kept before this list, if any. */
  function Dedup<A, K(==)>(key: A -> K, prev: Option<K>, xs: seq<A>): seq<A>
    decreases xs
  {
    if xs == [] then []
    else if prev == Some(key(xs[0])) then Dedup(key, prev, xs[1..])
    else [xs[0]] + Dedup(key, Some(key(xs[0])), xs[1..])
  }

  /** The first `n` items; none when `n` is negative. */
  function Take<A>(n: int, xs: seq<A>): (ys: seq<A>)
    ensures ys <= xs
  {
    if n <= 0 then [] else if n <= |xs| then xs[..n] else xs
  }

  /** All but the first `n` items; all of them when `n` is negative. */
  function Drop<A>(n: int, xs: seq<A>): (ys: seq<A>)
    ensures Take(n, xs) + ys == xs
  {
    if n <= 0 then xs else if n <= |xs| then xs[n..] else []
  }

  /** The prefix up to and including the first item equal to `c`. */
  function ThroughFirst<A(==)>(c: A, xs: seq<A>): seq<A> {
    if xs == [] then [] else if xs[0] == c then [xs[0]] else [xs[0]] + ThroughFirst(c, xs[1..])
  }

  /** The items from the first one equal to `c` on. */
  function FromFirst<A(==)>(c: A, xs: seq<A>): seq<A> {
    if xs == [] || xs[0] == c then xs else FromFirst(c, xs[1..])
  }

  // --------------------------------------------- what the transforms let through

  /** A filter decides on every item by itself and keeps the order. */
  lemma {:induction false} FilterSnoc<A>(p: A -> bool, xs: seq<A>, x: A)
    ensures Filter(p, xs + [x]) == Filter(p, xs) + if p(x) then [x] else []
  {
    if xs == [] {
      assert [] + [x] == [x] && [x][1..] == [];
    } else {
      assert (xs + [x])[1..] == xs[1..] + [x];
      FilterSnoc(p, xs[1..], x);
    }
  }

  /** Where takeWhile stops and dropWhile starts: at the first item that fails. */
  lemma {:induction false} WhileSplits<A>(p: A -> bool, xs: seq<A>) returns (n: nat)
    ensures n <= |xs| && TakeWhile(p, xs) == xs[..n] && DropWhile(p, xs) == xs[n..]
    ensures (forall i | 0 <= i < n :: p(xs[i])) && (n < |xs| ==> !p(xs[n]))
  {
    if xs == [] || !p(xs[0]) {
      n := 0;
    } else {
      var k := WhileSplits(p, xs[1..]);
      n := k + 1;
      assert xs[..n] == [xs[0]] + xs[1..][..k] && xs[n..] == xs[1..][k..];
    }
  }

  /** The items up to the first `c`, which is let through. */
  lemma {:induction false} ThroughFirstMeans<A>(c: A, xs: seq<A>) returns (n: nat)
    ensures n <= |xs| && ThroughFirst(c, xs) == xs[..n]
    ensures if c in xs then n > 0 && xs[n - 1] == c && c !in xs[..n - 1] else n == |xs|
  {
    if xs == [] {
      n := 0;
    } else if xs[0] == c {
      n := 1;
    } else {
      var k := ThroughFirstMeans(c, xs[1..]);
      n := k + 1;
      assert xs[..n] == [xs[0]] + xs[1..][..k];
      if c in xs {
        assert c in xs[1..] && xs[..k] == [xs[0]] + xs[1..][..k - 1];
      }
    }
  }

  /** The last key that was kept is always the key of the last item. */
  lemma {:induction false} DedupSnoc<A, K>(key: A -> K, prev: Option<K>, xs: seq<A>, x: A)
    ensures var before := if xs == [] then prev else Some(key(xs[|xs| - 1]));
            Dedup(key, prev, xs + [x]) == Dedup(key, prev, xs) + if before == Some(key(x)) then [] else [x]
    decreases |xs|
  {
    if xs == [] {
      assert [] + [x] == [x] && [x][1..] == [];
    } else {
      assert (xs + [x])[1..] == xs[1..] + [x];
      DedupSnoc(key, Some(key(xs[0])), xs[1..], x);
    }
  }

  lemma SliceOfSlice<A>(xs: seq<A>, a: nat, b: nat, i: nat, j: nat)
    requires a <= b <= |xs| && i <= j <= b - a
    ensures xs[a..b][i..j] == xs[a + i..a + j]
  {
    var l, r := xs[a..b][i..j], xs[a + i..a + j];
    assert |l| == |r| && forall k | 0 <= k < |l| :: l[k] == xs[a..b][i + k] == xs[a + i + k] == r[k];
  }

  function Flatten<A>(xss: seq<seq<A>>): seq<A> {
    if xss == [] then [] else xss[0] + Flatten(xss[1..])
  }

  lemma AppendAssoc<A>(a: seq<A>, b: seq<A>, c: seq<A>)
    ensures a + (b + c) == (a + b) + c
  {
  }

  lemma SameTail<A>(out: seq<A>, a: seq<A>, b: seq<A>)
    ensures out + a == out + b <==> a == b
  {
    if out + a == out + b {
      assert (out + a)[|out|..] == a && (out + b)[|out|..] == b;
    }
  }

  lemma {:induction false} FoldConcat<A, B>(f: (B, A) -> B, b: B, xs: seq<A>, ys: seq<A>)
    ensures Fold(f, b, xs + ys) == Fold(f, Fold(f, b, xs), ys)
    decreases |xs|
  {
    if xs == [] {
      assert xs + ys == ys;
    } else {
      assert (xs + ys)[1..] == xs[1..] + ys;
      FoldConcat(f, f(b, xs[0]), xs[1..], ys);
    }
  }

  lemma {:induction false} FoldSnoc<A, B>(f: (B, A) -> B, b: B, xs: seq<A>, x: A)
    ensures Fold(f, b, xs + [x]) == f(Fold(f, b, xs), x)
  {
    if xs == [] {
    } else {
      assert (xs + [x])[1..] == xs[1..] + [x];
      FoldSnoc(f, f(b, xs[0]), xs[1..], x);
    }
  }

  /** A running fold ends where the fold ends. */
  lemma {:induction false} ScanIsRunningFold<A, B>(f: (B, A) -> B, b: B, xs: seq<A>, i: nat)
    requires i < |xs|
    ensures Scan(f, b, xs)[i] == Fold(f, b, xs[..i + 1])
  {
    assert xs[..i + 1][1..] == xs[1..][..i];
    if i == 0 {
    } else {
      ScanIsRunningFold(f, f(b, xs[0]), xs[1..], i - 1);
    }
  }

  lemma {:induction false} SubsetSize<A>(a: set<A>, b: set<A>)
    requires a <= b
    ensures |a| <= |b|
    decreases a
  {
    if a != {} {
      var x :| x in a;
      SubsetSize(a - {x}, b - {x});
    }
  }
}
