/** The busiest histogram buckets of a school (benchmarks/edu_complex_benchmark.c,
    benchmarks/edu_complex_benchmark_manual.c). */
module Buckets {
  import opened Lists

  const HIST: nat := 32
  const TOP: nat := 6

  type Histogram = h: seq<nat> | |h| == HIST witness seq(HIST, i => 0)

  /** More hits, or as many and a lower number. */
  predicate Beats(h: Histogram, a: nat, b: nat)
    requires a < HIST && b < HIST
  {
    h[a] > h[b] || (h[a] == h[b] && a < b)
  }

  /** The bucket that beats every other one that is not excluded. */
  predicate Best(h: Histogram, excluded: seq<nat>, b: nat) {
    b < HIST && b !in excluded && forall c | 0 <= c < HIST && c !in excluded && c != b :: Beats(h, b, c)
  }

  lemma BestUnique(h: Histogram, excluded: seq<nat>, a: nat, b: nat)
    requires Best(h, excluded, a) && Best(h, excluded, b)
    ensures a == b
  {
  }

  /** The best of the first `k` buckets that are not excluded, if there is one. */
  function BestBelow(h: Histogram, excluded: seq<nat>, k: nat): (r: int)
    requires k <= HIST
    ensures r == -1 || (0 <= r < k && r !in excluded)
    ensures r == -1 ==> forall c | 0 <= c < k :: c in excluded
    ensures r >= 0 ==> forall c | 0 <= c < k && c !in excluded && c != r :: Beats(h, r, c)
  {
    if k == 0 then -1
    else
      var before := BestBelow(h, excluded, k - 1);
      if k - 1 in excluded then before
      else if before == -1 || Beats(h, k - 1, before) then k - 1
      else before
  }

  lemma SomeBest(h: Histogram, excluded: seq<nat>, c: nat)
    requires c < HIST && c !in excluded
    ensures BestBelow(h, excluded, HIST) >= 0
  {
  }

  /** The two best buckets: what the signature is made of. */
  function TopTwo(h: Histogram): (r: (nat, nat))
    ensures Best(h, [], r.0) && Best(h, [r.0], r.1)
  {
    SomeBest(h, [], 0);
    var first := BestBelow(h, [], HIST);
    SomeBest(h, [first], if first == 0 then 1 else 0);
    (first, BestBelow(h, [first], HIST))
  }

  function Elements(s: seq<nat>): set<nat> {
    if s == [] then {} else {s[0]} + Elements(s[1..])
  }

  function UpTo(n: nat): set<nat> {
    if n == 0 then {} else UpTo(n - 1) + {n - 1}
  }

  lemma {:induction false} ElementsOf(s: seq<nat>)
    ensures |Elements(s)| <= |s| && forall x :: x in s <==> x in Elements(s)
  {
    if s != [] {
      ElementsOf(s[1..]);
      assert s == [s[0]] + s[1..];
    }
  }

  lemma {:induction false} UpToAll(n: nat)
    ensures |UpTo(n)| == n && forall x: nat :: x in UpTo(n) <==> x < n
  {
    if n > 0 {
      UpToAll(n - 1);
    }
  }

  /** Fewer chosen buckets than buckets. */
  lemma SomeUnused(out: seq<nat>)
    requires |out| < HIST
    ensures exists c :: 0 <= c < HIST && c !in out
  {
    if forall c: nat | c < HIST :: c in out {
      ElementsOf(out);
      UpToAll(HIST);
      SubsetSize(UpTo(HIST), Elements(out));
    }
  }

  /** `choose_top_buckets`: six times the best of the unused buckets. */
  method ChooseTopBuckets(h: Histogram) returns (out: seq<nat>)
    ensures |out| == TOP && forall i | 0 <= i < TOP :: Best(h, out[..i], out[i])
    ensures (out[0], out[1]) == TopTwo(h)
  {
    var used := new bool[HIST](_ => false);
    out := [];
    for index := 0 to TOP
      invariant |out| == index && forall b | 0 <= b < HIST :: used[b] <==> b in out
      invariant forall i | 0 <= i < index :: Best(h, out[..i], out[i])
    {
      SomeUnused(out);
      var best, found := 0, false;
      for bucket := 0 to HIST
        invariant found ==> best < bucket && best !in out
        invariant !found ==> forall c | 0 <= c < bucket :: c in out
        invariant found ==> forall c | 0 <= c < bucket && c !in out && c != best :: Beats(h, best, c)
      {
        if used[bucket] {
          continue;
        }
        if !found || h[bucket] > h[best] || (h[bucket] == h[best] && bucket < best) {
          best, found := bucket, true;
        }
      }
      assert Best(h, out, best);
      ghost var before := out;
      out := out + [best];
      assert out[..index] == before && forall i | 0 <= i < index :: out[..i] == before[..i];
      used[best] := true;
    }
    assert out[..0] == [] && out[..1] == [out[0]];
    BestUnique(h, [], out[0], TopTwo(h).0);
    BestUnique(h, [out[0]], out[1], TopTwo(h).1);
  }

  /** `choose_top_two_buckets_manual`: one scan that keeps the two best. */
  method ChooseTopTwo(h: Histogram) returns (top0: nat, top1: nat)
    ensures (top0, top1) == TopTwo(h)
  {
    var best0, best1 := 0, 1;
    if h[best1] > h[best0] || (h[best1] == h[best0] && best1 < best0) {
      best0, best1 := best1, best0;
    }
    for bucket := 2 to HIST
      invariant best0 < bucket && best1 < bucket && best0 != best1
      invariant forall c | 0 <= c < bucket && c != best0 :: Beats(h, best0, c)
      invariant forall c | 0 <= c < bucket && c != best0 && c != best1 :: Beats(h, best1, c)
    {
      forall c | 0 <= c < bucket
        ensures Beats(h, bucket, best0) && c != best0 ==> Beats(h, bucket, c)
        ensures Beats(h, bucket, best1) && c != best0 && c != best1 ==> Beats(h, bucket, c)
      {
        assert c != best0 ==> Beats(h, best0, c);
        assert c != best0 && c != best1 ==> Beats(h, best1, c);
      }
      if h[bucket] > h[best0] || (h[bucket] == h[best0] && bucket < best0) {
        best0, best1 := bucket, best0;
      } else if bucket != best0 && (h[bucket] > h[best1] || (h[bucket] == h[best1] && bucket < best1)) {
        best1 := bucket;
      }
    }
    BestUnique(h, [], best0, TopTwo(h).0);
    BestUnique(h, [best0], best1, TopTwo(h).1);
    return best0, best1;
  }
}
