/** What the planner's loop body declares (core/planner/astgen.c:1999-2027): the view of
    the value, once for every run of operators that only look at it. */
module PlannerDeclarations {
  import opened LoopOps
  import opened GeneratedLoops

  /** How often the code of the first `k` operators declares `__rx_value_view`. */
  function Views(ops: seq<Op>, k: nat): nat
    requires k <= |ops|
  {
    if k == 0 then 0 else Views(ops, k - 1) + if StartsRun(ops, k - 1) then 1 else 0
  }

  /** One of the first `k` operators looks at the value. */
  predicate SomeLooks(ops: seq<Op>, k: nat)
    requires k <= |ops|
  {
    exists i | 0 <= i < k :: UsesView(ops[i])
  }

  predicate Interrupts(ops: seq<Op>, i: int, j: int, k: int) {
    0 <= i < j < k < |ops| && UsesView(ops[i]) && !UsesView(ops[j]) && UsesView(ops[k])
  }

  /** Among the first `n` operators, two that look at the value have one between them
      that does not. */
  ghost predicate Interrupted(ops: seq<Op>, n: nat) {
    exists i, j, k :: Interrupts(ops, i, j, k) && k < n
  }

  lemma {:induction false} NoViews(ops: seq<Op>, k: nat)
    requires k <= |ops|
    ensures Views(ops, k) == 0 <==> !SomeLooks(ops, k)
  {
    if k > 0 {
      NoViews(ops, k - 1);
      if UsesView(ops[k - 1]) && !StartsRun(ops, k - 1) {
        assert SomeLooks(ops, k - 1);
      }
    }
  }

  /** One more operator: a triple that ends at it, or one that ended before. */
  lemma InterruptedStep(ops: seq<Op>, n: nat)
    requires n < |ops|
    ensures Interrupted(ops, n + 1) <==>
            Interrupted(ops, n) || exists i, j :: Interrupts(ops, i, j, n)
  {
    if i, j, k :| Interrupts(ops, i, j, k) && k < n + 1 {
      if k == n {
        assert Interrupts(ops, i, j, n);
      }
    }
    if i, j :| Interrupts(ops, i, j, n) {
      assert Interrupted(ops, n + 1);
    }
  }

  /** An operator that continues a run ends a triple only where the one before it does. */
  lemma RunContinues(ops: seq<Op>, n: nat)
    requires 0 < n < |ops| && UsesView(ops[n]) && UsesView(ops[n - 1])
    ensures (exists i, j :: Interrupts(ops, i, j, n)) ==> Interrupted(ops, n)
  {
    if i, j :| Interrupts(ops, i, j, n) {
      assert Interrupts(ops, i, j, n - 1);
    }
  }

  /** An operator that starts a run ends a triple where any looked before. */
  lemma RunStarts(ops: seq<Op>, n: nat)
    requires n < |ops| && StartsRun(ops, n)
    ensures (exists i, j :: Interrupts(ops, i, j, n)) <==> SomeLooks(ops, n)
  {
    if SomeLooks(ops, n) {
      var i :| 0 <= i < n && UsesView(ops[i]);
      assert Interrupts(ops, i, n - 1, n);
    }
  }

  lemma OnlyAfterLooking(ops: seq<Op>, n: nat)
    requires n <= |ops|
    ensures Interrupted(ops, n) ==> SomeLooks(ops, n)
  {
    if i, j, k :| Interrupts(ops, i, j, k) && k < n {
      assert UsesView(ops[i]);
    }
  }

  lemma {:induction false} ViewsUpTo(ops: seq<Op>, n: nat)
    requires n <= |ops|
    ensures Views(ops, n) <= 1 <==> !Interrupted(ops, n)
  {
    if n > 0 {
      ViewsUpTo(ops, n - 1);
      InterruptedStep(ops, n - 1);
      if StartsRun(ops, n - 1) {
        NoViews(ops, n - 1);
        RunStarts(ops, n - 1);
        OnlyAfterLooking(ops, n - 1);
      } else if UsesView(ops[n - 1]) {
        RunContinues(ops, n - 1);
      }
    }
  }

  /** The body declares the view at most once exactly when no operator that does not
      look at the value stands between two that do. */
  lemma ViewDeclaredOnceExact(ops: seq<Op>)
    ensures Views(ops, |ops|) <= 1 <==> !exists i, j, k :: Interrupts(ops, i, j, k)
  {
    ViewsUpTo(ops, |ops|);
    if i, j, k :| Interrupts(ops, i, j, k) {
      assert Interrupts(ops, i, j, k) && k < |ops|;
    }
  }

  /** A filter, a map and a filter again declare it twice. */
  lemma FilterMapFilterDeclaresTwice(p: int -> bool, f: int -> int)
    ensures Views([Filter(p), Map(f), Filter(p)], 3) == 2
  {
    var ops := [Filter(p), Map(f), Filter(p)];
    assert Views(ops, 1) == 1 && Views(ops, 2) == 1;
  }
}
