/** Every interleaving of inserts, clock ticks and the worker thread (core/src/task.c):
    what is atomic is what happens between lock and unlock. */
module TaskRuns {
  import opened Lists
  import opened TaskQueue

  /** `order` numbers the insertions. */
  datatype Task = Task(time: int, order: nat)

  const DUE_TIME: Task -> int := (t: Task) => t.time

  predicate Before(a: Task, b: Task) {
    a.time < b.time || (a.time == b.time && a.order < b.order)
  }

  predicate Sorted(q: seq<Task>) {
    forall i, j | 0 <= i < j < |q| :: Before(q[i], q[j])
  }

  /** A task taken by the worker at a clock reading. */
  datatype Taken = Taken(task: Task, at: int)

  /** The worker asleep waits for its deadline, or with none for a signal. */
  datatype Worker = Awake | Asleep(deadline: Option<int>) | Busy | Exited

  /** `log` lists the tasks taken, the last one still running while the worker is
      busy; `history` lists the tasks inserted; `freed` those freed at shutdown. */
  datatype State = State(
    clock: int, pending: seq<Task>, log: seq<Taken>, worker: Worker, running: bool,
    history: seq<Task>, freed: seq<Task>)

  function Start(clock: int): State {
    State(clock, [], [], Awake, true, [], [])
  }

  /** `InsertAt` is the locked part of `insert_task_at`, with any time: the clock
      reading of `insert_task_in` may be old by then. `InsertIn` is `insert_task_in`
      with reading and insertion in one step. */
  datatype Step =
    | Tick(ms: nat)
    | InsertAt(time: int)
    | InsertIn(delay: int)
    | Take
    | Finish
    | Sleep
    | Wake
    | Stop
    | Exit
    | FreeRest

  predicate Enabled(s: State, step: Step) {
    match step
    case Tick(_) => true
    case InsertAt(_) => true
    case InsertIn(_) => true
    case Take => s.worker.Awake? && s.running && s.pending != [] && s.pending[0].time <= s.clock
    case Finish => s.worker.Busy?
    case Sleep => s.worker.Awake? && s.running && (s.pending == [] || s.pending[0].time > s.clock)
    case Wake => s.worker.Asleep?
    case Stop => true
    case Exit => s.worker.Awake? && !s.running
    case FreeRest => s.worker.Exited?
  }

  /** A signal wakes the worker. */
  function Signalled(w: Worker): Worker {
    if w.Asleep? then Awake else w
  }

  function Insert(s: State, time: int): State {
    var t := Task(time, |s.history|);
    s.(pending := Inserted(DUE_TIME, s.pending, t), history := s.history + [t], worker := Signalled(s.worker))
  }

  function Next(s: State, step: Step): State
    requires Enabled(s, step)
  {
    match step
    case Tick(ms) => s.(clock := s.clock + ms)
    case InsertAt(time) => Insert(s, time)
    case InsertIn(delay) => Insert(s, s.clock + delay)
    case Take => s.(pending := s.pending[1..], log := s.log + [Taken(s.pending[0], s.clock)], worker := Busy)
    case Finish => s.(worker := Awake)
    case Sleep => s.(worker := Asleep(if s.pending == [] then None else Some(s.clock + (s.pending[0].time - s.clock))))
    case Wake => s.(worker := Awake)
    case Stop => s.(running := false, worker := Signalled(s.worker))
    case Exit => s.(worker := Exited)
    case FreeRest => s.(pending := [], freed := s.freed + s.pending)
  }

  predicate CanRun(s: State, steps: seq<Step>)
    decreases |steps|
  {
    steps == [] || (Enabled(s, steps[0]) && CanRun(Next(s, steps[0]), steps[1..]))
  }

  function Run(s: State, steps: seq<Step>): State
    requires CanRun(s, steps)
    decreases |steps|
  {
    if steps == [] then s else Run(Next(s, steps[0]), steps[1..])
  }

  // --------------------------------------------------------- what always holds

  function Tasks(log: seq<Taken>): (r: seq<Task>)
    ensures |r| == |log| && forall i | 0 <= i < |log| :: r[i] == log[i].task
  {
    seq(|log|, i requires 0 <= i < |log| => log[i].task)
  }

  /** Every inserted task is in exactly one place. */
  ghost predicate Conserved(s: State) {
    multiset(s.history) == multiset(s.pending) + multiset(Tasks(s.log)) + multiset(s.freed)
  }

  /** No task is taken early, and the worker takes them as the clock goes. */
  predicate NoneEarly(s: State) {
    && (forall i | 0 <= i < |s.log| :: s.log[i].task.time <= s.log[i].at <= s.clock)
    && (forall i, j | 0 <= i < j < |s.log| :: s.log[i].at <= s.log[j].at)
  }

  /** The orders of insertion are the positions in the history. */
  predicate Numbered(s: State) {
    && (forall i | 0 <= i < |s.history| :: s.history[i].order == i)
    && (forall t | t in s.pending :: t.order < |s.history|)
    && (forall i | 0 <= i < |s.log| :: s.log[i].task.order < |s.history|)
  }

  /** A sleeping worker waits for the earliest pending task. */
  predicate WakesInTime(s: State) {
    s.worker.Asleep? ==>
      s.running && s.worker.deadline == if s.pending == [] then None else Some(s.pending[0].time)
  }

  ghost predicate Inv(s: State) {
    Sorted(s.pending) && Conserved(s) && NoneEarly(s) && Numbered(s) && WakesInTime(s)
  }

  // ---------------------------------------------------------- sorted insertion

  lemma {:induction false} InsertedElements(q: seq<Task>, t: Task)
    ensures multiset(Inserted(DUE_TIME, q, t)) == multiset(q) + multiset{t}
    decreases |q|
  {
    if q != [] && DUE_TIME(t) >= DUE_TIME(q[0]) {
      InsertedElements(q[1..], t);
      assert q == [q[0]] + q[1..];
    }
  }

  lemma InsertedMembers(q: seq<Task>, t: Task)
    ensures forall x :: x in Inserted(DUE_TIME, q, t) <==> x in q || x == t
  {
  }

  lemma SortedCons(x: Task, q: seq<Task>)
    ensures Sorted([x] + q) <==> Sorted(q) && forall y | y in q :: Before(x, y)
  {
    var r := [x] + q;
    assert forall i | 0 <= i < |q| :: q[i] == r[i + 1];
    if Sorted(r) {
      forall y | y in q
        ensures Before(x, y)
      {
        var i :| 0 <= i < |q| && q[i] == y;
        assert Before(r[0], r[i + 1]);
      }
    }
  }

  /** A task inserted last goes behind those of the same time: the list stays sorted
      by time, equal times in insertion order. */
  lemma {:induction false} InsertedSorted(q: seq<Task>, t: Task)
    requires Sorted(q) && forall x | x in q :: x.order < t.order
    ensures Sorted(Inserted(DUE_TIME, q, t))
    decreases |q|
  {
    if q == [] {
    } else {
      assert q == [q[0]] + q[1..];
      SortedCons(q[0], q[1..]);
      if t.time < q[0].time {
        SortedCons(t, q);
      } else {
        InsertedSorted(q[1..], t);
        InsertedMembers(q[1..], t);
        SortedCons(q[0], Inserted(DUE_TIME, q[1..], t));
      }
    }
  }

  // ------------------------------------------------------------- preservation

  lemma InsertKeeps(s: State, time: int)
    requires Inv(s)
    ensures Inv(Insert(s, time))
  {
    var t := Task(time, |s.history|);
    InsertedSorted(s.pending, t);
    InsertedElements(s.pending, t);
    InsertedMembers(s.pending, t);
  }

  lemma TakeConserves(s: State)
    requires Conserved(s) && Enabled(s, Take)
    ensures Conserved(Next(s, Take))
  {
    var t := s.pending[0];
    assert s.pending == [t] + s.pending[1..];
    assert Tasks(s.log + [Taken(t, s.clock)]) == Tasks(s.log) + [t];
  }

  lemma TakeNotEarly(s: State)
    requires NoneEarly(s) && Enabled(s, Take)
    ensures NoneEarly(Next(s, Take))
  {
  }

  lemma TakeNumbered(s: State)
    requires Sorted(s.pending) && Numbered(s) && Enabled(s, Take)
    ensures Sorted(Next(s, Take).pending) && Numbered(Next(s, Take))
  {
  }

  lemma TakeKeeps(s: State)
    requires Inv(s) && Enabled(s, Take)
    ensures Inv(Next(s, Take))
  {
    TakeConserves(s);
    TakeNotEarly(s);
    TakeNumbered(s);
  }

  lemma StepKeeps(s: State, step: Step)
    requires Inv(s) && Enabled(s, step)
    ensures Inv(Next(s, step))
  {
    match step
    case InsertAt(time) => InsertKeeps(s, time);
    case InsertIn(delay) => InsertKeeps(s, s.clock + delay);
    case Take => TakeKeeps(s);
    case FreeRest =>
    case Tick(_) =>
    case Finish =>
    case Sleep =>
    case Wake =>
    case Stop =>
    case Exit =>
  }

  lemma {:induction false} RunKeeps(s: State, steps: seq<Step>)
    requires Inv(s) && CanRun(s, steps)
    ensures Inv(Run(s, steps))
    decreases |steps|
  {
    if steps != [] {
      StepKeeps(s, steps[0]);
      RunKeeps(Next(s, steps[0]), steps[1..]);
    }
  }

  /** In every interleaving: the pending list is sorted, nothing is lost or taken
      twice, no task is early, and no wakeup is missed. */
  lemma EveryRunIsSafe(clock: int, steps: seq<Step>)
    requires CanRun(Start(clock), steps)
    ensures Inv(Run(Start(clock), steps))
  {
    RunKeeps(Start(clock), steps);
  }

  /** A pop takes a task that is due, and the earliest there is. */
  lemma TakesEarliest(s: State)
    requires Inv(s) && Enabled(s, Take)
    ensures var t := Next(s, Take).log[|s.log|].task;
            && t in s.pending && t.time <= s.clock
            && forall p | p in s.pending :: p == t || Before(t, p)
  {
  }

  // ------------------------------------------------------------------ progress

  lemma RunStep(s: State, steps: seq<Step>)
    requires steps != [] && Enabled(s, steps[0])
    ensures CanRun(s, steps) == CanRun(Next(s, steps[0]), steps[1..])
    ensures CanRun(s, steps) ==> Run(s, steps) == Run(Next(s, steps[0]), steps[1..])
  {
  }

  /** A worker that is awake takes a task when any pending one is due, and sleeps
      until the earliest otherwise; a wakeup, an insertion or a stop never leaves it
      asleep. */
  lemma WorkerDecides(s: State, time: int)
    requires Inv(s) && s.running
    ensures s.worker.Awake? ==> (Enabled(s, Take) <==> exists t :: t in s.pending && t.time <= s.clock)
    ensures s.worker.Awake? ==> (Enabled(s, Sleep) <==> forall t | t in s.pending :: t.time > s.clock)
    ensures Enabled(s, Sleep) ==>
              Next(s, Sleep).worker == Asleep(if s.pending == [] then None else Some(s.pending[0].time))
    ensures s.worker.Asleep? ==> Enabled(s, Wake) && Next(s, Wake).worker.Awake?
    ensures !Next(s, InsertAt(time)).worker.Asleep? && !Next(s, InsertIn(time)).worker.Asleep?
    ensures !Next(s, Stop).worker.Asleep?
  {
    if s.pending != [] {
      assert s.pending[0] in s.pending;
      forall t | t in s.pending
        ensures s.pending[0].time <= t.time
      {
        var i :| 0 <= i < |s.pending| && s.pending[i] == t;
        assert i > 0 ==> Before(s.pending[0], t);
      }
    }
  }

  /** The worker's turns for `n` tasks. */
  function Serve(n: nat): seq<Step> {
    if n == 0 then [] else [Take, Finish] + Serve(n - 1)
  }

  lemma ServeOne(s: State, n: nat)
    requires n > 0 && Enabled(s, Take)
    ensures var s' := Next(Next(s, Take), Finish);
            CanRun(s, Serve(n)) == CanRun(s', Serve(n - 1)) &&
            (CanRun(s, Serve(n)) ==> Run(s, Serve(n)) == Run(s', Serve(n - 1)))
  {
    var steps := Serve(n);
    assert steps[0] == Take && steps[1..][0] == Finish && steps[1..][1..] == Serve(n - 1);
    RunStep(s, steps);
    RunStep(Next(s, Take), steps[1..]);
  }

  predicate AllDue(s: State) {
    s.worker.Awake? && s.running && forall i | 0 <= i < |s.pending| :: s.pending[i].time <= s.clock
  }

  lemma Served(s: State)
    requires AllDue(s) && s.pending != []
    ensures Enabled(s, Take)
    ensures var s' := Next(Next(s, Take), Finish);
            AllDue(s') && s'.pending == s.pending[1..] && Tasks(s'.log) == Tasks(s.log) + [s.pending[0]]
  {
  }

  /** Once all pending tasks are due, the worker's turns take them all, in their order. */
  lemma {:induction false} ServesAll(s: State)
    requires AllDue(s)
    ensures CanRun(s, Serve(|s.pending|))
    ensures var end := Run(s, Serve(|s.pending|));
            end.pending == [] && Tasks(end.log) == Tasks(s.log) + s.pending && end.worker.Awake?
    decreases |s.pending|
  {
    if s.pending == [] {
      assert Tasks(s.log) + [] == Tasks(s.log);
    } else {
      Served(s);
      ServeOne(s, |s.pending|);
      ServesAll(Next(Next(s, Take), Finish));
      AppendAssoc(Tasks(s.log), [s.pending[0]], s.pending[1..]);
      assert s.pending == [s.pending[0]] + s.pending[1..];
    }
  }

  /** What is left of a run at shutdown: a running task is finished first. */
  function Shutdown(s: State): seq<Step> {
    [Stop] + (if s.worker.Busy? then [Finish] else []) + [Exit, FreeRest]
  }

  /** A shutdown is always possible: it takes no task, and frees all that are pending. */
  lemma ShutdownFrees(s: State)
    requires Inv(s) && !s.worker.Exited?
    ensures CanRun(s, Shutdown(s))
    ensures var end := Run(s, Shutdown(s));
            end.worker.Exited? && end.pending == [] && end.log == s.log && end.freed == s.freed + s.pending
  {
    var steps, s1 := Shutdown(s), Next(s, Stop);
    RunStep(s, steps);
    var s2 := if s.worker.Busy? then Next(s1, Finish) else s1;
    if s.worker.Busy? {
      RunStep(s1, steps[1..]);
    }
    var last := [Exit, FreeRest];
    assert (if s.worker.Busy? then steps[1..][1..] else steps[1..]) == last;
    RunStep(s2, last);
    assert last[1..] == [FreeRest];
    RunStep(Next(s2, Exit), [FreeRest]);
  }

  // --------------------------------------------------- the order of execution

  ghost predicate InOrder(s: State) {
    Sorted(Tasks(s.log)) && forall i, p | 0 <= i < |s.log| && p in s.pending :: Before(s.log[i].task, p)
  }

  /** The time a step inserts at, if it inserts. */
  function InsertTime(s: State, step: Step): Option<int> {
    match step
    case InsertAt(time) => Some(time)
    case InsertIn(delay) => Some(s.clock + delay)
    case _ => None
  }

  /** The step inserts no task earlier than one already taken. */
  predicate Timely(s: State, step: Step) {
    var time := InsertTime(s, step);
    time.Some? ==> forall i | 0 <= i < |s.log| :: s.log[i].task.time <= time.value
  }

  predicate AllTimely(s: State, steps: seq<Step>)
    requires CanRun(s, steps)
    decreases |steps|
  {
    steps == [] || (Timely(s, steps[0]) && AllTimely(Next(s, steps[0]), steps[1..]))
  }

  lemma InsertKeepsOrder(s: State, time: int)
    requires Inv(s) && InOrder(s) && forall i | 0 <= i < |s.log| :: s.log[i].task.time <= time
    ensures InOrder(Insert(s, time))
  {
    InsertedMembers(s.pending, Task(time, |s.history|));
  }

  lemma TakeKeepsOrder(s: State)
    requires Inv(s) && InOrder(s) && Enabled(s, Take)
    ensures InOrder(Next(s, Take))
  {
    var t, rest, log, s' := s.pending[0], s.pending[1..], Tasks(s.log), Next(s, Take);
    assert s.pending == [t] + rest;
    SortedCons(t, rest);
    assert Tasks(s'.log) == log + [t];
    forall i, j | 0 <= i < j < |s'.log|
      ensures Before(Tasks(s'.log)[i], Tasks(s'.log)[j])
    {
      if j < |log| {
        assert Before(log[i], log[j]);
      } else {
        assert t in s.pending && Before(s.log[i].task, t);
        assert Tasks(s'.log)[i] == s.log[i].task && Tasks(s'.log)[j] == t;
      }
    }
    forall i, p | 0 <= i < |s'.log| && p in s'.pending
      ensures Before(s'.log[i].task, p)
    {
      if i < |log| {
        assert p in s.pending && Before(s.log[i].task, p);
      }
    }
  }

  lemma TimelyKeepsOrder(s: State, step: Step)
    requires Inv(s) && InOrder(s) && Enabled(s, step) && Timely(s, step)
    ensures InOrder(Next(s, step))
  {
    match step
    case InsertAt(time) => InsertKeepsOrder(s, time);
    case InsertIn(delay) => InsertKeepsOrder(s, s.clock + delay);
    case Take => TakeKeepsOrder(s);
    case Tick(_) =>
    case Finish =>
    case Sleep =>
    case Wake =>
    case Stop =>
    case Exit =>
    case FreeRest =>
  }

  lemma {:induction false} TimelyRunInOrder(s: State, steps: seq<Step>)
    requires Inv(s) && InOrder(s) && CanRun(s, steps) && AllTimely(s, steps)
    ensures InOrder(Run(s, steps))
    decreases |steps|
  {
    if steps != [] {
      StepKeeps(s, steps[0]);
      TimelyKeepsOrder(s, steps[0]);
      TimelyRunInOrder(Next(s, steps[0]), steps[1..]);
    }
  }

  /** The task is still to be taken, was freed, or was taken after log entry `i`. */
  ghost predicate Follows(s: State, i: nat, t: Task) {
    t in s.pending || t in s.freed || exists j :: i < j < |s.log| && s.log[j].task == t
  }

  /** Some task comes after one it should precede. */
  ghost predicate Overtaken(s: State) {
    exists i: nat, t :: i < |s.log| && Before(t, s.log[i].task) && Follows(s, i, t)
  }

  lemma LateOvertakes(s: State, step: Step)
    requires Enabled(s, step) && !Timely(s, step)
    ensures Overtaken(Next(s, step))
  {
    var t := Task(InsertTime(s, step).value, |s.history|);
    InsertedMembers(s.pending, t);
    var i :| 0 <= i < |s.log| && s.log[i].task.time > t.time;
    var s' := Next(s, step);
    assert Before(t, s'.log[i].task) && Follows(s', i, t);
  }

  lemma FollowsStays(s: State, step: Step, i: nat, t: Task)
    requires Enabled(s, step) && i < |s.log| && Follows(s, i, t)
    ensures Follows(Next(s, step), i, t)
  {
    var s' := Next(s, step);
    var time := InsertTime(s, step);
    if t in s.freed {
    } else if t !in s.pending {
      var j :| i < j < |s.log| && s.log[j].task == t;
      assert s'.log[j].task == t;
    } else if time.Some? {
      InsertedMembers(s.pending, Task(time.value, |s.history|));
    } else if step.Take? {
      assert s.pending == [s.pending[0]] + s.pending[1..];
      assert s'.log[|s.log|].task == s.pending[0];
    }
  }

  lemma OvertakenStays(s: State, step: Step)
    requires Enabled(s, step) && Overtaken(s)
    ensures Overtaken(Next(s, step))
  {
    var i: nat, t :| i < |s.log| && Before(t, s.log[i].task) && Follows(s, i, t);
    FollowsStays(s, step, i, t);
    assert Next(s, step).log[i] == s.log[i];
  }

  lemma {:induction false} OvertakenRun(s: State, steps: seq<Step>)
    requires CanRun(s, steps) && (Overtaken(s) || !AllTimely(s, steps))
    ensures Overtaken(Run(s, steps))
    decreases |steps|
  {
    if steps != [] {
      if Overtaken(s) {
        OvertakenStays(s, steps[0]);
      } else if !Timely(s, steps[0]) {
        LateOvertakes(s, steps[0]);
      }
      OvertakenRun(Next(s, steps[0]), steps[1..]);
    }
  }

  /** A run that ends with every task taken has taken them all in order of (time,
      insertion) exactly when no insertion came too late. */
  lemma LogSortedExact(clock: int, steps: seq<Step>)
    requires CanRun(Start(clock), steps)
    requires var end := Run(Start(clock), steps); end.pending == [] && end.freed == []
    ensures Sorted(Tasks(Run(Start(clock), steps).log)) <==> AllTimely(Start(clock), steps)
  {
    var end := Run(Start(clock), steps);
    if AllTimely(Start(clock), steps) {
      TimelyRunInOrder(Start(clock), steps);
    } else {
      OvertakenRun(Start(clock), steps);
      var i: nat, t :| i < |end.log| && Before(t, end.log[i].task) && Follows(end, i, t);
      var j :| i < j < |end.log| && end.log[j].task == t;
      assert !Before(Tasks(end.log)[i], Tasks(end.log)[j]);
    }
  }

  /** Clock reading and insertion in one step, with no negative delay. */
  predicate Atomic(steps: seq<Step>) {
    forall step | step in steps :: !step.InsertAt? && (step.InsertIn? ==> step.delay >= 0)
  }

  lemma {:induction false} AtomicIsTimely(s: State, steps: seq<Step>)
    requires Inv(s) && CanRun(s, steps) && Atomic(steps)
    ensures AllTimely(s, steps)
    decreases |steps|
  {
    if steps != [] {
      assert steps[0] in steps;
      StepKeeps(s, steps[0]);
      AtomicIsTimely(Next(s, steps[0]), steps[1..]);
    }
  }

  /** Then the whole log is sorted by time and insertion order, at every moment. */
  lemma AtomicRunsInOrder(clock: int, steps: seq<Step>)
    requires CanRun(Start(clock), steps) && Atomic(steps)
    ensures Sorted(Tasks(Run(Start(clock), steps).log))
  {
    AtomicIsTimely(Start(clock), steps);
    TimelyRunInOrder(Start(clock), steps);
  }

  /** The program reads the clock before it takes the lock. A thread that reads 0 for
      a delay of 0 and inserts after the clock has moved on comes too late. */
  function StaleRead(late: nat): seq<Step> {
    [Tick(late), InsertIn(0), Take, Finish, InsertAt(0), Take, Finish]
  }

  lemma StaleReadOutOfOrder(late: nat)
    requires late > 0
    ensures CanRun(Start(0), StaleRead(late))
    ensures !Sorted(Tasks(Run(Start(0), StaleRead(late)).log))
  {
    var steps := StaleRead(late);
    var s0 := Start(0);
    var s1 := Next(s0, Tick(late));
    var s2 := Next(s1, InsertIn(0));
    var s3 := Next(s2, Take);
    var s4 := Next(s3, Finish);
    var s5 := Next(s4, InsertAt(0));
    var s6 := Next(s5, Take);
    var s7 := Next(s6, Finish);
    assert s7.log[0].task.time == late && s7.log[1].task.time == 0;
    assert !Before(Tasks(s7.log)[0], Tasks(s7.log)[1]);
    RunStep(s0, steps);
    RunStep(s1, steps[1..]);
    RunStep(s2, steps[2..]);
    RunStep(s3, steps[3..]);
    RunStep(s4, steps[4..]);
    RunStep(s5, steps[5..]);
    RunStep(s6, steps[6..]);
    assert steps[7..] == [];
  }
}
