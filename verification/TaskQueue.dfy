/** The timed task queue (core/src/task.c): the linked list of pending tasks, and the
    state machine of what threads do to it between lock and unlock. */
module TaskQueue {
  import opened Lists

  /** `insert_task_locked` on a list: before the first task with a later time. */
  function Inserted<T>(time: T -> int, q: seq<T>, t: T): seq<T> {
    if q == [] || time(t) < time(q[0]) then [t] + q else [q[0]] + Inserted(time, q[1..], t)
  }

  // ---------------------------------------------------------- the linked list

  class TimedTask {
    const time: int
    var next: TimedTask?

    constructor (time: int)
      ensures this.time == time && next == null
    {
      this.time := time;
      this.next := null;
    }
  }

  const TIME_OF: TimedTask -> int := (t: TimedTask) => t.time

  function After(s: seq<TimedTask>, i: nat): TimedTask? {
    if i + 1 < |s| then s[i + 1] else null
  }

  class TaskList {
    var head: TimedTask?
    ghost var tasks: seq<TimedTask>

    ghost predicate Valid()
      reads this, tasks
    {
      && (head == if tasks == [] then null else tasks[0])
      && (forall i {:trigger tasks[i]} | 0 <= i < |tasks| :: tasks[i].next == After(tasks, i))
    }

    constructor ()
      ensures Valid() && tasks == []
    {
      head := null;
      tasks := [];
    }

    /** The walk of `insert_task_locked`: to the last task not later than `task`. */
    method Walk(task: TimedTask) returns (cur: TimedTask, ghost i: nat)
      requires Valid() && tasks != [] && task.time >= tasks[0].time
      ensures i < |tasks| && cur == tasks[i]
      ensures Inserted(TIME_OF, tasks, task) == tasks[..i + 1] + [task] + tasks[i + 1..]
    {
      cur, i := head, 0;
      while cur.next != null && cur.next.time <= task.time
        invariant i < |tasks| && cur == tasks[i]
        invariant Inserted(TIME_OF, tasks, task) == tasks[..i + 1] + Inserted(TIME_OF, tasks[i + 1..], task)
        decreases |tasks| - i
      {
        assert tasks[i + 1..][1..] == tasks[i + 2..];
        assert tasks[..i + 2] == tasks[..i + 1] + [tasks[i + 1]];
        AppendAssoc(tasks[..i + 1], [tasks[i + 1]], Inserted(TIME_OF, tasks[i + 2..], task));
        cur, i := cur.next, i + 1;
      }
      assert Inserted(TIME_OF, tasks[i + 1..], task) == [task] + tasks[i + 1..];
      AppendAssoc(tasks[..i + 1], [task], tasks[i + 1..]);
    }

    /** A chain that ends repeats no task. */
    lemma {:induction false} NoRepeat(i: nat, j: nat)
      requires Valid() && i < j < |tasks|
      ensures tasks[i] != tasks[j]
      decreases |tasks| - j
    {
      if tasks[i] == tasks[j] {
        assert After(tasks, i) == After(tasks, j);
        NoRepeat(i + 1, j + 1);
      }
    }

    lemma NoOther(i: nat)
      requires Valid() && i < |tasks|
      ensures forall j | 0 <= j < |tasks| && j != i :: tasks[j] != tasks[i]
    {
      forall j | 0 <= j < |tasks| && j != i
        ensures tasks[j] != tasks[i]
      {
        NoRepeat(if i < j then i else j, if i < j then j else i);
      }
    }

    method LinkAfter(cur: TimedTask, ghost i: nat, task: TimedTask)
      requires Valid() && task !in tasks && i < |tasks| && tasks[i] == cur
      modifies this, task, cur
      ensures Valid() && tasks == old(tasks)[..i + 1] + [task] + old(tasks)[i + 1..]
    {
      ghost var before := tasks;
      NoOther(i);
      task.next := cur.next;
      cur.next := task;
      tasks := tasks[..i + 1] + [task] + tasks[i + 1..];
      forall j | 0 <= j < |tasks|
        ensures tasks[j].next == After(tasks, j)
      {
        if j < i {
          assert tasks[j] == before[j] && before[j].next == After(before, j);
        } else if j > i + 1 {
          assert tasks[j] == before[j - 1] && before[j - 1].next == After(before, j - 1);
        }
      }
    }

    /** `insert_task_locked`. */
    method Insert(task: TimedTask) returns (atHead: bool)
      requires Valid() && task !in tasks
      modifies this, task, tasks
      ensures Valid() && tasks == Inserted(TIME_OF, old(tasks), task)
      ensures atHead == (old(tasks) == [] || task.time < old(tasks)[0].time)
    {
      if head == null || task.time < head.time {
        task.next := head;
        head := task;
        tasks := [task] + tasks;
        return true;
      }
      var cur, i := Walk(task);
      LinkAfter(cur, i, task);
      return false;
    }

    /** The worker's look at the list: unlinks and returns the head when it is due. */
    method PopDue(now: int) returns (due: TimedTask?)
      requires Valid()
      modifies this
      ensures Valid()
      ensures if old(tasks) != [] && old(tasks)[0].time <= now
              then due == old(tasks)[0] && tasks == old(tasks)[1..]
              else due == null && tasks == old(tasks)
    {
      if head == null || head.time > now {
        return null;
      }
      due := head;
      assert tasks[0].next == head.next;
      head := head.next;
      tasks := tasks[1..];
    }
  }
}
