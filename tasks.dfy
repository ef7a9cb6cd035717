/**
 * Delayed tasks and the task manager that runs them. A task is due once
 * its delay, its due time minus the current time, is at most zero. The
 * manager's queue hands out due tasks earliest first.
 */
module Tasks {
  import opened Strings

  /** A task with its due time in milliseconds since the epoch and the work it does. */
  datatype Task<J> = Task(dueTimeMillis: int, job: J)

  /** The Task constructor: due `delayMillis` after the current time. */
  function NewTask<J>(nowMillis: int, delayMillis: int, job: J): Task<J> {
    Task(nowMillis + delayMillis, job)
  }

  /** getDelay in milliseconds. */
  function GetDelay<J>(t: Task<J>, nowMillis: int): int {
    t.dueTimeMillis - nowMillis
  }

  predicate IsDue<J>(t: Task<J>, nowMillis: int) {
    GetDelay(t, nowMillis) <= 0
  }

  /** A new task waits exactly its delay, and becomes due once that much time has passed. */
  lemma NewTaskDelay<J>(nowMillis: int, delayMillis: int, job: J, laterMillis: int)
    ensures GetDelay(NewTask(nowMillis, delayMillis, job), nowMillis) == delayMillis
    ensures IsDue(NewTask(nowMillis, delayMillis, job), laterMillis) <==> laterMillis >= nowMillis + delayMillis
  {
  }

  const TwoTo32: int := 0x1_0000_0000

  /** The (int) cast of a long: the value congruent to x modulo 2^32 within the int range. */
  function ToInt32(x: int): (r: int)
    ensures InInt32(r)
    ensures (x - r) % TwoTo32 == 0
    ensures InInt32(x) ==> r == x
  {
    var low := x % TwoTo32;
    if low <= MaxInt32 then low else low - TwoTo32
  }

  /** compareTo as written: the difference of the due times cast to int. */
  function CompareToAsWritten<J>(a: Task<J>, b: Task<J>): int {
    ToInt32(a.dueTimeMillis - b.dueTimeMillis)
  }

  /** Two tasks due 2^31 + 1 ms apart compare in the wrong order. */
  lemma CompareToAsWrittenMisorders<J>(job: J)
    ensures Task(0, job).dueTimeMillis < Task(0x8000_0001, job).dueTimeMillis
    ensures CompareToAsWritten(Task(0, job), Task(0x8000_0001, job)) > 0
  {
    assert (0 - 0x8000_0001) % TwoTo32 == 0x7fff_ffff;
  }

  /** While due times are less than 2^31 ms apart, the cast changes nothing. */
  lemma CompareToAsWrittenExactWhenClose<J>(a: Task<J>, b: Task<J>)
    requires InInt32(a.dueTimeMillis - b.dueTimeMillis)
    ensures CompareToAsWritten(a, b) == a.dueTimeMillis - b.dueTimeMillis
  {
  }

  /** compareTo as intended: the sign of the due-time difference, without truncation. */
  function CompareTo<J>(a: Task<J>, b: Task<J>): (r: int)
    ensures r < 0 <==> a.dueTimeMillis < b.dueTimeMillis
    ensures r == 0 <==> a.dueTimeMillis == b.dueTimeMillis
    ensures r > 0 <==> a.dueTimeMillis > b.dueTimeMillis
  {
    if a.dueTimeMillis < b.dueTimeMillis then -1
    else if a.dueTimeMillis == b.dueTimeMillis then 0
    else 1
  }

  /** The corrected comparison is a total preorder: antisymmetric in sign and transitive. */
  lemma CompareToIsOrdering<J>(a: Task<J>, b: Task<J>, c: Task<J>)
    ensures CompareTo(a, b) < 0 <==> CompareTo(b, a) > 0
    ensures CompareTo(a, b) <= 0 && CompareTo(b, c) <= 0 ==> CompareTo(a, c) <= 0
  {
  }

  /** Whenever the cast changes nothing, the two comparisons agree in sign. */
  lemma CompareToAgreesWhenClose<J>(a: Task<J>, b: Task<J>)
    requires InInt32(a.dueTimeMillis - b.dueTimeMillis)
    ensures CompareToAsWritten(a, b) < 0 <==> CompareTo(a, b) < 0
    ensures CompareToAsWritten(a, b) == 0 <==> CompareTo(a, b) == 0
  {
  }

  /** Earlier due times first. */
  predicate SortedByDue<J>(q: seq<Task<J>>) {
    forall i, j :: 0 <= i < j < |q| ==> q[i].dueTimeMillis <= q[j].dueTimeMillis
  }

  /** The queue after put: the task goes after every task due no later than it. */
  function InsertByDue<J>(q: seq<Task<J>>, t: Task<J>): seq<Task<J>> {
    if |q| == 0 then [t]
    else if CompareTo(t, q[0]) < 0 then [t] + q
    else [q[0]] + InsertByDue(q[1..], t)
  }

  /** Putting a task into a queue adds exactly that task. */
  lemma {:induction false} InsertByDueAddsTask<J>(q: seq<Task<J>>, t: Task<J>)
    ensures multiset(InsertByDue(q, t)) == multiset(q) + multiset{t}
  {
    if |q| > 0 && CompareTo(t, q[0]) >= 0 {
      InsertByDueAddsTask(q[1..], t);
      assert q == [q[0]] + q[1..];
      assert multiset(q) == multiset{q[0]} + multiset(q[1..]);
    }
  }

  /** Every task in the result is due no earlier than a bound on the queue and the task. */
  lemma {:induction false} InsertByDueBounded<J>(q: seq<Task<J>>, t: Task<J>, lo: int)
    requires forall i :: 0 <= i < |q| ==> lo <= q[i].dueTimeMillis
    requires lo <= t.dueTimeMillis
    ensures forall i :: 0 <= i < |InsertByDue(q, t)| ==> lo <= InsertByDue(q, t)[i].dueTimeMillis
  {
    if |q| > 0 && CompareTo(t, q[0]) >= 0 {
      InsertByDueBounded(q[1..], t, lo);
    }
  }

  /** Putting a task into a sorted queue keeps it sorted. */
  lemma {:induction false} InsertByDueSorted<J>(q: seq<Task<J>>, t: Task<J>)
    requires SortedByDue(q)
    ensures SortedByDue(InsertByDue(q, t))
  {
    if |q| > 0 && CompareTo(t, q[0]) >= 0 {
      var rest := InsertByDue(q[1..], t);
      InsertByDueSorted(q[1..], t);
      InsertByDueBounded(q[1..], t, q[0].dueTimeMillis);
      assert InsertByDue(q, t) == [q[0]] + rest;
    }
  }

  /** The due tasks of a queue, in queue order. */
  function DueTasks<J>(q: seq<Task<J>>, nowMillis: int): seq<Task<J>> {
    if |q| == 0 then []
    else (if IsDue(q[0], nowMillis) then [q[0]] else []) + DueTasks(q[1..], nowMillis)
  }

  /** The tasks of a queue that are not yet due, in queue order. */
  function WaitingTasks<J>(q: seq<Task<J>>, nowMillis: int): seq<Task<J>> {
    if |q| == 0 then []
    else (if IsDue(q[0], nowMillis) then [] else [q[0]]) + WaitingTasks(q[1..], nowMillis)
  }

  /** In a sorted queue the due tasks come first, so a queue without a due head has none. */
  lemma {:induction false} NoDueAfterWaitingHead<J>(q: seq<Task<J>>, nowMillis: int)
    requires SortedByDue(q) && |q| > 0 && !IsDue(q[0], nowMillis)
    ensures DueTasks(q, nowMillis) == [] && WaitingTasks(q, nowMillis) == q
  {
    if |q| > 1 {
      NoDueAfterWaitingHead(q[1..], nowMillis);
    }
  }

  /** Splitting a queue into due and waiting tasks loses nothing. */
  lemma {:induction false} DueAndWaitingPartition<J>(q: seq<Task<J>>, nowMillis: int)
    ensures multiset(DueTasks(q, nowMillis)) + multiset(WaitingTasks(q, nowMillis)) == multiset(q)
    ensures forall t :: t in DueTasks(q, nowMillis) ==> IsDue(t, nowMillis)
    ensures forall t :: t in WaitingTasks(q, nowMillis) ==> !IsDue(t, nowMillis)
  {
    if |q| > 0 {
      DueAndWaitingPartition(q[1..], nowMillis);
      assert q == [q[0]] + q[1..];
    }
  }

  /** The task manager: its delay queue, the batch being run, and whether its loop runs. */
  class TaskManager<J> {
    var queue: seq<Task<J>>
    var currentTasks: seq<Task<J>>
    var running: bool

    ghost predicate Valid()
      reads this
    {
      SortedByDue(queue)
    }

    constructor()
      ensures Valid() && queue == [] && currentTasks == [] && !running
    {
      queue := [];
      currentTasks := [];
      running := false;
    }

    /** schedule: puts the task into the queue. */
    method Schedule(t: Task<J>)
      requires Valid()
      modifies this`queue
      ensures Valid()
      ensures multiset(queue) == old(multiset(queue)) + multiset{t}
    {
      InsertByDueSorted(queue, t);
      InsertByDueAddsTask(queue, t);
      queue := InsertByDue(queue, t);
    }

    /** halt: the loop stops before its next round. */
    method Halt()
      modifies this`running
      ensures !running
    {
      running := false;
    }

    /** The start of run: the loop keeps going until halted. */
    method Start()
      modifies this`running
      ensures running
    {
      running := true;
    }

    /**
     * drainTo: moves the due tasks, earliest first, to the end of the batch;
     * the tasks not yet due stay queued.
     */
    method DrainDue(nowMillis: int)
      requires Valid()
      modifies this`queue, this`currentTasks
      ensures Valid()
      ensures currentTasks == old(currentTasks) + DueTasks(old(queue), nowMillis)
      ensures queue == WaitingTasks(old(queue), nowMillis)
    {
      ghost var q0 := queue;
      while |queue| > 0 && IsDue(queue[0], nowMillis)
        invariant |old(currentTasks)| <= |currentTasks| && currentTasks[..|old(currentTasks)|] == old(currentTasks)
        invariant SortedByDue(queue)
        invariant DueTasks(q0, nowMillis) == currentTasks[|old(currentTasks)|..] + DueTasks(queue, nowMillis)
        invariant WaitingTasks(q0, nowMillis) == WaitingTasks(queue, nowMillis)
        decreases |queue|
      {
        currentTasks := currentTasks + [queue[0]];
        queue := queue[1..];
      }
      if |queue| > 0 {
        NoDueAfterWaitingHead(queue, nowMillis);
      }
      assert currentTasks == old(currentTasks) + currentTasks[|old(currentTasks)|..];
    }

    /** The end of a round: the batch is emptied. */
    method ClearBatch()
      modifies this`currentTasks
      ensures currentTasks == []
    {
      currentTasks := [];
    }
  }
}
