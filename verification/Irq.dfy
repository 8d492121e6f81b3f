/** Deferred interrupts of src/irq.c: irq_add_task and the nested dispatch loop of do_irq.

    One thread of control.  An interrupt may arrive before the queue is first looked at, while a
    handler runs and after a task has been unlinked; what arrives when is written down in the
    interrupt and the task themselves, so that every finite pattern of nesting is some interrupt.
    No interrupt is taken between a test of the queue and the setting of `running`. */
module Irq {
  import opened Common
  import opened Lists
  import opened Queues

  /** A deferred handler, the interrupts that arrive while it runs, and those that arrive after its
      task is freed and before the queue is looked at again. */
  datatype Job = Job(id: nat, priority: int, during: seq<Interrupt>, after: seq<Interrupt>)

  /** What the switch statement of do_irq queues, the timer handler or nothing; and the interrupts that
      arrive behind it, before the queue is looked at. */
  datatype Interrupt = Timer(job: Job, early: seq<Interrupt>) | Other(early: seq<Interrupt>)

  /** struct irq_task, its list node apart. */
  datatype Task = Task(handler: Job, priority: int, running: bool)

  /** All handlers an interrupt will ever cause to run. */
  ghost function Work(i: Interrupt): multiset<nat>
    decreases i, 1
  {
    OwnWork(i) + AllWork(i.early)
  }

  ghost function OwnWork(i: Interrupt): multiset<nat>
    decreases i, 0
  {
    if i.Timer? then JobWork(i.job) else multiset{}
  }

  ghost function JobWork(j: Job): multiset<nat>
    decreases j
  {
    multiset{j.id} + AllWork(j.during) + AllWork(j.after)
  }

  ghost function AllWork(irqs: seq<Interrupt>): multiset<nat>
    decreases irqs
  {
    if irqs == [] then multiset{} else Work(irqs[0]) + AllWork(irqs[1..])
  }

  /** An interrupt's work is its own handler and that of every interrupt written down in it. */
  lemma {:induction false} WorkParts(i: Interrupt)
    ensures Work(i) == (if i.Timer? then multiset{i.job.id} + AllWork(i.job.during) + AllWork(i.job.after)
              else multiset{})
                       + AllWork(i.early)
  {
    if i.Timer? {
      assert OwnWork(i) == JobWork(i.job);
      assert JobWork(i.job) == multiset{i.job.id} + AllWork(i.job.during) + AllWork(i.job.after);
    }
    assert Work(i) == OwnWork(i) + AllWork(i.early);
  }

  lemma {:induction false} AllWorkParts(irqs: seq<Interrupt>, k: nat)
    requires k <= |irqs|
    ensures AllWork(irqs) == AllWork(irqs[..k]) + AllWork(irqs[k..])
    ensures k < |irqs| ==> Work(irqs[k]) <= AllWork(irqs)
  {
    if k == 0 {
      assert irqs[..0] == [] && irqs[0..] == irqs;
    } else {
      assert irqs[..k][1..] == irqs[1..][..k - 1] && irqs[k..] == irqs[1..][k - 1..];
      AllWorkParts(irqs[1..], k - 1);
    }
  }

  // --- the queue as a sequence

  /** Sorted by priority number, and strictly so in front of a running task. */
  ghost predicate Ordered(q: seq<nat>, tasks: map<nat, Task>)
    requires forall x :: x in q ==> x in tasks
  {
    forall i, j :: 0 <= i < j < |q| ==>
      && tasks[q[i]].priority <= tasks[q[j]].priority
      && (tasks[q[j]].running ==> tasks[q[i]].priority < tasks[q[j]].priority)
  }

  ghost function Priorities(q: seq<nat>, tasks: map<nat, Task>): (r: seq<int>)
    requires forall x :: x in q ==> x in tasks
    ensures |r| == |q| && forall i :: 0 <= i < |q| ==> r[i] == tasks[q[i]].priority
  {
    seq(|q|, i requires 0 <= i < |q| => tasks[q[i]].priority)
  }

  /** The running tasks, in queue order. */
  ghost function Running(q: seq<nat>, tasks: map<nat, Task>): seq<nat> {
    if q == [] then []
    else (if q[0] in tasks && tasks[q[0]].running then [q[0]] else []) + Running(q[1..], tasks)
  }

  /** What the tasks of a queue are worth together. */
  ghost function Sum(q: seq<nat>, tasks: map<nat, Task>, worth: Task -> multiset<nat>): multiset<nat> {
    if q == [] then multiset{}
    else (if q[0] in tasks then worth(tasks[q[0]]) else multiset{}) + Sum(q[1..], tasks, worth)
  }

  ghost function Due(t: Task): multiset<nat> {
    if t.running then multiset{} else JobWork(t.handler)
  }

  /** The handlers still to be caused by tasks that do not run yet. */
  ghost function Pending(q: seq<nat>, tasks: map<nat, Task>): multiset<nat> {
    Sum(q, tasks, Due)
  }

  lemma {:induction false} RunningRun(q: seq<nat>, tasks: map<nat, Task>)
    ensures forall x :: x in Running(q, tasks) ==> x in q && x in tasks && tasks[x].running
  {
    if q != [] {
      RunningRun(q[1..], tasks);
    }
  }

  lemma {:induction false} RunningInsert(q: seq<nat>, tasks: map<nat, Task>, k: nat, x: nat, t: Task)
    requires k <= |q| && x !in q && !t.running
    ensures Running(q[..k] + [x] + q[k..], tasks[x := t]) == Running(q, tasks)
  {
    var r := q[..k] + [x] + q[k..];
    if k == 0 {
      assert r[1..] == q;
      RunningFrame(q, tasks, tasks[x := t]);
    } else {
      assert r[0] == q[0] && r[1..] == q[1..][..k - 1] + [x] + q[1..][k - 1..];
      RunningInsert(q[1..], tasks, k - 1, x, t);
    }
  }

  lemma {:induction false} SumInsert(q: seq<nat>, tasks: map<nat, Task>, k: nat, x: nat, t: Task,
      worth: Task -> multiset<nat>)
    requires k <= |q| && x !in q
    ensures Sum(q[..k] + [x] + q[k..], tasks[x := t], worth) == Sum(q, tasks, worth) + worth(t)
  {
    var r := q[..k] + [x] + q[k..];
    if k == 0 {
      assert r[1..] == q;
      SumFrame(q, tasks, tasks[x := t], worth);
    } else {
      assert r[0] == q[0] && r[1..] == q[1..][..k - 1] + [x] + q[1..][k - 1..];
      SumInsert(q[1..], tasks, k - 1, x, t, worth);
    }
  }

  ghost predicate SameTasks(q: seq<nat>, tasks: map<nat, Task>, tasks': map<nat, Task>) {
    forall x :: x in q ==> (x in tasks <==> x in tasks') && (x in tasks ==> tasks'[x] == tasks[x])
  }

  lemma {:induction false} RunningFrame(q: seq<nat>, tasks: map<nat, Task>, tasks': map<nat, Task>)
    requires SameTasks(q, tasks, tasks')
    ensures Running(q, tasks') == Running(q, tasks)
  {
    if q != [] {
      RunningFrame(q[1..], tasks, tasks');
    }
  }

  lemma {:induction false} SumFrame(q: seq<nat>, tasks: map<nat, Task>, tasks': map<nat, Task>,
      worth: Task -> multiset<nat>)
    requires SameTasks(q, tasks, tasks')
    ensures Sum(q, tasks', worth) == Sum(q, tasks, worth)
  {
    if q != [] {
      SumFrame(q[1..], tasks, tasks', worth);
    }
  }

  ghost predicate Strict(r: seq<nat>, tasks: map<nat, Task>) {
    && (forall x :: x in r ==> x in tasks)
    && forall i, j :: 0 <= i < j < |r| ==> tasks[r[i]].priority < tasks[r[j]].priority
  }

  lemma FrontIsMoreUrgent(q: seq<nat>, tasks: map<nat, Task>, y: nat)
    requires (forall x :: x in q ==> x in tasks) && Ordered(q, tasks) && q != [] && y in q[1..] && tasks[y].running
    ensures tasks[q[0]].priority < tasks[y].priority
  {
    var k :| 0 <= k < |q[1..]| && q[1..][k] == y;
    assert q[k + 1] == y;
  }

  /** Running tasks are nested in order of urgency. */
  lemma {:induction false} RunningStrict(q: seq<nat>, tasks: map<nat, Task>)
    requires (forall x :: x in q ==> x in tasks) && Ordered(q, tasks)
    ensures Strict(Running(q, tasks), tasks)
  {
    if q != [] {
      RunningStrict(q[1..], tasks);
      RunningRun(q[1..], tasks);
      var r, s := Running(q, tasks), Running(q[1..], tasks);
      if tasks[q[0]].running {
        forall y | y in s
          ensures tasks[q[0]].priority < tasks[y].priority
        {
          FrontIsMoreUrgent(q, tasks, y);
        }
        StrictCons(q[0], s, tasks);
      } else {
        assert r == s;
      }
    }
  }

  lemma StrictCons(x: nat, s: seq<nat>, tasks: map<nat, Task>)
    requires Strict(s, tasks) && x in tasks && forall y :: y in s ==> tasks[x].priority < tasks[y].priority
    ensures Strict([x] + s, tasks)
  {
  }

  ghost predicate Sorted(q: seq<nat>, tasks: map<nat, Task>, nextAddr: nat) {
    && Distinct(q)
    && (forall x :: x in q ==> x in tasks && x < nextAddr)
    && Ordered(q, tasks)
  }

  lemma InsertSorted(q: seq<nat>, tasks: map<nat, Task>, k: nat, x: nat, t: Task, r: seq<nat>)
    requires Sorted(q, tasks, x) && !t.running
    requires k == Place(Priorities(q, tasks), t.priority) && r == q[..k] + [x] + q[k..]
    ensures Sorted(r, tasks[x := t], x + 1)
  {
    var keys := Priorities(q, tasks);
    PlaceSplits(keys, t.priority);
    assert Splits(keys, t.priority, k);
    var tasks' := tasks[x := t];
    forall j | 0 <= j < |r|
      ensures r[j] in tasks' && r[j] < x + 1 && (r[j] == x <==> j == k)
    {
      assert j != k ==> r[j] == q[if j < k then j else j - 1];
    }
    forall i, j | 0 <= i < j < |r|
      ensures r[i] != r[j]
      ensures tasks'[r[i]].priority <= tasks'[r[j]].priority
      ensures tasks'[r[j]].running ==> tasks'[r[i]].priority < tasks'[r[j]].priority
    {
      InsertedPair(q, tasks, k, x, t, r, i, j);
    }
  }

  lemma InsertedPair(q: seq<nat>, tasks: map<nat, Task>, k: nat, x: nat, t: Task, r: seq<nat>, i: nat, j: nat)
    requires Sorted(q, tasks, x) && !t.running
    requires k <= |q| && r == q[..k] + [x] + q[k..] && i < j < |r|
    requires forall l :: 0 <= l < k ==> tasks[q[l]].priority <= t.priority
    requires k < |q| ==> t.priority < tasks[q[k]].priority
    ensures r[i] in tasks[x := t] && r[j] in tasks[x := t] && r[i] != r[j]
    ensures var tasks' := tasks[x := t];
            && tasks'[r[i]].priority <= tasks'[r[j]].priority
            && (tasks'[r[j]].running ==> tasks'[r[i]].priority < tasks'[r[j]].priority)
  {
    var i', j' := if i <= k then i else i - 1, if j <= k then j else j - 1;
    if j == k {
      assert r[i] == q[i] && r[j] == x && q[i] in q;
    } else {
      assert r[j] == q[j'] && q[j'] in q;
      if i == k {
        assert r[i] == x;
        assert k < j' ==> tasks[q[k]].priority <= tasks[q[j']].priority;
      } else {
        assert r[i] == q[i'] && q[i'] in q && tasks[q[i']].priority <= tasks[q[j']].priority;
      }
    }
  }

  /** A new task is put behind all tasks of its priority. */
  lemma Added(q: seq<nat>, tasks: map<nat, Task>, x: nat, t: Task, k: nat)
      returns (q': seq<nat>, tasks': map<nat, Task>)
    requires Sorted(q, tasks, x) && !t.running && k == Place(Priorities(q, tasks), t.priority)
    ensures k <= |q| && q' == q[..k] + [x] + q[k..]
    ensures tasks' == tasks[x := t] && Sorted(q', tasks', x + 1) && x !in q && SameTasks(q, tasks, tasks')
    ensures Running(q', tasks') == Running(q, tasks)
    ensures Pending(q', tasks') == Pending(q, tasks) + JobWork(t.handler)
  {
    q', tasks' := q[..k] + [x] + q[k..], tasks[x := t];
    RunningInsert(q, tasks, k, x, t);
    SumInsert(q, tasks, k, x, t, Due);
    InsertSorted(q, tasks, k, x, t, q');
  }

  // --- in what order tasks start

  /** The queue and the tasks, and what has been started so far: tasks and the handlers they name. */
  datatype Moment = Moment(queue: seq<nat>, tasks: map<nat, Task>, begun: seq<nat>, started: seq<nat>)

  predicate Waits(m: Moment, a: nat) {
    a in m.queue && a in m.tasks && !m.tasks[a].running
  }

  predicate Ahead(q: seq<nat>, a: nat, c: nat) {
    a in q && c in q && IndexOf(q, a) < IndexOf(q, c)
  }

  /** What was begun between two moments. */
  function Lately(m: Moment, r: Moment): seq<nat> {
    if |m.begun| <= |r.begun| then r.begun[|m.begun|..] else []
  }

  predicate Began(m: Moment, r: Moment, a: nat) {
    a in Lately(m, r)
  }

  /** A task that waited has been begun, with its own handler, or goes on waiting. */
  predicate OneKept(m: Moment, r: Moment, a: nat)
    requires Later(m, r) && Waits(m, a)
  {
    if Began(m, r, a) then r.started[|m.begun| + IndexOf(Lately(m, r), a)] == m.tasks[a].handler.id
    else Waits(r, a) && r.tasks[a].handler == m.tasks[a].handler
  }

  /** Of two tasks that waited the one ahead is begun first, or stays ahead. */
  predicate PairKept(m: Moment, r: Moment, a: nat, c: nat) {
    && (Began(m, r, c) ==> Began(m, r, a) && IndexOf(Lately(m, r), a) < IndexOf(Lately(m, r), c))
    && (!Began(m, r, a) && !Began(m, r, c) ==> Ahead(r.queue, a, c))
  }

  predicate Later(m: Moment, r: Moment) {
    m.begun <= r.begun && m.started <= r.started && |m.begun| == |m.started| && |r.begun| == |r.started|
  }

  /** Between the two moments tasks were begun in the order of the queue. */
  ghost predicate InTurn(m: Moment, r: Moment) {
    && Later(m, r)
    && (forall a :: Waits(m, a) ==> OneKept(m, r, a))
    && forall a, c :: Waits(m, a) && Waits(m, c) && Ahead(m.queue, a, c) ==> PairKept(m, r, a, c)
  }

  lemma InTurnSame(m: Moment)
    requires |m.begun| == |m.started|
    ensures InTurn(m, m)
  {
    assert Lately(m, m) == [];
  }

  lemma IndexJoined(x: seq<nat>, y: seq<nat>, a: nat)
    requires a in x + y
    ensures IndexOf(x + y, a) == if a in x then IndexOf(x, a) else |x| + IndexOf(y, a)
    decreases |x|
  {
    if x == [] {
      assert x + y == y;
    } else if x[0] != a {
      assert (x + y)[1..] == x[1..] + y;
      IndexJoined(x[1..], y, a);
    }
  }

  lemma InTurnTrans(m: Moment, n: Moment, r: Moment)
    requires InTurn(m, n) && InTurn(n, r)
    ensures InTurn(m, r)
  {
    assert Lately(m, r) == Lately(m, n) + Lately(n, r);
    forall a | Waits(m, a)
      ensures OneKept(m, r, a)
    {
      OneTrans(m, n, r, a);
    }
    forall a, c | Waits(m, a) && Waits(m, c) && Ahead(m.queue, a, c)
      ensures PairKept(m, r, a, c)
    {
      PairTrans(m, n, r, a, c);
    }
  }

  lemma OneTrans(m: Moment, n: Moment, r: Moment, a: nat)
    requires Later(m, n) && Later(n, r) && Later(m, r) && Lately(m, r) == Lately(m, n) + Lately(n, r)
    requires Waits(m, a) && OneKept(m, n, a) && (Waits(n, a) ==> OneKept(n, r, a))
    ensures OneKept(m, r, a)
  {
    var x, y := Lately(m, n), Lately(n, r);
    if a in x {
      IndexJoined(x, y, a);
      assert IndexOf(Lately(m, r), a) == IndexOf(x, a) < |x|;
      assert r.started[|m.begun| + IndexOf(x, a)] == n.started[|m.begun| + IndexOf(x, a)];
    } else if a in y {
      IndexJoined(x, y, a);
      assert |n.begun| == |m.begun| + |x|;
    }
  }

  lemma PairTrans(m: Moment, n: Moment, r: Moment, a: nat, c: nat)
    requires InTurn(m, n) && InTurn(n, r) && Lately(m, r) == Lately(m, n) + Lately(n, r)
    requires Waits(m, a) && Waits(m, c) && Ahead(m.queue, a, c)
    ensures PairKept(m, r, a, c)
  {
    assert OneKept(m, n, a) && OneKept(m, n, c) && PairKept(m, n, a, c);
    if a in Lately(m, r) {
      IndexJoined(Lately(m, n), Lately(n, r), a);
    }
    if c in Lately(m, r) {
      IndexJoined(Lately(m, n), Lately(n, r), c);
    }
    if !Began(m, n, a) && !Began(m, n, c) {
      assert PairKept(n, r, a, c);
    }
  }

  /** Queueing a task begins nothing and keeps the order of the others. */
  lemma InTurnAdded(m: Moment, r: Moment, k: nat, x: nat, t: Task)
    requires |m.begun| == |m.started| && r.begun == m.begun && r.started == m.started && x !in m.queue && k <= |m.queue|
    requires r.queue == m.queue[..k] + [x] + m.queue[k..] && r.tasks == m.tasks[x := t]
    ensures InTurn(m, r)
  {
    assert Lately(m, r) == [];
    forall a, c | Waits(m, a) && Waits(m, c) && Ahead(m.queue, a, c)
      ensures PairKept(m, r, a, c)
    {
      AheadInserted(m.queue, k, x, a, c);
    }
    forall a | Waits(m, a)
      ensures OneKept(m, r, a)
    {
      InsertedIndex(m.queue, k, x, a);
    }
  }

  lemma InsertedIndex(q: seq<nat>, k: nat, x: nat, a: nat)
    requires k <= |q| && x !in q && a in q
    ensures a in q[..k] + [x] + q[k..]
    ensures IndexOf(q[..k] + [x] + q[k..], a) == IndexOf(q, a) + if a in q[..k] then 0 else 1
    ensures a in q[..k] <==> IndexOf(q, a) < k
  {
    assert q == q[..k] + q[k..];
    IndexJoined(q[..k], q[k..], a);
    assert q[..k] + [x] + q[k..] == q[..k] + ([x] + q[k..]);
    IndexJoined(q[..k], [x] + q[k..], a);
    if a !in q[..k] {
      IndexJoined([x], q[k..], a);
    }
  }

  lemma AheadInserted(q: seq<nat>, k: nat, x: nat, a: nat, c: nat)
    requires k <= |q| && x !in q && Ahead(q, a, c)
    ensures Ahead(q[..k] + [x] + q[k..], a, c)
  {
    InsertedIndex(q, k, x, a);
    InsertedIndex(q, k, x, c);
  }

  /** The head of the queue starts: nobody is ahead of it. */
  lemma InTurnStarted(m: Moment, r: Moment, t: Task)
    requires |m.begun| == |m.started| && Distinct(m.queue) && m.queue != [] && m.queue[0] in m.tasks
    requires t.running && r.queue == m.queue && r.tasks == m.tasks[m.queue[0] := t]
    requires r.begun == m.begun + [m.queue[0]] && r.started == m.started + [m.tasks[m.queue[0]].handler.id]
    ensures InTurn(m, r)
  {
    assert Lately(m, r) == [m.queue[0]];
  }

  /** A running head leaves the queue. */
  lemma InTurnEnded(m: Moment, r: Moment)
    requires |m.begun| == |m.started| && Distinct(m.queue) && m.queue != [] && m.queue[0] in m.tasks
    requires m.tasks[m.queue[0]].running && r.queue == m.queue[1..] && r.tasks == m.tasks - {m.queue[0]}
    requires r.begun == m.begun && r.started == m.started
    ensures InTurn(m, r)
  {
    assert Lately(m, r) == [];
    assert m.queue == [m.queue[0]] + m.queue[1..];
    forall a | a in m.queue && a != m.queue[0]
      ensures a in m.queue[1..] && IndexOf(m.queue[1..], a) == IndexOf(m.queue, a) - 1
    {
      IndexJoined([m.queue[0]], m.queue[1..], a);
    }
  }

  // --- irq.c

  class Interrupts {
    const lists: ListMemory<Ptr>
    var tasks: map<nat, Task>
    var nextAddr: nat
    ghost var queue: seq<nat>
    ghost var calls: seq<nat>
    ghost var begun: seq<nat>
    var started: seq<nat>

    /** irq_tasks links `queue`; the running tasks in queue order are the handlers on the call
        stack, innermost first, with strictly increasing priority numbers. */
    ghost predicate Valid()
      reads this, lists
    {
      && IsList(lists.Words(), Head, Nodes(queue))
      && Sorted(queue, tasks, nextAddr)
      && Running(queue, tasks) == calls
      && |begun| == |started|
    }

    /** The queue and what has been started, as it is now. */
    ghost function Now(): Moment
      reads this
    {
      Moment(queue, tasks, begun, started)
    }

    /** Nothing can be dispatched: the queue is empty or its head is running. */
    ghost predicate Settled()
      reads this
    {
      queue == [] || (queue[0] in tasks && tasks[queue[0]].running)
    }

    /** irq_init */
    constructor ()
      ensures Valid() && queue == [] && calls == [] && started == [] && fresh(lists)
    {
      lists := new ListMemory<Ptr>();
      tasks, nextAddr, queue, calls, begun, started := map[], 0, [], [], [], [];
      new;
      lists.InitListHead(Head);
      assert Cycle(Head, Nodes(queue)) == [Head, Head];
    }

    method IrqAddTask(callback: Job, priority: int)
      requires Valid() && priority == callback.priority
      modifies this`tasks, this`nextAddr, this`queue, lists
      ensures Valid() && calls == old(calls)
      ensures var k := Place(Priorities(old(queue), old(tasks)), priority);
              queue == old(queue)[..k] + [old(nextAddr)] + old(queue)[k..]
      ensures tasks == old(tasks)[old(nextAddr) := Task(callback, priority, false)] && nextAddr == old(nextAddr) + 1
      ensures Pending(queue, tasks) == Pending(old(queue), old(tasks)) + JobWork(callback)
    {
      ghost var t := Task(callback, priority, false);
      ghost var k := Place(Priorities(queue, tasks), priority);
      ghost var queue', tasks' := Added(queue, tasks, nextAddr, t, k);
      QueueTask(Task(callback, priority, false), k, queue', tasks');
    }

    method QueueTask(t: Task, ghost k: nat, ghost queue': seq<nat>, ghost tasks': map<nat, Task>)
      requires Valid() && k <= |queue| && queue' == queue[..k] + [nextAddr] + queue[k..] && nextAddr !in queue
      requires tasks' == tasks[nextAddr := t] && SameTasks(queue, tasks, tasks')
      requires k == Place(Priorities(queue, tasks), t.priority)
      requires Sorted(queue', tasks', nextAddr + 1) && Running(queue', tasks') == Running(queue, tasks)
      modifies this`tasks, this`nextAddr, this`queue, lists
      ensures Valid() && calls == old(calls) && queue == queue' && tasks == tasks' && nextAddr == old(nextAddr) + 1
    {
      ghost var before, places := tasks, Priorities(queue, tasks);
      var task := nextAddr;
      nextAddr, tasks := nextAddr + 1, tasks[task := t];
      LinkTask(task, t.priority, k, before, places, queue');
    }

    /** The list part of irq_add_task. */
    method LinkTask(task: nat, priority: int, ghost k: nat, ghost before: map<nat, Task>, ghost places: seq<int>,
                    ghost queue': seq<nat>)
      requires IsList(lists.Words(), Head, Nodes(queue)) && task !in queue
      requires (forall x :: x in queue ==> x in before) && SameTasks(queue, before, tasks)
      requires places == Priorities(queue, before) && k == Place(places, priority)
      requires k <= |queue| && queue' == queue[..k] + [task] + queue[k..]
      modifies this`queue, lists
      ensures IsList(lists.Words(), Head, Nodes(queue')) && queue == queue'
    {
      NodesMembers(queue, task);
      ListFrame(lists.Words(), Init(lists.Words(), Entry(task)), Head, Nodes(queue));
      lists.InitListHead(Entry(task));
      var pos := FirstGreater(priority, before);
      HeadLinks(lists.Words(), Head, Nodes(queue));
      if k < |queue| {
        EntryLinks(lists.Words(), Head, Nodes(queue), k);
        AddBeforeIsInsert(lists.Words(), Head, Nodes(queue), k, Entry(task));
      } else {
        AddTailIsSnoc(lists.Words(), Head, Nodes(queue), Entry(task));
      }
      lists.ListAddTail(Entry(task), pos);
      NodesInsert(queue, k, task);
      queue := queue';
    }

    /** The list_for_each of irq_add_task: the node to insert in front of. */
    method FirstGreater(priority: int, ghost before: map<nat, Task>) returns (pos: Ptr)
      requires IsList(lists.Words(), Head, Nodes(queue))
      requires (forall x :: x in queue ==> x in before) && SameTasks(queue, before, tasks)
      ensures var k := Place(Priorities(queue, before), priority);
              pos == if k < |queue| then Entry(queue[k]) else Head
    {
      HeadLinks(lists.Words(), Head, Nodes(queue));
      pos := lists.next[Head];
      ghost var i, keys := 0, Priorities(queue, before);
      while pos != Head
        invariant 0 <= i <= |queue| && pos == if i < |queue| then Entry(queue[i]) else Head
        invariant forall j :: 0 <= j < i ==> keys[j] <= priority
        decreases |queue| - i
      {
        var curr := tasks[pos.addr];
        if curr.priority > priority {
          PlaceUnique(keys, priority, i);
          return;
        }
        EntryLinks(lists.Words(), Head, Nodes(queue), i);
        pos := lists.next[pos];
        i := i + 1;
      }
      PlaceUnique(keys, priority, i);
    }

    /** do_irq: every handler caused by this interrupt or waiting in front of the running one is
        started exactly once, the call stack is as before, and nothing dispatchable is left. */
    method DoIrq(i: Interrupt)
      requires Valid()
      modifies this, lists
      ensures Valid() && Settled() && calls == old(calls)
      ensures multiset(started) + Pending(queue, tasks) ==
                multiset(old(started)) + Pending(old(queue), old(tasks)) + Work(i)
      ensures old(started) <= started
      ensures calls == [] ==> queue == []
      ensures calls == [] && old(queue) == [] ==> multiset(started) == multiset(old(started)) + Work(i)
      ensures InTurn(old(Now()), Now())
      decreases |Pending(queue, tasks)| + |Work(i)|, 2, i
    {
      Receive(i);
      ghost var m1 := Now();
      ghost var p0, p1, s1 := Pending(old(queue), old(tasks)), Pending(queue, tasks), started;
      Enqueued(p1, p0, OwnWork(i), AllWork(i.early));
      TakeInterrupts(i.early);
      ghost var p2, s2 := Pending(queue, tasks), started;
      Sizes(s2, s1, p2, p1, multiset{}, AllWork(i.early));
      ghost var m2 := Now();
      Dispatch();
      InTurnTrans(old(Now()), m1, m2);
      InTurnTrans(old(Now()), m2, Now());
      Balanced(s1, p0, OwnWork(i), AllWork(i.early), p1, s2, p2, started, Pending(queue, tasks));
      OutermostDone(old(queue), old(tasks), started, old(started), Work(i));
    }

    /** The switch statement. */
    method Receive(i: Interrupt)
      requires Valid()
      modifies this`tasks, this`nextAddr, this`queue, lists
      ensures Valid() && calls == old(calls)
      ensures Pending(queue, tasks) == Pending(old(queue), old(tasks)) + OwnWork(i)
      ensures InTurn(old(Now()), Now())
    {
      if i.Timer? {
        IrqAddTask(i.job, i.job.priority);
        InTurnAdded(old(Now()), Now(), Place(Priorities(old(queue), old(tasks)), i.job.priority), old(nextAddr),
                    Task(i.job, i.job.priority, false));
      } else {
        InTurnSame(Now());
        assert Pending(queue, tasks) + multiset{} == Pending(queue, tasks);
      }
    }

    /** With no handler on the call stack, a settled queue is empty. */
    lemma OutermostDone(queue0: seq<nat>, tasks0: map<nat, Task>, started: seq<nat>, started0: seq<nat>,
        work: multiset<nat>)
      requires Valid() && Settled()
      requires multiset(started) + Pending(queue, tasks) == multiset(started0) + Pending(queue0, tasks0) + work
      ensures calls == [] ==> queue == []
      ensures calls == [] && queue0 == [] ==> multiset(started) == multiset(started0) + work
    {
      if calls == [] && queue0 == [] {
        assert Pending(queue, tasks) == multiset{} && Pending(queue0, tasks0) == multiset{};
        assert multiset(started) + multiset{} == multiset(started);
      }
    }

    /** The handlers on the call stack are nested by urgency, the innermost being most urgent. */
    lemma CallsNested()
      requires Valid()
      ensures Strict(calls, tasks)
    {
      RunningStrict(queue, tasks);
    }

    /** What is dispatched next is as urgent as anything queued. */
    lemma HeadIsMostUrgent()
      requires Valid() && queue != []
      ensures forall x :: x in queue ==> tasks[queue[0]].priority <= tasks[x].priority
    {
      forall x | x in queue
        ensures tasks[queue[0]].priority <= tasks[x].priority
      {
        var k :| 0 <= k < |queue| && queue[k] == x;
      }
    }

    /** The dispatch loop of do_irq. */
    method Dispatch()
      requires Valid()
      modifies this, lists
      ensures Valid() && Settled() && calls == old(calls)
      ensures multiset(started) + Pending(queue, tasks) == multiset(old(started)) + Pending(old(queue), old(tasks))
      ensures old(started) <= started && InTurn(old(Now()), Now())
      decreases |Pending(queue, tasks)|, 1, 0
    {
      InTurnSame(Now());
      HeadLinks(lists.Words(), Head, Nodes(queue));
      while !lists.ListEmpty(Head)
        invariant Valid() && calls == old(calls) && Head in lists.next
                    && lists.next[Head] == (if queue == [] then Head else Entry(queue[0]))
        invariant multiset(started) + Pending(queue, tasks) == multiset(old(started)) + Pending(old(queue), old(tasks))
        invariant old(started) <= started && InTurn(old(Now()), Now())
        decreases |Pending(queue, tasks)|
      {
        var head := lists.next[Head].addr;
        if tasks[head].running {
          break;
        }
        ghost var before, done := Pending(queue, tasks), started;
        Sizes(started, old(started), before, Pending(old(queue), old(tasks)), multiset{}, multiset{});
        ghost var m := Now();
        RunHead(head);
        InTurnTrans(old(Now()), m, Now());
        Sizes(started, done, Pending(queue, tasks), before, multiset{}, multiset{});
        HeadLinks(lists.Words(), Head, Nodes(queue));
      }
    }

    /** The body of the dispatch loop: mark the head running, call its handler, unlink and free it.
        Interrupts taken meanwhile leave it at the head of the queue. */
    method RunHead(head: nat)
      requires Valid() && queue != [] && queue[0] == head && !tasks[head].running
      modifies this, lists
      ensures Valid() && calls == old(calls)
      ensures multiset(started) + Pending(queue, tasks) == multiset(old(started)) + Pending(old(queue), old(tasks))
      ensures old(started) < started && InTurn(old(Now()), Now())
      decreases |Pending(queue, tasks)|, 0, 0
    {
      var job := tasks[head].handler;
      StartHead(head);
      ghost var m1 := Now();
      ghost var p1, s1 := Pending(queue, tasks), started;
      TakeInterrupts(job.during);
      ghost var p2, s2 := Pending(queue, tasks), started;
      Sizes(s2, s1, p2, p1, multiset{}, AllWork(job.during));
      ghost var m2 := Now();
      FreeHead(head);
      ghost var m3 := Now();
      TakeInterrupts(job.after);
      FourTurns(old(Now()), m1, m2, m3, Now());
      Handled(job.id, AllWork(job.during), AllWork(job.after), old(started), Pending(old(queue), old(tasks)),
              s1, p1, s2, p2, started, Pending(queue, tasks));
      LongerRun(old(started), s1, s2, started);
    }

    /** head->running = 1, and the handler is called. */
    method StartHead(head: nat)
      requires Valid() && queue != [] && queue[0] == head && !tasks[head].running
      modifies this`tasks, this`calls, this`begun, this`started
      ensures InTurn(old(Now()), Now())
      ensures Valid() && Settled() && queue == old(queue) && calls == [head] + old(calls)
      ensures started == old(started) + [old(tasks)[head].handler.id]
      ensures var job := old(tasks)[head].handler;
              Pending(old(queue), old(tasks)) == multiset{job.id} + AllWork(job.during) + AllWork(job.after)
                  + Pending(queue, tasks)
    {
      HeadStarts(queue, tasks, tasks[head].(running := true));
      HeadWorth(queue, tasks, tasks[head].(running := true), Due);
      HeadStartsOrdered(queue, tasks, nextAddr, tasks[head].(running := true));
      InTurnStarted(Now(), Moment(queue, tasks[head := tasks[head].(running := true)], begun + [head],
                                  started + [tasks[head].handler.id]), tasks[head].(running := true));
      begun := begun + [head];
      started := started + [tasks[head].handler.id];
      tasks := tasks[head := tasks[head].(running := true)];
      calls := [head] + calls;
    }

    /** The handler has returned: its task, found at the head of the queue, is unlinked and freed. */
    method FreeHead(head: nat)
      requires Valid() && Settled() && calls != [] && calls[0] == head
      modifies this`tasks, this`queue, this`calls, lists
      ensures Valid() && old(queue) != [] && old(queue)[0] == head && calls == old(calls)[1..]
      ensures Pending(queue, tasks) == Pending(old(queue), old(tasks)) && InTurn(old(Now()), Now())
    {
      HeadIsRunning(queue, tasks);
      InTurnEnded(Now(), Moment(queue[1..], tasks - {head}, begun, started));
      HeadEnds(queue, tasks);
      HeadEndsOrdered(queue, tasks, nextAddr);
      UnlinkHead(head);
      tasks := tasks - {head};
      queue := queue[1..];
      calls := calls[1..];
    }

    method UnlinkHead(head: nat)
      requires IsList(lists.Words(), Head, Nodes(queue)) && queue != [] && queue[0] == head
      modifies lists
      ensures IsList(lists.Words(), Head, Nodes(queue[1..]))
    {
      RemoveIsRemove(lists.Words(), Head, Nodes(queue), 0);
      NodesTail(queue);
      lists.ListDelInit(Entry(head));
    }

    /** Interrupts arriving one after another. */
    method TakeInterrupts(irqs: seq<Interrupt>)
      requires Valid()
      modifies this, lists
      ensures Valid() && calls == old(calls) && (old(Settled()) ==> Settled())
      ensures multiset(started) + Pending(queue, tasks) ==
                multiset(old(started)) + Pending(old(queue), old(tasks)) + AllWork(irqs)
      ensures old(started) <= started && InTurn(old(Now()), Now())
      decreases |Pending(queue, tasks)| + |AllWork(irqs)|, 2, irqs
    {
      InTurnSame(Now());
      ghost var m0 := Now();
      var k := 0;
      assert irqs[0..] == irqs;
      while k < |irqs|
        invariant 0 <= k <= |irqs| && Valid() && calls == old(calls) && (old(Settled()) ==> Settled())
        invariant Taken(m0, Now(), irqs, k)
      {
        ghost var m := Now();
        TakenBound(m0, m, irqs, k);
        DoIrq(irqs[k]);
        TakenNext(m0, m, Now(), irqs, k);
        k := k + 1;
      }
    }
  }

  /** The first k interrupts have been taken. */
  ghost predicate Taken(m0: Moment, m: Moment, irqs: seq<Interrupt>, k: nat) {
    && k <= |irqs| && InTurn(m0, m)
    && multiset(m.started) + Pending(m.queue, m.tasks) + AllWork(irqs[k..]) ==
         multiset(m0.started) + Pending(m0.queue, m0.tasks) + AllWork(irqs)
  }

  lemma TakenBound(m0: Moment, m: Moment, irqs: seq<Interrupt>, k: nat)
    requires Taken(m0, m, irqs, k) && k < |irqs|
    ensures |Pending(m.queue, m.tasks)| + |Work(irqs[k])| <= |Pending(m0.queue, m0.tasks)| + |AllWork(irqs)|
  {
    Sizes(m.started, m0.started, Pending(m.queue, m.tasks), Pending(m0.queue, m0.tasks), AllWork(irqs[k..]),
        AllWork(irqs));
    assert irqs[k..][1..] == irqs[k + 1..];
    assert |Work(irqs[k]) + AllWork(irqs[k + 1..])| == |Work(irqs[k])| + |AllWork(irqs[k + 1..])|;
  }

  lemma TakenNext(m0: Moment, m: Moment, r: Moment, irqs: seq<Interrupt>, k: nat)
    requires Taken(m0, m, irqs, k) && k < |irqs| && InTurn(m, r)
    requires multiset(r.started) + Pending(r.queue, r.tasks) ==
               multiset(m.started) + Pending(m.queue, m.tasks) + Work(irqs[k])
    ensures Taken(m0, r, irqs, k + 1)
  {
    InTurnTrans(m0, m, r);
    assert irqs[k..][1..] == irqs[k + 1..];
  }

  lemma FourTurns(m0: Moment, m1: Moment, m2: Moment, m3: Moment, m4: Moment)
    requires InTurn(m0, m1) && InTurn(m1, m2) && InTurn(m2, m3) && InTurn(m3, m4)
    ensures InTurn(m0, m4)
  {
    InTurnTrans(m0, m1, m2);
    InTurnTrans(m0, m2, m3);
    InTurnTrans(m0, m3, m4);
  }

  lemma Balanced(s: seq<nat>, p0: multiset<nat>, own: multiset<nat>, early: multiset<nat>, p1: multiset<nat>,
                 s2: seq<nat>, p2: multiset<nat>, s3: seq<nat>, p3: multiset<nat>)
    requires p1 == p0 + own && multiset(s2) + p2 == multiset(s) + p1 + early && multiset(s3) + p3 == multiset(s2) + p2
    ensures multiset(s3) + p3 == multiset(s) + p0 + (own + early)
  {
  }

  lemma Enqueued(p: multiset<nat>, p0: multiset<nat>, own: multiset<nat>, early: multiset<nat>)
    requires p == p0 + own
    ensures |p| + |early| == |p0| + |own + early|
  {
    assert |p0 + own| == |p0| + |own|;
    assert |own + early| == |own| + |early|;
  }

  /** One handler: it starts, then the interrupts during and after it are taken. */
  lemma Handled(id: nat, during: multiset<nat>, after: multiset<nat>, s0: seq<nat>, p0: multiset<nat>,
                s1: seq<nat>, p1: multiset<nat>, s2: seq<nat>, p2: multiset<nat>, s3: seq<nat>, p3: multiset<nat>)
    requires s1 == s0 + [id] && p0 == multiset{id} + during + after + p1
    requires multiset(s2) + p2 == multiset(s1) + p1 + during
    requires multiset(s3) + p3 == multiset(s2) + p2 + after
    ensures multiset(s3) + p3 == multiset(s0) + p0
  {
    assert multiset(s1) == multiset(s0) + multiset{id};
  }

  lemma LongerRun(s0: seq<nat>, s1: seq<nat>, s2: seq<nat>, s3: seq<nat>)
    requires s0 < s1 <= s2 <= s3
    ensures s0 < s3
  {
  }

  /** Work that has been started is no longer pending. */
  lemma Sizes(s: seq<nat>, s0: seq<nat>, p: multiset<nat>, p0: multiset<nat>, w: multiset<nat>, w0: multiset<nat>)
    requires multiset(s) + p + w == multiset(s0) + p0 + w0 && |s| >= |s0|
    ensures |p| + |w| + (|s| - |s0|) == |p0| + |w0|
  {
    assert |multiset(s) + p + w| == |s| + |p| + |w|;
    assert |multiset(s0) + p0 + w0| == |s0| + |p0| + |w0|;
  }

  /** Starting the head of the queue makes it the innermost running task. */
  lemma HeadStarts(q: seq<nat>, tasks: map<nat, Task>, t: Task)
    requires q != [] && Distinct(q) && q[0] in tasks
    requires !tasks[q[0]].running && t.running
    ensures Running(q, tasks[q[0] := t]) == [q[0]] + Running(q, tasks)
  {
    assert q[0] !in q[1..];
    RunningFrame(q[1..], tasks, tasks[q[0] := t]);
  }

  /** The task at the head changes, and so does its worth. */
  lemma HeadWorth(q: seq<nat>, tasks: map<nat, Task>, t: Task, worth: Task -> multiset<nat>)
    requires q != [] && Distinct(q) && q[0] in tasks
    ensures Sum(q, tasks, worth) == worth(tasks[q[0]]) + Sum(q[1..], tasks, worth)
    ensures Sum(q, tasks[q[0] := t], worth) == worth(t) + Sum(q[1..], tasks, worth)
    ensures Sum(q[1..], tasks - {q[0]}, worth) == Sum(q[1..], tasks, worth)
  {
    assert q[0] !in q[1..];
    SumFrame(q[1..], tasks, tasks[q[0] := t], worth);
    SumFrame(q[1..], tasks, tasks - {q[0]}, worth);
  }

  lemma HeadStartsOrdered(q: seq<nat>, tasks: map<nat, Task>, nextAddr: nat, t: Task)
    requires q != [] && Sorted(q, tasks, nextAddr) && t == tasks[q[0]].(running := true)
    ensures Sorted(q, tasks[q[0] := t], nextAddr)
  {
  }

  /** When nothing can be dispatched, the innermost running task is the head of the queue. */
  lemma HeadIsRunning(q: seq<nat>, tasks: map<nat, Task>)
    requires (forall x :: x in q ==> x in tasks) && (q == [] || tasks[q[0]].running) && Running(q, tasks) != []
    ensures q != [] && Running(q, tasks)[0] == q[0]
  {
  }

  lemma HeadEnds(q: seq<nat>, tasks: map<nat, Task>)
    requires q != [] && Distinct(q) && q[0] in tasks && tasks[q[0]].running
    ensures Running(q[1..], tasks - {q[0]}) == Running(q, tasks)[1..]
    ensures Pending(q[1..], tasks - {q[0]}) == Pending(q, tasks)
  {
    assert q[0] !in q[1..];
    RunningFrame(q[1..], tasks, tasks - {q[0]});
    HeadWorth(q, tasks, tasks[q[0]], Due);
  }

  lemma HeadEndsOrdered(q: seq<nat>, tasks: map<nat, Task>, nextAddr: nat)
    requires q != [] && Sorted(q, tasks, nextAddr)
    ensures Sorted(q[1..], tasks - {q[0]}, nextAddr)
  {
    assert q[0] !in q[1..];
    forall x | x in q[1..]
      ensures x in tasks - {q[0]}
    {
      assert x in q;
    }
  }
}
