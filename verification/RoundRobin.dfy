/** The scheduler of src/sched.c as a state machine, and what holds over its whole runs. */
module RoundRobin {
  import opened Common
  import opened Lists

  /** The idle task is created first. */
  const IDLE := 0

  /** Task 0 runs `idle`; `queue` is the run queue from its head on, `zombies` are the tasks whose
      state is TASK_ZOMBIE, and `next` is nr_threads. */
  datatype State = State(queue: seq<nat>, current: nat, zombies: set<nat>, next: nat)

  /** What can happen: kthread_create, schedule, kthread_stop, kthread_exit, and one turn of the
      body of idle. */
  datatype Op = Create | Yield | Stop(task: nat) | Exit | IdleTurn

  // --- positions

  lemma IndexIs(q: seq<nat>, i: nat)
    requires i < |q| && Distinct(q)
    ensures IndexOf(q, q[i]) == i
  {
  }

  /** list_next_entry_circular: the task behind `c`, and `c` itself once its node is unlinked. */
  ghost function Next(q: seq<nat>, c: nat): (n: nat)
    ensures n in q || n == c
  {
    if c !in q then c
    else if IndexOf(q, c) == |q| - 1 then q[0]
    else q[IndexOf(q, c) + 1]
  }

  /** How many tasks are dispatched before `x` when `c` runs and nothing else happens. */
  ghost function Distance(q: seq<nat>, c: nat, x: nat): (d: nat)
    requires c in q && x in q
    ensures d < |q| && (d == 0 <==> x == c)
  {
    var i, j := IndexOf(q, c), IndexOf(q, x);
    if i <= j then j - i else |q| + j - i
  }

  lemma DistanceInjective(q: seq<nat>, c: nat, x: nat, y: nat)
    requires c in q && x in q && y in q && x != y
    ensures Distance(q, c, x) != Distance(q, c, y)
  {
  }

  /** Each dispatch brings every task but the one leaving the processor one place nearer. */
  lemma NextDistance(q: seq<nat>, c: nat, x: nat)
    requires Distinct(q) && c in q && x in q
    ensures Next(q, c) in q
    ensures Distance(q, Next(q, c), x) == if x == c then |q| - 1 else Distance(q, c, x) - 1
  {
    var i := IndexOf(q, c);
    IndexIs(q, if i == |q| - 1 then 0 else i + 1);
  }

  // --- reaping

  /** The queue without its zombies. */
  ghost function Live(q: seq<nat>, z: set<nat>): (r: seq<nat>)
    ensures |r| <= |q|
  {
    if q == [] then []
    else Live(q[..|q| - 1], z) + if q[|q| - 1] in z then [] else [q[|q| - 1]]
  }

  lemma {:induction false} LiveMembers(q: seq<nat>, z: set<nat>)
    ensures forall x :: x in Live(q, z) <==> x in q && x !in z
  {
    if q != [] {
      LiveMembers(q[..|q| - 1], z);
      assert q == q[..|q| - 1] + [q[|q| - 1]];
    }
  }

  lemma {:induction false} LiveDistinct(q: seq<nat>, z: set<nat>)
    requires Distinct(q)
    ensures Distinct(Live(q, z))
  {
    if q != [] {
      var front, last := q[..|q| - 1], q[|q| - 1];
      LiveDistinct(front, z);
      LiveMembers(front, z);
      assert last !in Live(front, z);
    }
  }

  lemma {:induction false} LivePrefix(q: seq<nat>, z: set<nat>, i: nat, j: nat)
    requires i <= j <= |q|
    ensures |Live(q[..i], z)| <= |Live(q[..j], z)| <= |Live(q[..i], z)| + j - i
    ensures i < j && q[i] !in z ==> |Live(q[..i], z)| < |Live(q[..j], z)| && Live(q[..j], z)[|Live(q[..i], z)|] == q[i]
  {
    if i < j {
      assert q[..j][..j - 1] == q[..j - 1];
      LivePrefix(q, z, i, j - 1);
    }
  }

  /** Where a surviving task stands afterwards. */
  lemma LiveIndex(q: seq<nat>, z: set<nat>, x: nat)
    requires Distinct(q) && x in q && x !in z
    ensures x in Live(q, z) && IndexOf(Live(q, z), x) == |Live(q[..IndexOf(q, x)], z)|
  {
    var i := IndexOf(q, x);
    LivePrefix(q, z, i, |q|);
    assert q[..|q|] == q;
    LiveDistinct(q, z);
    IndexIs(Live(q, z), |Live(q[..i], z)|);
  }

  /** Reaping keeps the circular order and brings no task further away. */
  lemma LiveDistance(q: seq<nat>, z: set<nat>, c: nat, x: nat, y: nat)
    requires Distinct(q) && c in q && x in q && y in q && c !in z && x !in z && y !in z
    ensures c in Live(q, z) && x in Live(q, z) && y in Live(q, z)
    ensures Distance(Live(q, z), c, x) <= Distance(q, c, x)
    ensures Distance(q, c, x) < Distance(q, c, y) <==> Distance(Live(q, z), c, x) < Distance(Live(q, z), c, y)
  {
    LiveIndex(q, z, c);
    LiveIndex(q, z, x);
    LiveIndex(q, z, y);
    LiveSpan(q, z, c, x);
    LiveSpan(q, z, c, y);
    LiveSpan(q, z, x, y);
    LiveEnd(q, z, x);
    LiveEnd(q, z, c);
    LiveEnd(q, z, y);
  }

  /** Between two survivors no more tasks are left than were there. */
  lemma LiveSpan(q: seq<nat>, z: set<nat>, x: nat, y: nat)
    requires Distinct(q) && x in q && y in q && x !in z && y !in z
    ensures x in Live(q, z) && y in Live(q, z)
    ensures var i, j, i', j' := IndexOf(q, x), IndexOf(q, y), IndexOf(Live(q, z), x), IndexOf(Live(q, z), y);
            && (i <= j ==> i' <= j' <= i' + j - i)
            && (j <= i ==> j' <= i' <= j' + i - j)
            && (i == j <==> i' == j')
  {
    LiveIndex(q, z, x);
    LiveIndex(q, z, y);
    var i, j := IndexOf(q, x), IndexOf(q, y);
    LivePrefix(q, z, if i <= j then i else j, if i <= j then j else i);
  }

  lemma LiveEnd(q: seq<nat>, z: set<nat>, x: nat)
    requires Distinct(q) && x in q && x !in z
    ensures x in Live(q, z) && |Live(q, z)| - IndexOf(Live(q, z), x) <= |q| - IndexOf(q, x)
  {
    LiveIndex(q, z, x);
    LivePrefix(q, z, IndexOf(q, x), |q|);
    assert q[..|q|] == q;
  }

  // --- the steps

  /** What a call does before it reaches `schedule`. */
  ghost function Prepare(s: State, op: Op): State {
    match op
    case Create => s.(queue := s.queue + [s.next], next := s.next + 1)
    case Yield => s
    case Stop(task) => s.(zombies := s.zombies + {task})
    case Exit => s.(zombies := s.zombies + {s.current})
    case IdleTurn => s.(queue := Live(s.queue, s.zombies))
  }

  /** schedule */
  ghost function Switch(s: State): State {
    s.(current := Next(s.queue, s.current))
  }

  ghost function Step(s: State, op: Op): State {
    if op.Create? then Prepare(s, op) else Switch(Prepare(s, op))
  }

  /** The idle task runs its loop and nothing else, but a timer interrupt can call `schedule` in
      it; a task is stopped through its place in the queue. */
  ghost predicate Can(s: State, op: Op) {
    && (op.IdleTurn? ==> s.current == IDLE)
    && (s.current == IDLE ==> op.IdleTurn? || op.Yield?)
    && (op.Stop? ==> op.task in s.queue)
  }

  /** What every reachable state satisfies. */
  ghost predicate Sane(s: State) {
    && Distinct(s.queue)
    && (forall x :: x in s.queue ==> x < s.next)
    && (forall x :: x in s.zombies ==> x < s.next)
    && s.current < s.next
    && (s.current in s.queue || s.current == IDLE)
  }

  /** The idle task is on the queue to stay. */
  ghost predicate Alive(s: State) {
    Sane(s) && IDLE in s.queue && IDLE !in s.zombies && s.current in s.queue
  }

  /** kthread_init */
  ghost function Boot(): (s: State)
    ensures Alive(s)
  {
    State([IDLE], IDLE, {}, 1)
  }

  /** After the first initrd_exec: the shell, which ran as the idle task, has become task 1. */
  ghost function Started(): (s: State)
    ensures Alive(s)
  {
    State([IDLE, 1], 1, {}, 2)
  }

  lemma StepSane(s: State, op: Op)
    requires Sane(s) && (op.Create? || Can(s, op))
    ensures Sane(Step(s, op)) && s.next <= Step(s, op).next
  {
    assert s.next !in s.queue;
    LiveMembers(s.queue, s.zombies);
    LiveDistinct(s.queue, s.zombies);
  }

  lemma StepAlive(s: State, op: Op)
    requires Alive(s) && Can(s, op) && op != Stop(IDLE)
    ensures Alive(Step(s, op)) && Prepare(s, op).current in Prepare(s, op).queue && Sane(Prepare(s, op))
  {
    StepSane(s, op);
    LiveMembers(s.queue, s.zombies);
    LiveDistinct(s.queue, s.zombies);
  }

  /** A task once unlinked is never linked again. */
  lemma StepGone(s: State, op: Op, x: nat)
    requires x < s.next && x !in s.queue
    ensures x !in Step(s, op).queue
  {
    LiveMembers(s.queue, s.zombies);
  }

  // --- runs

  ghost function Run(s: State, ops: seq<Op>): State
    decreases ops
  {
    if ops == [] then s else Run(Step(s, ops[0]), ops[1..])
  }

  ghost predicate Legal(s: State, ops: seq<Op>)
    decreases ops
  {
    ops == [] || (Can(s, ops[0]) && Legal(Step(s, ops[0]), ops[1..]))
  }

  ghost predicate Dispatches(s: State, op: Op, x: nat) {
    Step(s, op).current == x != s.current
  }

  /** How often `x` is switched to in a run. */
  ghost function Count(s: State, ops: seq<Op>, x: nat): nat
    decreases ops
  {
    if ops == [] then 0
    else (if Dispatches(s, ops[0], x) then 1 else 0) + Count(Step(s, ops[0]), ops[1..], x)
  }

  lemma {:induction false} RunSane(s: State, ops: seq<Op>)
    requires Sane(s) && Legal(s, ops)
    ensures Sane(Run(s, ops)) && s.next <= Run(s, ops).next
    decreases ops
  {
    if ops != [] {
      StepSane(s, ops[0]);
      RunSane(Step(s, ops[0]), ops[1..]);
    }
  }

  lemma {:induction false} RunAlive(s: State, ops: seq<Op>)
    requires Alive(s) && Legal(s, ops) && Stop(IDLE) !in ops
    ensures Alive(Run(s, ops))
    decreases ops
  {
    if ops != [] {
      StepAlive(s, ops[0]);
      RunAlive(Step(s, ops[0]), ops[1..]);
    }
  }

  /** Until then no operation of a task takes place, whatever interrupts arrive. */
  lemma {:induction false} BootWaits(ops: seq<Op>)
    requires Legal(Boot(), ops)
    ensures Run(Boot(), ops) == Boot()
  {
    if ops != [] {
      assert Live([IDLE], {}) == [IDLE];
      assert Step(Boot(), ops[0]) == Boot();
      BootWaits(ops[1..]);
    }
  }

  ghost function Creates(n: nat): seq<Op> {
    if n == 0 then [] else [Create] + Creates(n - 1)
  }

  /** From then on any number of tasks can be there at once, and any of them can be running. */
  lemma AllCanRun(n: nat, t: nat) returns (ops: seq<Op>)
    requires t < n + 2
    ensures Legal(Started(), ops) && Run(Started(), ops).current == t
    ensures Run(Started(), ops).queue == seq(n + 2, i requires i >= 0 => i)
  {
    var s := CreatesReach(Started(), n);
    ops := Creates(n);
    if s.current != t {
      assert s.queue[t] == t;
      var more := YieldsReach(s, t);
      Append(Started(), ops, more, t);
      ops := ops + more;
    }
  }

  lemma {:induction false} CreatesReach(s: State, n: nat) returns (r: State)
    requires Standing(s) && s.current != IDLE && s.queue == seq(s.next, i requires i >= 0 => i)
    ensures r == Run(s, Creates(n)) && Legal(s, Creates(n)) && Standing(r) && r.current == s.current
    ensures r.next == s.next + n && r.queue == seq(r.next, i requires i >= 0 => i)
    decreases n
  {
    r := s;
    if n > 0 {
      var m := Step(s, Create);
      StepSane(s, Create);
      assert m.queue == seq(m.next, i requires i >= 0 => i);
      assert Creates(n)[0] == Create && Creates(n)[1..] == Creates(n - 1);
      r := CreatesReach(m, n - 1);
    }
  }

  lemma {:induction false} RunGone(s: State, ops: seq<Op>, x: nat)
    requires Sane(s) && Legal(s, ops) && x < s.next && x in Run(s, ops).queue
    ensures x in s.queue
    decreases ops
  {
    if ops != [] {
      StepSane(s, ops[0]);
      RunGone(Step(s, ops[0]), ops[1..], x);
      if x !in s.queue {
        StepGone(s, ops[0], x);
      }
    }
  }

  // --- who stays

  /** Operation i ends task u: it is stopped, or it exits while it runs. */
  ghost predicate EndsAt(s: State, ops: seq<Op>, u: nat, i: nat) {
    i < |ops| && (ops[i] == Stop(u) || (ops[i] == Exit && Run(s, ops[..i]).current == u))
  }

  ghost predicate Ended(s: State, ops: seq<Op>, u: nat) {
    exists i :: 0 <= i < |ops| && EndsAt(s, ops, u, i)
  }

  /** Operation i is a turn of idle that finds u a zombie. */
  ghost predicate ReapedAt(s: State, ops: seq<Op>, u: nat, i: nat) {
    i < |ops| && ops[i] == IdleTurn && u in Run(s, ops[..i]).zombies
  }

  ghost predicate Reaped(s: State, ops: seq<Op>, u: nat) {
    exists i :: 0 <= i < |ops| && ReapedAt(s, ops, u, i)
  }

  lemma {:induction false} RunSnoc(s: State, ops: seq<Op>, op: Op)
    ensures Run(s, ops + [op]) == Step(Run(s, ops), op)
    ensures Legal(s, ops + [op]) <==> Legal(s, ops) && Can(Run(s, ops), op)
    decreases ops
  {
    if ops == [] {
      assert [op][1..] == [];
    } else {
      assert (ops + [op])[1..] == ops[1..] + [op];
      RunSnoc(Step(s, ops[0]), ops[1..], op);
    }
  }

  /** The last operation of a run, and the run before it. */
  lemma RunLast(s: State, ops: seq<Op>) returns (front: seq<Op>, op: Op)
    requires ops != []
    ensures front == ops[..|ops| - 1] && op == ops[|ops| - 1]
    ensures Run(s, ops) == Step(Run(s, front), op) && (Legal(s, ops) <==> Legal(s, front) && Can(Run(s, front), op))
    ensures forall u :: Ended(s, ops, u) <==> Ended(s, front, u) || EndsAt(s, ops, u, |ops| - 1)
    ensures forall u :: Reaped(s, ops, u) <==> Reaped(s, front, u) || ReapedAt(s, ops, u, |ops| - 1)
  {
    front, op := ops[..|ops| - 1], ops[|ops| - 1];
    assert ops == front + [op];
    RunSnoc(s, front, op);
    assert forall i :: 0 <= i < |front| ==> front[..i] == ops[..i];
    forall u, i | 0 <= i < |front|
      ensures EndsAt(s, ops, u, i) <==> EndsAt(s, front, u, i)
      ensures ReapedAt(s, ops, u, i) <==> ReapedAt(s, front, u, i)
    {
      assert front[..i] == ops[..i];
    }
    forall u
      ensures Ended(s, ops, u) <==> Ended(s, front, u) || EndsAt(s, ops, u, |ops| - 1)
      ensures Reaped(s, ops, u) <==> Reaped(s, front, u) || ReapedAt(s, ops, u, |ops| - 1)
    {
      LastEnds(s, ops, front, u);
    }
  }

  lemma LastEnds(s: State, ops: seq<Op>, front: seq<Op>, u: nat)
    requires |ops| == |front| + 1
    requires forall i :: 0 <= i < |front| ==> (EndsAt(s, ops, u, i) <==> EndsAt(s, front, u, i))
    requires forall i :: 0 <= i < |front| ==> (ReapedAt(s, ops, u, i) <==> ReapedAt(s, front, u, i))
    ensures Ended(s, ops, u) <==> Ended(s, front, u) || EndsAt(s, ops, u, |ops| - 1)
    ensures Reaped(s, ops, u) <==> Reaped(s, front, u) || ReapedAt(s, ops, u, |ops| - 1)
  {
    if Ended(s, front, u) {
      var i :| 0 <= i < |front| && EndsAt(s, front, u, i);
      assert EndsAt(s, ops, u, i);
    }
    if Reaped(s, front, u) {
      var i :| 0 <= i < |front| && ReapedAt(s, front, u, i);
      assert ReapedAt(s, ops, u, i);
    }
  }

  /** A task is a zombie if and only if it was stopped or has exited. */
  lemma {:induction false} ZombieIffEnded(s: State, ops: seq<Op>, u: nat)
    ensures u in Run(s, ops).zombies <==> u in s.zombies || Ended(s, ops, u)
    decreases |ops|
  {
    if ops != [] {
      var front, op := RunLast(s, ops);
      ZombieIffEnded(s, front, u);
      assert ops[..|ops| - 1] == front;
    }
  }

  /** A task on the queue leaves it if and only if a turn of idle finds it a zombie. */
  lemma {:induction false} LeavesIffReaped(s: State, ops: seq<Op>, u: nat)
    requires u in s.queue && u < s.next
    ensures u in Run(s, ops).queue <==> !Reaped(s, ops, u)
    ensures Run(s, ops).next >= s.next
    decreases |ops|
  {
    if ops != [] {
      var front, op := RunLast(s, ops);
      LeavesIffReaped(s, front, u);
      assert ops[..|ops| - 1] == front;
      LiveMembers(Run(s, front).queue, Run(s, front).zombies);
    }
  }

  /** A task that is there and is neither stopped nor exits stays there, alive. */
  lemma SurvivesUnlessEnded(s: State, ops: seq<Op>, u: nat)
    requires u in s.queue && u < s.next && u !in s.zombies && !Ended(s, ops, u)
    ensures u in Run(s, ops).queue && u !in Run(s, ops).zombies
  {
    ZombieIffEnded(s, ops, u);
    LeavesIffReaped(s, ops, u);
    if Reaped(s, ops, u) {
      var i :| 0 <= i < |ops| && ReapedAt(s, ops, u, i);
      ZombieIffEnded(s, ops[..i], u);
      var j :| 0 <= j < |ops[..i]| && EndsAt(s, ops[..i], u, j);
      assert ops[..i][..j] == ops[..j];
      assert EndsAt(s, ops, u, j);
    }
  }

  /** A new task is last on the queue, has the next number, and stays until it is stopped or exits. */
  lemma CreatedSurvives(s: State, ops: seq<Op>, i: nat)
    requires Sane(s) && Legal(s, ops) && i < |ops| && ops[i] == Create
    ensures var m := Run(s, ops[..i]);
            && Run(s, ops[..i + 1]).queue == m.queue + [m.next]
            && (!Ended(Run(s, ops[..i + 1]), ops[i + 1..], m.next) ==>
                  m.next in Run(s, ops).queue && m.next !in Run(s, ops).zombies)
  {
    var m, n := Run(s, ops[..i]), Run(s, ops[..i + 1]);
    RunSplit(s, ops, i);
    RunSplit(s, ops, i + 1);
    RunSane(s, ops[..i]);
    assert ops[..i + 1] == ops[..i] + [Create];
    RunSnoc(s, ops[..i], Create);
    if !Ended(n, ops[i + 1..], m.next) {
      SurvivesUnlessEnded(n, ops[i + 1..], m.next);
    }
  }

  lemma RunSplit(s: State, ops: seq<Op>, i: nat)
    requires i <= |ops|
    ensures Run(s, ops) == Run(Run(s, ops[..i]), ops[i..])
    ensures Legal(s, ops) ==> Legal(s, ops[..i]) && Legal(Run(s, ops[..i]), ops[i..])
  {
    assert ops == ops[..i] + ops[i..];
    Append(s, ops[..i], ops[i..], 0);
  }

  /** The tasks that stay keep their order, and new ones come behind them. */
  lemma {:induction false} RunKeepsOrder(s: State, ops: seq<Op>, x: nat, y: nat)
    requires Sane(s) && Legal(s, ops) && x in s.queue && x in Run(s, ops).queue && y in Run(s, ops).queue
    ensures y !in s.queue ==> IndexOf(Run(s, ops).queue, x) < IndexOf(Run(s, ops).queue, y)
    ensures y in s.queue && IndexOf(s.queue, x) < IndexOf(s.queue, y) ==>
              IndexOf(Run(s, ops).queue, x) < IndexOf(Run(s, ops).queue, y)
    decreases ops
  {
    if ops != [] {
      var m := Step(s, ops[0]);
      StepSane(s, ops[0]);
      RunGone(m, ops[1..], x);
      if y < m.next {
        RunGone(m, ops[1..], y);
        StepOrder(s, ops[0], x, y);
      }
      RunKeepsOrder(m, ops[1..], x, y);
    }
  }

  lemma StepOrder(s: State, op: Op, x: nat, y: nat)
    requires Sane(s) && Can(s, op) && x in s.queue && x in Step(s, op).queue && y in Step(s, op).queue
    ensures y !in s.queue ==> IndexOf(Step(s, op).queue, x) < IndexOf(Step(s, op).queue, y)
    ensures y in s.queue && IndexOf(s.queue, x) < IndexOf(s.queue, y) ==>
              IndexOf(Step(s, op).queue, x) < IndexOf(Step(s, op).queue, y)
  {
    if op.Create? {
      AppendIndex(s.queue, s.next, x);
      if y in s.queue {
        AppendIndex(s.queue, s.next, y);
      } else {
        assert y == s.next;
      }
    } else if op.IdleTurn? {
      LiveMembers(s.queue, s.zombies);
      LiveSpan(s.queue, s.zombies, x, y);
    }
  }

  /** Whatever a task does but create others, it gives the processor away while there is another task. */
  lemma PassesOn(s: State, op: Op)
    requires Sane(s) && s.current in Prepare(s, op).queue && !op.Create? && Can(s, op)
    ensures Step(s, op).current == s.current <==> Prepare(s, op).queue == [s.current]
    ensures Step(s, op).current in Prepare(s, op).queue && Step(s, op).queue == Prepare(s, op).queue
  {
    StepSane(s, op);
    var q := Prepare(s, op).queue;
    NextDistance(q, s.current, s.current);
    if |q| == 1 {
      assert q == [q[0]];
    }
  }

  // --- every task gets its turn

  /** The run ends just when `t` is switched to, for the first time. */
  ghost predicate UntilDispatch(s: State, ops: seq<Op>, t: nat)
    decreases ops
  {
    && ops != []
    && if Dispatches(s, ops[0], t) then |ops| == 1 else UntilDispatch(Step(s, ops[0]), ops[1..], t)
  }

  /** Whether `u` is still to be dispatched before `t` is. */
  ghost predicate Owed(s: State, t: nat, u: nat)
    requires s.current in s.queue && t in s.queue && u in s.queue
  {
    s.current == t || 0 < Distance(s.queue, s.current, u) < Distance(s.queue, s.current, t)
  }

  lemma PrepareOrder(s: State, op: Op, x: nat, y: nat)
    requires Alive(s) && Can(s, op) && op != Stop(IDLE) && x < s.next && y < s.next
    requires var p := Prepare(s, op); x in p.queue && y in p.queue
    ensures var p := Prepare(s, op);
            && p.current == s.current && p.current in p.queue && x in s.queue && y in s.queue
            && (Distance(s.queue, s.current, x) < Distance(s.queue, s.current, y) <==>
                Distance(p.queue, p.current, x) < Distance(p.queue, p.current, y))
  {
    match op
    case Create =>
      CreateOrder(s.queue, s.next, s.current, x, y);
    case IdleTurn =>
      LiveMembers(s.queue, s.zombies);
      LiveDistance(s.queue, s.zombies, s.current, x, y);
    case _ =>
  }

  lemma CreateOrder(q: seq<nat>, n: nat, c: nat, x: nat, y: nat)
    requires Distinct(q) && (forall u :: u in q ==> u < n) && c in q
    requires x < n && y < n && x in q + [n] && y in q + [n]
    ensures x in q && y in q && c in q + [n]
    ensures Distance(q, c, x) < Distance(q, c, y) <==> Distance(q + [n], c, x) < Distance(q + [n], c, y)
  {
    AppendIndex(q, n, x);
    AppendIndex(q, n, y);
    AppendIndex(q, n, c);
  }

  lemma AppendIndex(q: seq<nat>, n: nat, x: nat)
    requires Distinct(q) && x in q && n !in q
    ensures x in q + [n] && IndexOf(q + [n], x) == IndexOf(q, x)
  {
    assert (q + [n])[IndexOf(q, x)] == x;
    IndexIs(q + [n], IndexOf(q, x));
  }

  lemma OwedStep(s: State, op: Op, t: nat, u: nat)
    requires Alive(s) && Can(s, op) && op != Stop(IDLE) && t != u
    requires t < s.next && u < s.next && t in Step(s, op).queue && u in Step(s, op).queue
    ensures var s' := Step(s, op);
            && s'.current in s'.queue && t in s.queue && u in s.queue
            && (Dispatches(s, op, t) ==> !Owed(s, t, u))
            && (!Dispatches(s, op, t) ==> (Owed(s, t, u) <==> Owed(s', t, u) || Dispatches(s, op, u)))
            && (!Dispatches(s, op, t) && Dispatches(s, op, u) ==> !Owed(s', t, u))
  {
    var p := Prepare(s, op);
    StepAlive(s, op);
    PrepareOrder(s, op, u, t);
    PrepareOrder(s, op, s.current, u);
    if !op.Create? {
      NextDistance(p.queue, p.current, t);
      NextDistance(p.queue, p.current, u);
      DistanceInjective(p.queue, p.current, t, u);
    }
  }

  lemma {:induction false} OwedOnce(s: State, ops: seq<Op>, t: nat, u: nat)
    requires Alive(s) && Legal(s, ops) && Stop(IDLE) !in ops && UntilDispatch(s, ops, t)
    requires t != u && t < s.next && u < s.next && u in Run(s, ops).queue
    ensures t in s.queue && u in s.queue
    ensures Count(s, ops, u) == if Owed(s, t, u) then 1 else 0
    decreases ops
  {
    var s' := Step(s, ops[0]);
    StepAlive(s, ops[0]);
    RunGone(s', ops[1..], u);
    if Dispatches(s, ops[0], t) {
      assert ops[1..] == [];
    } else {
      OwedOnce(s', ops[1..], t, u);
    }
    OwedStep(s, ops[0], t, u);
  }

  /** Between two consecutive dispatches of `t` every other task that is there all the time is
      dispatched exactly once, whatever is created, stopped, reaped or preempted meanwhile. */
  lemma EveryTaskOnce(s: State, ops: seq<Op>, t: nat, u: nat)
    requires Alive(s) && Legal(s, ops) && Stop(IDLE) !in ops
    requires s.current == t && UntilDispatch(s, ops, t)
    requires u != t && u in s.queue && u in Run(s, ops).queue
    ensures Count(s, ops, u) == 1
  {
    OwedOnce(s, ops, t, u);
  }

  // --- how long a task waits

  ghost function Creations(ops: seq<Op>): nat {
    if ops == [] then 0 else (if ops[0].Create? then 1 else 0) + Creations(ops[1..])
  }

  /** How often the processor changes hands. */
  ghost function Switches(s: State, ops: seq<Op>): nat
    decreases ops
  {
    if ops == [] then 0
    else (if Step(s, ops[0]).current != s.current then 1 else 0) + Switches(Step(s, ops[0]), ops[1..])
  }

  lemma WaitStep(s: State, op: Op, u: nat)
    requires Alive(s) && Can(s, op) && op != Stop(IDLE)
    requires u < s.next && u in Step(s, op).queue && s.current != u
    ensures var s' := Step(s, op);
            && s'.current in s'.queue && u in s.queue
            && Distance(s'.queue, s'.current, u) + (if s'.current != s.current then 1 else 0)
               <= Distance(s.queue, s.current, u) + (if op.Create? then 1 else 0)
  {
    var p := Prepare(s, op);
    StepAlive(s, op);
    match op
    case Create =>
      AppendIndex(s.queue, s.next, u);
      AppendIndex(s.queue, s.next, s.current);
    case IdleTurn =>
      LiveMembers(s.queue, s.zombies);
      LiveDistance(s.queue, s.zombies, s.current, u, u);
      NextDistance(p.queue, p.current, u);
    case _ =>
      NextDistance(p.queue, p.current, u);
  }

  /** A task waits for those in front of it and, at most, for those created meanwhile. */
  lemma {:induction false} WaitIsBounded(s: State, ops: seq<Op>, u: nat)
    requires Alive(s) && Legal(s, ops) && Stop(IDLE) !in ops
    requires u in s.queue && u in Run(s, ops).queue && s.current != u && Count(s, ops, u) == 0
    ensures Switches(s, ops) < Distance(s.queue, s.current, u) + Creations(ops)
    decreases ops
  {
    if ops != [] {
      var s' := Step(s, ops[0]);
      StepAlive(s, ops[0]);
      RunGone(s', ops[1..], u);
      WaitStep(s, ops[0], u);
      WaitIsBounded(s', ops[1..], u);
    }
  }

  // --- tasks that end

  /** The idle task is on the queue, if only until its next turn. */
  ghost predicate Standing(s: State) {
    Sane(s) && IDLE in s.queue && s.current in s.queue
  }

  /** A task that is no longer linked never runs again, whatever happens. */
  lemma {:induction false} GoneNeverRuns(s: State, ops: seq<Op>, t: nat)
    requires Sane(s) && Legal(s, ops) && t < s.next && t !in s.queue && s.current != t
    ensures Count(s, ops, t) == 0
    decreases ops
  {
    if ops != [] {
      StepSane(s, ops[0]);
      StepGone(s, ops[0], t);
      LiveMembers(s.queue, s.zombies);
      GoneNeverRuns(Step(s, ops[0]), ops[1..], t);
    }
  }

  /** While another task than idle runs nothing leaves the queue, and each switch brings every task but
      the one that leaves the processor one place nearer. */
  lemma ActiveStep(s: State, op: Op, x: nat)
    requires Standing(s) && Can(s, op) && s.current != IDLE && x in s.queue
    ensures var s' := Step(s, op);
            && Standing(s') && x in s'.queue && s.zombies <= s'.zombies
            && (!op.Create? ==>
                  && s'.queue == s.queue && s'.current != s.current
                  && Distance(s'.queue, s'.current, x) ==
                       if x == s.current then |s.queue| - 1 else Distance(s.queue, s.current, x) - 1)
  {
    StepSane(s, op);
    if op.Create? {
      assert x in s.queue + [s.next];
    } else {
      NextDistance(s.queue, s.current, x);
      NextDistance(s.queue, s.current, s.current);
    }
  }

  /** A zombie which the idle task reaches before it could run again. */
  ghost predicate Doomed(s: State, t: nat)
    requires s.current in s.queue && IDLE in s.queue
  {
    t in s.zombies && t in s.queue && Distance(s.queue, s.current, IDLE) < Distance(s.queue, s.current, t)
  }

  lemma DoomedStep(s: State, op: Op, t: nat)
    requires Standing(s) && Can(s, op) && s.current != IDLE && Doomed(s, t)
    ensures Standing(Step(s, op)) && Doomed(Step(s, op), t) && !Dispatches(s, op, t)
  {
    ActiveStep(s, op, t);
    ActiveStep(s, op, IDLE);
    if op.Create? {
      AppendIndex(s.queue, s.next, s.current);
      AppendIndex(s.queue, s.next, t);
      AppendIndex(s.queue, s.next, IDLE);
    }
  }

  /** The first operation of the idle task, if the run comes to one, is a completed turn. */
  ghost predicate IdleCompletes(s: State, ops: seq<Op>)
    decreases ops
  {
    ops == [] || if s.current == IDLE then ops[0].IdleTurn? else IdleCompletes(Step(s, ops[0]), ops[1..])
  }

  /** A turn of the idle task unlinks the zombies for good. */
  lemma TurnReaps(s: State, ops: seq<Op>, t: nat)
    requires Standing(s) && s.current == IDLE && t in s.zombies && t != IDLE
    requires ops != [] && ops[0] == IdleTurn && Legal(s, ops)
    ensures Count(s, ops, t) == 0
  {
    StepSane(s, IdleTurn);
    LiveMembers(s.queue, s.zombies);
    GoneNeverRuns(Step(s, IdleTurn), ops[1..], t);
  }

  lemma {:induction false} DoomedNeverRuns(s: State, ops: seq<Op>, t: nat)
    requires Standing(s) && Legal(s, ops) && IdleCompletes(s, ops) && Doomed(s, t)
    ensures Count(s, ops, t) == 0
    decreases ops
  {
    if ops != [] {
      if s.current == IDLE {
        TurnReaps(s, ops, t);
      } else {
        DoomedStep(s, ops[0], t);
        DoomedNeverRuns(Step(s, ops[0]), ops[1..], t);
      }
    }
  }

  /** The task that leaves the processor is behind all others. */
  lemma LeavingIsDoomed(s: State, op: Op)
    requires Standing(s) && Can(s, op) && !op.Create? && s.current != IDLE && s.current in Prepare(s, op).zombies
    ensures Standing(Step(s, op)) && Doomed(Step(s, op), s.current) && !Dispatches(s, op, s.current)
  {
    ActiveStep(s, op, s.current);
    ActiveStep(s, op, IDLE);
    DistanceInjective(s.queue, Step(s, op).current, s.current, IDLE);
  }

  /** A task that has called kthread_exit is not dispatched again as long as the idle task's first
      operation afterwards, once it comes, is a completed turn. */
  lemma ExitedNeverRuns(s: State, ops: seq<Op>)
    requires Standing(s) && Can(s, Exit)
    requires Legal(Step(s, Exit), ops) && IdleCompletes(Step(s, Exit), ops)
    ensures Count(Step(s, Exit), ops, s.current) == 0 && Step(s, Exit).current != s.current
  {
    LeavingIsDoomed(s, Exit);
    DoomedNeverRuns(Step(s, Exit), ops, s.current);
  }

  /** Likewise a zombie is dispatched at most once more, and not at all while it is running. */
  lemma {:induction false} ZombieRunsAtMostOnce(s: State, ops: seq<Op>, t: nat)
    requires Standing(s) && Legal(s, ops) && IdleCompletes(s, ops)
    requires t in s.zombies && t in s.queue && t != IDLE
    ensures Count(s, ops, t) <= if s.current == t then 0 else 1
    decreases ops
  {
    if ops != [] {
      if s.current == IDLE {
        TurnReaps(s, ops, t);
      } else {
        ActiveStep(s, ops[0], t);
        if s.current == t && !ops[0].Create? {
          LeavingIsDoomed(s, ops[0]);
          DoomedNeverRuns(Step(s, ops[0]), ops[1..], t);
        } else {
          ZombieRunsAtMostOnce(Step(s, ops[0]), ops[1..], t);
        }
      }
    }
  }

  /** How often a task marked by kthread_stop may still be dispatched: once, but not at all when it
      stopped itself. */
  function Remaining(s: State, t: nat): nat {
    if s.current == t then 0 else 1
  }

  /** A task marked by kthread_stop is dispatched at most once more, under the same condition. */
  lemma StoppedRunsAtMostOnce(s: State, ops: seq<Op>, t: nat)
    requires Standing(s) && Can(s, Stop(t)) && t != IDLE
    requires Legal(Step(s, Stop(t)), ops) && IdleCompletes(Step(s, Stop(t)), ops)
    ensures Count(s, [Stop(t)] + ops, t) <= Remaining(s, t)
  {
    var all := [Stop(t)] + ops;
    assert all[0] == Stop(t) && all[1..] == ops;
    ActiveStep(s, Stop(t), t);
    if s.current == t {
      LeavingIsDoomed(s, Stop(t));
      DoomedNeverRuns(Step(s, Stop(t)), ops, t);
    } else {
      ZombieRunsAtMostOnce(Step(s, Stop(t)), ops, t);
    }
  }

  // --- the condition is exact

  /** The run ends with the first operation of the idle task. */
  ghost predicate UpToIdle(s: State, ops: seq<Op>)
    decreases ops
  {
    ops != [] && if s.current == IDLE then |ops| == 1 else UpToIdle(Step(s, ops[0]), ops[1..])
  }

  lemma {:induction false} Append(s: State, a: seq<Op>, b: seq<Op>, t: nat)
    ensures Legal(s, a + b) <==> Legal(s, a) && Legal(Run(s, a), b)
    ensures Count(s, a + b, t) == Count(s, a, t) + Count(Run(s, a), b, t)
    ensures Run(s, a + b) == Run(Run(s, a), b)
    decreases a
  {
    if a == [] {
      assert a + b == b;
    } else {
      assert (a + b)[1..] == a[1..] + b;
      Append(Step(s, a[0]), a[1..], b, t);
    }
  }

  lemma {:induction false} CompletedStays(s: State, ops: seq<Op>, more: seq<Op>)
    requires UpToIdle(s, ops) && ops[|ops| - 1].IdleTurn?
    ensures IdleCompletes(s, ops + more)
    decreases ops
  {
    assert (ops + more)[1..] == ops[1..] + more;
    if s.current != IDLE {
      CompletedStays(Step(s, ops[0]), ops[1..], more);
    }
  }

  lemma YieldStands(s: State, t: nat)
    requires Standing(s) && t in s.queue
    ensures var s' := Step(s, Yield);
            && Can(s, Yield) && Standing(s') && s'.queue == s.queue && s'.next == s.next
            && Distance(s'.queue, s'.current, t) == if t == s.current then |s.queue| - 1
                else Distance(s.queue, s.current, t) - 1
  {
    StepSane(s, Yield);
    NextDistance(s.queue, s.current, t);
  }

  /** Every task on the queue, zombie or not, is reached by preemption alone. */
  lemma {:induction false} YieldsReach(s: State, t: nat) returns (ops: seq<Op>)
    requires Standing(s) && t in s.queue && t != s.current
    ensures Legal(s, ops) && Count(s, ops, t) == 1
    ensures Standing(Run(s, ops)) && Run(s, ops).current == t && Run(s, ops).queue == s.queue
    decreases Distance(s.queue, s.current, t)
  {
    var s' := Step(s, Yield);
    YieldStands(s, t);
    var rest := [];
    if s'.current != t {
      rest := YieldsReach(s', t);
    }
    ops := [Yield] + rest;
    assert ops[0] == Yield && ops[1..] == rest;
  }

  /** A running task is reached again in the same way. */
  lemma YieldsReturn(s: State, t: nat) returns (ops: seq<Op>)
    requires Standing(s) && t == s.current && t != IDLE
    ensures Legal(s, ops) && Count(s, ops, t) == 1
    ensures Standing(Run(s, ops)) && Run(s, ops).current == t && Run(s, ops).queue == s.queue
  {
    YieldStands(s, IDLE);
    YieldStands(s, t);
    DistanceInjective(s.queue, s.current, t, IDLE);
    var rest := YieldsReach(Step(s, Yield), t);
    ops := [Yield] + rest;
    assert ops[0] == Yield && ops[1..] == rest;
  }

  lemma YieldsReachTwice(s: State, t: nat) returns (ops: seq<Op>)
    requires Standing(s) && t in s.queue && t != IDLE
    ensures Legal(s, ops) && Count(s, ops, t) == 2
  {
    var a: seq<Op>;
    if s.current != t {
      a := YieldsReach(s, t);
    } else {
      a := YieldsReturn(s, t);
    }
    var b := YieldsReturn(Run(s, a), t);
    Append(s, a, b, t);
    ops := a + b;
  }

  /** When the idle task is preempted instead, nothing has left the queue. */
  lemma {:induction false} PreemptedStands(s: State, ops: seq<Op>, t: nat)
    requires Standing(s) && t in s.queue && Legal(s, ops) && UpToIdle(s, ops) && !ops[|ops| - 1].IdleTurn?
    ensures Standing(Run(s, ops)) && t in Run(s, ops).queue
    decreases ops
  {
    if s.current == IDLE {
      YieldStands(s, t);
      assert ops[1..] == [];
    } else {
      ActiveStep(s, ops[0], t);
      PreemptedStands(Step(s, ops[0]), ops[1..], t);
    }
  }

  ghost predicate AtMost(s: State, ops: seq<Op>, more: seq<Op>, t: nat, n: nat) {
    Legal(s, ops + more) ==> Count(s, ops + more, t) <= n
  }

  lemma PreemptedRuns(s: State, ops: seq<Op>, t: nat, n: nat)
    requires Standing(s) && t in s.queue && t != IDLE && Legal(s, ops) && UpToIdle(s, ops) && !ops[|ops| - 1].IdleTurn?
    requires n <= 1
    ensures exists more :: !AtMost(s, ops, more, t, n)
  {
    PreemptedStands(s, ops, t);
    var more := YieldsReachTwice(Run(s, ops), t);
    Append(s, ops, more, t);
    assert !AtMost(s, ops, more, t, n);
  }

  /** `ops` runs from a call of kthread_exit up to the idle task's first operation.  The task never runs
      again, however the run goes on, if and only if that operation is a completed turn. */
  lemma ExitedForGood(s: State, ops: seq<Op>)
    requires Standing(s) && Can(s, Exit) && Legal(Step(s, Exit), ops) && UpToIdle(Step(s, Exit), ops)
    ensures ops[|ops| - 1].IdleTurn? <==> forall more :: AtMost(Step(s, Exit), ops, more, s.current, 0)
  {
    var s', t := Step(s, Exit), s.current;
    LeavingIsDoomed(s, Exit);
    if ops[|ops| - 1].IdleTurn? {
      forall more
        ensures AtMost(s', ops, more, t, 0)
      {
        CompletedStays(s', ops, more);
        if Legal(s', ops + more) {
          DoomedNeverRuns(s', ops + more, t);
        }
      }
    } else {
      PreemptedRuns(s', ops, t, 0);
    }
  }

  /** `ops` runs from a call of kthread_stop up to the idle task's first operation.  The task marked is
      dispatched at most once more, however the run goes on, if and only if that operation is a
      completed turn. */
  lemma StoppedForGood(s: State, ops: seq<Op>, t: nat)
    requires Standing(s) && Can(s, Stop(t)) && t != IDLE
    requires Legal(Step(s, Stop(t)), ops) && UpToIdle(Step(s, Stop(t)), ops)
    ensures ops[|ops| - 1].IdleTurn? <==> forall more :: AtMost(Step(s, Stop(t)), ops, more, t, Remaining(s, t))
  {
    var s', n := Step(s, Stop(t)), Remaining(s, t);
    ActiveStep(s, Stop(t), t);
    if ops[|ops| - 1].IdleTurn? {
      forall more
        ensures AtMost(s', ops, more, t, n)
      {
        CompletedStays(s', ops, more);
        if Legal(s', ops + more) {
          StoppedCount(s, ops + more, t);
        }
      }
    } else {
      PreemptedRuns(s', ops, t, n);
    }
  }

  lemma StoppedCount(s: State, ops: seq<Op>, t: nat)
    requires Standing(s) && Can(s, Stop(t)) && t != IDLE
    requires Legal(Step(s, Stop(t)), ops) && IdleCompletes(Step(s, Stop(t)), ops)
    ensures Count(Step(s, Stop(t)), ops, t) <= Remaining(s, t)
  {
    StoppedRunsAtMostOnce(s, ops, t);
    assert ([Stop(t)] + ops)[1..] == ops;
  }

  /** A run in which the preemption of the idle task brings an exited task back. */
  lemma PreemptedIdleRevives()
    ensures var s := Started();
            && Alive(s) && Legal(s, [Exit, Yield]) && !IdleCompletes(Step(s, Exit), [Yield])
            && Dispatches(Step(s, Exit), Yield, 1)
  {
    var s := Started();
    assert Step(s, Exit) == State([IDLE, 1], IDLE, {1}, 2);
    assert [Exit, Yield][1..] == [Yield];
    assert Step(Step(s, Exit), Yield) == State([IDLE, 1], 1, {1}, 2);
  }

  // --- the idle task must not be stopped

  /** Once the idle task has reaped itself nothing is ever dispatched again. */
  lemma {:induction false} IdleReapedStops(s: State, ops: seq<Op>, x: nat)
    requires Legal(s, ops) && s.current == IDLE && IDLE !in s.queue
    ensures Run(s, ops).current == IDLE && Count(s, ops, x) == 0
    decreases ops
  {
    if ops != [] {
      LiveMembers(s.queue, s.zombies);
      IdleReapedStops(Step(s, ops[0]), ops[1..], x);
    }
  }

  /** A turn of the idle task is its last if and only if it was stopped. */
  lemma IdleTurnIsLast(s: State)
    requires Sane(s) && s.current == IDLE && IDLE in s.queue
    ensures IDLE !in Step(s, IdleTurn).queue <==> IDLE in s.zombies
    ensures IDLE in s.zombies ==> Step(s, IdleTurn).current == IDLE
    ensures forall x :: x in Step(s, IdleTurn).queue <==> x in s.queue && x !in s.zombies
  {
    LiveMembers(s.queue, s.zombies);
  }
}
