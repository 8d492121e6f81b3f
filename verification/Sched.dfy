/** src/sched.c on its linked run queue.

    The context switch of switch_to is the assignment of `current`; what the tasks do between two
    calls, their stacks and their address spaces are not part of this module. */
module Sched {
  import opened Common
  import opened Lists
  import opened Queues
  import opened RoundRobin

  datatype TaskState = Running | Zombie

  /** The queue when kill_zombies has come to position `i`. */
  ghost function Swept(q: seq<nat>, z: set<nat>, i: nat): seq<nat>
    requires i <= |q|
  {
    Live(q[..i], z) + q[i..]
  }

  lemma SweptStarts(q: seq<nat>, z: set<nat>)
    ensures Swept(q, z, 0) == q
  {
  }

  lemma SweptEnds(q: seq<nat>, z: set<nat>, i: nat)
    requires i <= |q| && At(q, i) == Head
    ensures Swept(q, z, i) == Live(q, z)
  {
    assert q[..|q|] == q && q[|q|..] == [];
  }

  lemma SweptStep(q: seq<nat>, z: set<nat>, i: nat) returns (k: nat)
    requires i < |q|
    ensures var s := Swept(q, z, i);
            && k < |s| && s[k] == q[i]
            && Swept(q, z, i + 1) == if q[i] in z then s[..k] + s[k + 1..] else s
  {
    k := |Live(q[..i], z)|;
    assert q[..i + 1][..i] == q[..i];
  }

  /** Behind position `i` the links still lead through the original queue. */
  lemma SweptLinks(l: Links<Ptr>, q: seq<nat>, z: set<nat>, i: nat)
    requires i <= |q| && IsList(l, Head, Nodes(Swept(q, z, i)))
    ensures Head in l.next && At(q, i) in l.next
    ensures i < |q| ==> l.next[At(q, i)] == At(q, i + 1)
  {
    var s, k := Swept(q, z, i), |Live(q[..i], z)|;
    NextAt(l, s, k);
    assert At(s, k) == At(q, i);
    if i < |q| {
      assert At(s, k + 1) == At(q, i + 1);
    }
  }

  /** A node that is a list of its own stays one. */
  lemma OutsideRemoved(l: Links<Ptr>, q: seq<nat>, k: nat, x: nat)
    requires IsList(l, Head, Nodes(q)) && k < |q| && x !in q && IsList(l, Entry(x), [])
    ensures Entry(q[k]) in l.prev && Entry(q[k]) in l.next && IsList(Remove(l, Entry(q[k])), Entry(x), [])
  {
    EntryLinks(l, Head, Nodes(q), k);
    NodesMembers(q, x);
    ListFrame(l, Remove(l, Entry(q[k])), Entry(x), []);
  }

  /** n comes behind c on the queue, the first task behind the last, and c itself once c is unlinked. */
  predicate Follows(q: seq<nat>, c: nat, n: nat) {
    if c in q then
      var i := IndexOf(q, c);
      n == if i + 1 < |q| then q[i + 1] else q[0]
    else n == c
  }

  /** Who stays, for all tasks at once. */
  lemma RunWho(s: State, ops: seq<Op>)
    requires Sane(s)
    ensures forall u :: u in s.queue && u !in s.zombies && !Ended(s, ops, u) ==>
              u in Run(s, ops).queue && u !in Run(s, ops).zombies
    ensures forall u :: u in s.queue ==> (u in Run(s, ops).queue <==> !Reaped(s, ops, u))
    ensures forall u :: u in Run(s, ops).zombies <==> u in s.zombies || Ended(s, ops, u)
  {
    forall u: nat
      ensures u in s.queue && u !in s.zombies && !Ended(s, ops, u) ==>
                u in Run(s, ops).queue && u !in Run(s, ops).zombies
      ensures u in s.queue ==> (u in Run(s, ops).queue <==> !Reaped(s, ops, u))
      ensures u in Run(s, ops).zombies <==> u in s.zombies || Ended(s, ops, u)
    {
      ZombieIffEnded(s, ops, u);
      if u in s.queue {
        LeavesIffReaped(s, ops, u);
        if u !in s.zombies && !Ended(s, ops, u) {
          SurvivesUnlessEnded(s, ops, u);
        }
      }
    }
  }

  class Scheduler {
    const lists: ListMemory<Ptr>
    var states: map<nat, TaskState>
    var current: nat
    var nrThreads: nat
    ghost var queue: seq<nat>

    ghost function Zombies(): set<nat>
      reads this
    {
      set p | p in states && states[p] == Zombie
    }

    ghost function View(): State
      reads this
    {
      State(queue, current, Zombies(), nrThreads)
    }

    /** The run queue links `queue`, and a running task that was unlinked is a list of its own. */
    ghost predicate Linked()
      reads this, lists
    {
      && Distinct(queue)
      && IsList(lists.Words(), Head, Nodes(queue))
      && (current in queue || IsList(lists.Words(), Entry(current), []))
    }

    /** Moreover every task below nr_threads, and no other, has a state. */
    ghost predicate Valid()
      reads this, lists
    {
      && Sane(View())
      && Linked()
      && (forall p: nat :: p in states <==> p < nrThreads)
    }

    /** kthread_init */
    constructor ()
      ensures Valid() && View() == Boot() && fresh(lists)
      ensures queue == [0] && current == 0 && nrThreads == 1 && states == map[0 := Running]
    {
      lists := new ListMemory<Ptr>();
      states, nrThreads, current, queue := map[IDLE := Running], 1, IDLE, [IDLE];
      new;
      lists.InitListHead(Head);
      assert Cycle(Head, Nodes([])) == [Head, Head];
      assert IsList(lists.Words(), Head, Nodes([]));
      NodesInsert([], 0, IDLE);
      assert [][..0] + [IDLE] + [][0..] == [IDLE];
      ListFrame(lists.Words(), Init(lists.Words(), Entry(IDLE)), Head, Nodes([]));
      lists.InitListHead(Entry(IDLE));
      AddTailIsSnoc(lists.Words(), Head, Nodes([]), Entry(IDLE));
      lists.ListAddTail(Entry(IDLE), Head);
    }

    method FindTaskByPid(pid: nat) returns (task: Option<nat>)
      requires Valid()
      ensures task == if pid in queue then Some(pid) else None
    {
      HeadLinks(lists.Words(), Head, Nodes(queue));
      var pos := lists.next[Head];
      ghost var i := 0;
      while pos != Head
        invariant 0 <= i <= |queue| && pos == if i < |queue| then Entry(queue[i]) else Head
        invariant pid !in queue[..i]
        decreases |queue| - i
      {
        if pos.addr == pid {
          return Some(pid);
        }
        EntryLinks(lists.Words(), Head, Nodes(queue), i);
        pos := lists.next[pos];
        i := i + 1;
      }
      return None;
    }

    method Schedule()
      requires Valid()
      modifies this`current
      ensures Valid() && View() == Switch(old(View()))
      ensures Follows(queue, old(current), current)
    {
      var next := NextTask();
      if next == current {
        return;
      }
      current := next;
    }

    /** list_next_entry_circular */
    method NextTask() returns (next: nat)
      requires Valid()
      ensures next == Next(queue, current)
      ensures next in queue || next == current
    {
      if current in queue {
        ghost var i := IndexOf(queue, current);
        EntryLinks(lists.Words(), Head, Nodes(queue), i);
        HeadLinks(lists.Words(), Head, Nodes(queue));
      } else {
        HeadLinks(lists.Words(), Entry(current), []);
      }
      if lists.next[Entry(current)] == Head {
        next := lists.next[Head].addr;
      } else {
        next := lists.next[Entry(current)].addr;
      }
    }

    /** kill_zombies: the list_for_each_safe loop, which fetches the node behind `pos` before the
        task at `pos` is unlinked. */
    method KillZombies()
      requires Valid() && current == IDLE
      modifies this`queue, lists
      ensures Valid() && View() == old(View()).(queue := Live(old(queue), Zombies()))
    {
      forall i | 0 <= i < |queue|
        ensures queue[i] in states
      {
        assert queue[i] in View().queue;
      }
      Sweep(Zombies());
      StepSane(old(View()), RoundRobin.IdleTurn);
    }

    ghost predicate Marked(q: seq<nat>, z: set<nat>)
      reads this`states
    {
      forall i :: 0 <= i < |q| ==> q[i] in states && (q[i] in z <==> states[q[i]] == Zombie)
    }

    /** The traversal stands at position i of the original queue. */
    ghost predicate Sweeping(q: seq<nat>, z: set<nat>, i: nat, pos: Ptr, tmp: Ptr)
      reads this, lists
    {
      && i <= |q| && Linked() && Marked(q, z) && queue == Swept(q, z, i)
      && pos == At(q, i) && (i < |q| ==> tmp == At(q, i + 1))
    }

    method Sweep(ghost z: set<nat>)
      requires Linked() && Marked(queue, z)
      modifies this`queue, lists
      ensures Linked() && queue == Live(old(queue), z)
    {
      ghost var q := queue;
      var pos, tmp := SweepStart(z);
      SweepLoop(pos, tmp, q, z);
    }

    method SweepStart(ghost z: set<nat>) returns (pos: Ptr, tmp: Ptr)
      requires Linked() && Marked(queue, z)
      ensures Sweeping(queue, z, 0, pos, tmp)
    {
      SweptStarts(queue, z);
      NextAt(lists.Words(), queue, 0);
      SweptLinks(lists.Words(), queue, z, 0);
      pos := lists.next[Head];
      tmp := lists.next[pos];
    }

    method SweepLoop(first: Ptr, second: Ptr, ghost q: seq<nat>, ghost z: set<nat>)
      requires Sweeping(q, z, 0, first, second)
      modifies this`queue, lists
      ensures Linked() && queue == Live(q, z)
    {
      var pos, tmp := first, second;
      ghost var i := 0;
      while pos != Head
        invariant 0 <= i <= |q| && Sweeping(q, z, i, pos, tmp)
        decreases |q| - i
      {
        pos, tmp := SweepVisit(pos, tmp, q, z, i);
        i := i + 1;
      }
      SweptEnds(q, z, i);
    }

    /** The loop body of kill_zombies, and the step of list_for_each_safe behind it. */
    method SweepVisit(curr: Ptr, after: Ptr, ghost q: seq<nat>, ghost z: set<nat>, ghost i: nat)
      returns (pos: Ptr, tmp: Ptr)
      requires curr != Head && Sweeping(q, z, i, curr, after)
      modifies this`queue, lists
      ensures i < |q| && Sweeping(q, z, i + 1, pos, tmp)
    {
      SweepOne(curr.addr, q, z, i);
      SweptLinks(lists.Words(), q, z, i + 1);
      pos := after;
      tmp := lists.next[pos];
    }

    method SweepOne(task: nat, ghost q: seq<nat>, ghost z: set<nat>, ghost i: nat)
      requires i < |q| && q[i] == task && Linked() && queue == Swept(q, z, i)
      requires task in states && (task in z <==> states[task] == Zombie)
      modifies this`queue, lists
      ensures Linked() && queue == Swept(q, z, i + 1)
    {
      ghost var k := SweptStep(q, z, i);
      if states[task] == Zombie {
        UnlinkTask(task, k);
      }
    }

    /** list_del_init on a task of the run queue. */
    method UnlinkTask(task: nat, ghost k: nat)
      requires Linked() && k < |queue| && queue[k] == task
      modifies this`queue, lists
      ensures Linked() && queue == old(queue)[..k] + old(queue)[k + 1..]
    {
      ghost var q, l := queue, lists.Words();
      RemoveIsRemove(l, Head, Nodes(q), k);
      NodesRemove(q, k);
      if current !in q {
        OutsideRemoved(l, q, k, current);
      }
      lists.ListDelInit(Entry(task));
      queue := q[..k] + q[k + 1..];
      assert current in q && current != task ==> current in queue;
    }

    /** One turn of the loop of idle. */
    method IdleTurn()
      requires Valid() && Can(View(), RoundRobin.IdleTurn)
      modifies this`queue, this`current, lists
      ensures Valid() && View() == Step(old(View()), RoundRobin.IdleTurn)
      ensures states == old(states) && Follows(queue, IDLE, current)
      ensures forall x :: x in queue <==> x in old(queue) && x !in Zombies()
    {
      LiveMembers(queue, Zombies());
      KillZombies();
      Schedule();
    }

    method KthreadCreate() returns (task: nat)
      requires Valid()
      modifies this`queue, this`states, this`nrThreads, lists
      ensures Valid() && View() == Step(old(View()), Create) && task == old(nrThreads)
      ensures queue == old(queue) + [task] && states == old(states)[task := Running] && nrThreads == old(nrThreads) + 1
    {
      task := nrThreads;
      StepSane(View(), Create);
      nrThreads := nrThreads + 1;
      states := states[task := Running];
      Enqueue(task);
      assert Zombies() == old(Zombies());
    }

    /** list_add_tail to the run queue. */
    method Enqueue(task: nat)
      requires Linked() && task !in queue
      modifies this`queue, lists
      ensures Linked() && queue == old(queue) + [task]
    {
      NodesMembers(queue, task);
      ListFrame(lists.Words(), Init(lists.Words(), Entry(task)), Head, Nodes(queue));
      lists.InitListHead(Entry(task));
      AddTailIsSnoc(lists.Words(), Head, Nodes(queue), Entry(task));
      HeadLinks(lists.Words(), Head, Nodes(queue));
      lists.ListAddTail(Entry(task), Head);
      NodesInsert(queue, |queue|, task);
      assert queue[..|queue|] + [task] + queue[|queue|..] == queue + [task];
      queue := queue + [task];
    }

    /** The first initrd_exec: the shell, which runs as the idle task, makes a task and becomes it
        without a call of schedule. */
    method FirstExec()
      requires Valid() && View() == Boot()
      modifies this`queue, this`states, this`nrThreads, this`current, lists
      ensures Valid() && View() == Started()
      ensures queue == [0, 1] && current == 1 && nrThreads == 2 && states == map[0 := Running, 1 := Running]
    {
      var task := KthreadCreate();
      current := task;
    }

    method KthreadStop(task: nat)
      requires Valid() && Can(View(), Stop(task))
      modifies this`states, this`current
      ensures Valid() && View() == Step(old(View()), Stop(task))
      ensures queue == old(queue) && states == old(states)[task := Zombie] && Follows(queue, old(current), current)
    {
      states := states[task := Zombie];
      assert Zombies() == old(Zombies()) + {task};
      Schedule();
    }

    method KthreadExit()
      requires Valid() && Can(View(), Exit)
      modifies this`states, this`current
      ensures Valid() && View() == Step(old(View()), Exit)
      ensures queue == old(queue) && states == old(states)[old(current) := Zombie]
      ensures Follows(queue, old(current), current)
    {
      states := states[current := Zombie];
      assert Zombies() == old(Zombies()) + {current};
      Schedule();
    }

    /** One operation of the state machine. */
    method Perform(op: Op)
      requires Valid() && Can(View(), op)
      modifies this, lists
      ensures Valid() && View() == Step(old(View()), op)
    {
      match op
      case Create =>
        var task := KthreadCreate();
      case Yield =>
        Schedule();
      case Stop(task) =>
        KthreadStop(task);
      case Exit =>
        KthreadExit();
      case IdleTurn =>
        IdleTurn();
    }

    method RunAll(ops: seq<Op>)
      requires Valid() && Legal(View(), ops)
      modifies this, lists
      ensures Valid() && View() == Run(old(View()), ops)
      ensures forall u :: u in old(queue) && u !in old(Zombies()) && !Ended(old(View()), ops, u) ==>
                u in queue && u !in Zombies()
      ensures forall u :: u in old(queue) ==> (u in queue <==> !Reaped(old(View()), ops, u))
      ensures forall u :: u in Zombies() <==> u in old(Zombies()) || Ended(old(View()), ops, u)
    {
      RunWho(View(), ops);
      ghost var goal := Run(View(), ops);
      var i := 0;
      while i < |ops|
        invariant 0 <= i <= |ops| && Valid() && Legal(View(), ops[i..]) && Run(View(), ops[i..]) == goal
      {
        assert ops[i..][1..] == ops[i + 1..];
        Perform(ops[i]);
        i := i + 1;
      }
    }
  }

  /** From boot on: kthread_init, the first initrd_exec, and then any sequence of operations that does
      not stop the idle task. */
  method RunFromBoot(ops: seq<Op>) returns (scheduler: Scheduler)
    requires Legal(Started(), ops)
    ensures scheduler.Valid() && scheduler.View() == Run(Started(), ops)
    ensures Stop(IDLE) !in ops ==> Alive(scheduler.View())
  {
    scheduler := new Scheduler();
    scheduler.FirstExec();
    scheduler.RunAll(ops);
    if Stop(IDLE) !in ops {
      RunAlive(Started(), ops);
    }
  }
}
