/** The timer queue of src/timer.c: what holds over whole runs, and the code on its linked list.

    The `time` register is an input: the ticks it shows are handed to the operations that read it.
    Setting the next timer interrupt and enabling it are not part of this module. */
module Timers {
  import opened Lists
  import opened Queues

  /** Ticks per second (on the emulator). */
  const TIME_FREQ := 10000000

  /** struct timer: `id` numbers the calls of timer_add. */
  datatype Timer = Timer(id: nat, time: int)

  /** A callback made when the clock showed `ticks`. */
  datatype Firing = Firing(timer: Timer, ticks: nat)

  datatype State = State(queue: seq<Timer>, fired: seq<Firing>, count: nat)

  /** get_uptime */
  function Uptime(ticks: nat): nat {
    ticks / TIME_FREQ
  }

  ghost function Times(q: seq<Timer>): (r: seq<int>)
    ensures |r| == |q| && forall i :: 0 <= i < |q| ==> r[i] == q[i].time
  {
    seq(|q|, i requires 0 <= i < |q| => q[i].time)
  }

  ghost function Ids(q: seq<Timer>): (r: seq<nat>)
    ensures |r| == |q| && forall i :: 0 <= i < |q| ==> r[i] == q[i].id
  {
    seq(|q|, i requires 0 <= i < |q| => q[i].id)
  }

  ghost function FiredIds(f: seq<Firing>): (r: seq<nat>)
    ensures |r| == |f| && forall i :: 0 <= i < |f| ==> r[i] == f[i].timer.id
  {
    seq(|f|, i requires 0 <= i < |f| => f[i].timer.id)
  }

  // --- the operations

  /** timer_add */
  ghost function Add(s: State, ticks: nat, after: int): State {
    var t := Timer(s.count, Uptime(ticks) + after);
    var k := Place(Times(s.queue), t.time);
    State(s.queue[..k] + [t] + s.queue[k..], s.fired, s.count + 1)
  }

  /** The loop of timer_irq_handler; the i-th look at a timer reads clock[i]. */
  ghost function Expire(s: State, clock: seq<nat>): State
    requires |s.queue| <= |clock|
    decreases |s.queue|
  {
    if s.queue == [] || s.queue[0].time > Uptime(clock[0]) then s
    else Expire(FireHead(s, clock[0]), clock[1..])
  }

  ghost function FireHead(s: State, ticks: nat): State
    requires s.queue != []
  {
    State(s.queue[1..], s.fired + [Firing(s.queue[0], ticks)], s.count)
  }

  // --- what every state satisfies

  /** By deadline, and by age among equal deadlines. */
  predicate Before(a: Timer, b: Timer) {
    a.time < b.time || (a.time == b.time && a.id < b.id)
  }

  ghost predicate InOrder(q: seq<Timer>) {
    forall i, j :: 0 <= i < j < |q| ==> Before(q[i], q[j])
  }

  /** Every timer ever added is either waiting or has fired, once. */
  ghost predicate Ledger(s: State) {
    forall id: nat :: multiset(Ids(s.queue))[id] + multiset(FiredIds(s.fired))[id] == if id < s.count then 1 else 0
  }

  /** No timer has fired before its deadline. */
  ghost predicate NoneEarly(f: seq<Firing>) {
    forall i :: 0 <= i < |f| ==> f[i].timer.time <= Uptime(f[i].ticks)
  }

  ghost predicate Inv(s: State) {
    InOrder(s.queue) && Ledger(s) && NoneEarly(s.fired)
  }

  lemma WaitingIsOld(s: State, t: Timer)
    requires Ledger(s) && t in s.queue
    ensures t.id < s.count
  {
    var i :| 0 <= i < |s.queue| && s.queue[i] == t;
    assert Ids(s.queue)[i] == t.id;
    assert multiset(Ids(s.queue))[t.id] > 0;
  }

  lemma AddInv(s: State, ticks: nat, after: int)
    requires Inv(s)
    ensures Inv(Add(s, ticks, after))
  {
    var s' := Add(s, ticks, after);
    var t := Timer(s.count, Uptime(ticks) + after);
    var k := Place(Times(s.queue), t.time);
    AddOrdered(s, t, k);
    AddIds(s.queue, k, t);
  }

  lemma AddIds(q: seq<Timer>, k: nat, t: Timer)
    requires k <= |q|
    ensures multiset(Ids(q[..k] + [t] + q[k..])) == multiset(Ids(q)) + multiset{t.id}
  {
    var ids := Ids(q);
    assert Ids(q[..k] + [t] + q[k..]) == ids[..k] + [t.id] + ids[k..];
    assert ids == ids[..k] + ids[k..];
  }

  lemma AddOrdered(s: State, t: Timer, k: nat)
    requires InOrder(s.queue) && Ledger(s) && t.id == s.count && k == Place(Times(s.queue), t.time)
    ensures InOrder(s.queue[..k] + [t] + s.queue[k..])
  {
    var q := s.queue;
    var r := q[..k] + [t] + q[k..];
    PlaceSplits(Times(q), t.time);
    assert Splits(Times(q), t.time, k);
    forall i, j | 0 <= i < j < |r|
      ensures Before(r[i], r[j])
    {
      var i', j' := if i <= k then i else i - 1, if j <= k then j else j - 1;
      if i != k && j != k {
        assert Before(q[i'], q[j']);
      } else if j == k {
        WaitingIsOld(s, q[i]);
      } else if j' > k {
        assert Before(q[k], q[j']);
      }
    }
  }

  lemma FireHeadInv(s: State, ticks: nat)
    requires Inv(s) && s.queue != [] && s.queue[0].time <= Uptime(ticks)
    ensures Inv(FireHead(s, ticks))
  {
    var s' := FireHead(s, ticks);
    var id := s.queue[0].id;
    assert Ids(s.queue) == [id] + Ids(s'.queue);
    assert FiredIds(s'.fired) == FiredIds(s.fired) + [id];
    assert multiset(Ids(s.queue)) == multiset{id} + multiset(Ids(s'.queue));
    assert multiset(FiredIds(s'.fired)) == multiset(FiredIds(s.fired)) + multiset{id};
  }

  lemma {:induction false} ExpireInv(s: State, clock: seq<nat>)
    requires Inv(s) && |s.queue| <= |clock|
    ensures Inv(Expire(s, clock))
    decreases |s.queue|
  {
    if s.queue != [] && s.queue[0].time <= Uptime(clock[0]) {
      FireHeadInv(s, clock[0]);
      ExpireInv(FireHead(s, clock[0]), clock[1..]);
    }
  }

  // --- what one interrupt does

  /** How many timers one interrupt fires. */
  ghost function Fires(q: seq<Timer>, clock: seq<nat>): (n: nat)
    requires |q| <= |clock|
    ensures n <= |q|
  {
    if q == [] || q[0].time > Uptime(clock[0]) then 0 else 1 + Fires(q[1..], clock[1..])
  }

  ghost predicate Rising(clock: seq<nat>) {
    forall i, j :: 0 <= i <= j < |clock| ==> clock[i] <= clock[j]
  }

  /** The timers fired are those at the front of the queue, in queue order, each at the reading that
      found it due. */
  lemma {:induction false} ExpireFiresFront(s: State, clock: seq<nat>)
    requires |s.queue| <= |clock|
    ensures var s', n := Expire(s, clock), Fires(s.queue, clock);
            && s'.queue == s.queue[n..] && s'.count == s.count
            && |s'.fired| == |s.fired| + n && s.fired <= s'.fired
            && (forall i :: 0 <= i < n ==> s'.fired[|s.fired| + i] == Firing(s.queue[i], clock[i]))
            && (n < |s.queue| ==> s.queue[n].time > Uptime(clock[n]))
    decreases |s.queue|
  {
    if s.queue != [] && s.queue[0].time <= Uptime(clock[0]) {
      var h, s', n := FireHead(s, clock[0]), Expire(s, clock), Fires(s.queue, clock);
      ExpireFiresFront(h, clock[1..]);
      assert h.fired[|s.fired|] == Firing(s.queue[0], clock[0]);
      forall i | 0 <= i < n
        ensures s'.fired[|s.fired| + i] == Firing(s.queue[i], clock[i])
      {
        if i > 0 {
          assert s'.fired[|h.fired| + (i - 1)] == Firing(h.queue[i - 1], clock[1..][i - 1]);
        }
      }
    }
  }

  /** On exit the queue is sorted and nothing in it was due at the last reading, nor at any reading
      before it. */
  lemma ExpireLeavesNothingDue(s: State, clock: seq<nat>)
    requires Inv(s) && |s.queue| <= |clock| && Rising(clock)
    ensures var s', n := Expire(s, clock), Fires(s.queue, clock);
            && InOrder(s'.queue)
            && forall t, i :: t in s'.queue && 0 <= i <= n && i < |clock| ==> t.time > Uptime(clock[i])
  {
    ExpireInv(s, clock);
    ExpireFiresFront(s, clock);
    var s', n := Expire(s, clock), Fires(s.queue, clock);
    forall t, i | t in s'.queue && 0 <= i <= n && i < |clock|
      ensures t.time > Uptime(clock[i])
    {
      var j :| 0 <= j < |s'.queue| && s'.queue[j] == t;
      assert j > 0 ==> Before(s'.queue[0], s'.queue[j]);
      assert clock[i] <= clock[n];
    }
  }

  // --- runs

  datatype Op = AddOp(ticks: nat, after: int) | Interrupt(clock: seq<nat>)

  ghost predicate Can(s: State, op: Op) {
    op.Interrupt? ==> |s.queue| <= |op.clock|
  }

  ghost function Step(s: State, op: Op): State
    requires Can(s, op)
  {
    match op
    case AddOp(ticks, after) => Add(s, ticks, after)
    case Interrupt(clock) => Expire(s, clock)
  }

  /** An interrupt has a reading of the clock for every timer it looks at. */
  ghost predicate Legal(s: State, ops: seq<Op>)
    decreases ops
  {
    ops == [] || (Can(s, ops[0]) && Legal(Step(s, ops[0]), ops[1..]))
  }

  ghost function Run(s: State, ops: seq<Op>): State
    requires Legal(s, ops)
    decreases ops
  {
    if ops == [] then s else Run(Step(s, ops[0]), ops[1..])
  }

  lemma StepInv(s: State, op: Op)
    requires Inv(s) && Can(s, op)
    ensures Inv(Step(s, op)) && s.fired <= Step(s, op).fired
  {
    match op
    case AddOp(ticks, after) => AddInv(s, ticks, after);
    case Interrupt(clock) =>
      ExpireInv(s, clock);
      ExpireFiresFront(s, clock);
  }

  /** In every reachable state the queue is sorted, every timer waits or has fired exactly once, and
      none has fired early. */
  lemma {:induction false} RunInv(s: State, ops: seq<Op>)
    requires Inv(s) && Legal(s, ops)
    ensures Inv(Run(s, ops)) && s.fired <= Run(s, ops).fired
    decreases ops
  {
    if ops != [] {
      StepInv(s, ops[0]);
      RunInv(Step(s, ops[0]), ops[1..]);
    }
  }

  lemma TwiceCounts(q: seq<nat>, i: nat, j: nat)
    requires i < j < |q| && q[i] == q[j]
    ensures multiset(q)[q[i]] >= 2
  {
    assert q == q[..j] + q[j..];
    assert q[..j][i] == q[i] && q[j..][0] == q[i];
  }

  lemma FiredOnce(s: State, i: nat, j: nat)
    requires Ledger(s) && i < |s.fired| && j < |s.fired| && s.fired[i].timer == s.fired[j].timer
    ensures i == j
  {
    if i != j {
      TwiceCounts(FiredIds(s.fired), if i < j then i else j, if i < j then j else i);
    }
  }

  lemma WaitingHasNotFired(s: State, t: Timer, i: nat)
    requires Ledger(s) && t in s.queue && i < |s.fired|
    ensures s.fired[i].timer != t
  {
    var k :| 0 <= k < |s.queue| && s.queue[k] == t;
    assert Ids(s.queue)[k] == t.id && FiredIds(s.fired)[i] == s.fired[i].timer.id;
    assert multiset(Ids(s.queue))[t.id] > 0;
  }

  /** One interrupt: both timers stay, or the first fires and the second stays or fires later. */
  lemma InterruptOrder(s: State, clock: seq<nat>, ia: nat, ib: nat) returns (i: nat, k: nat)
    requires |s.queue| <= |clock| && ia < ib < |s.queue|
    ensures var s', a, b := Expire(s, clock), s.queue[ia], s.queue[ib];
            (a in s'.queue && b in s'.queue) ||
            (i < |s'.fired| && s'.fired[i].timer == a && (b in s'.queue
                || (i < k < |s'.fired| && s'.fired[k].timer == b)))
  {
    ExpireFiresFront(s, clock);
    var s', n := Expire(s, clock), Fires(s.queue, clock);
    i, k := |s.fired| + ia, |s.fired| + ib;
    if n <= ib {
      assert s'.queue[ib - n] == s.queue[ib];
    } else {
      assert s'.fired[k] == Firing(s.queue[ib], clock[ib]);
    }
    if n <= ia {
      assert s'.queue[ia - n] == s.queue[ia];
    } else {
      assert s'.fired[i] == Firing(s.queue[ia], clock[ia]);
    }
  }

  lemma InOrderPositions(q: seq<Timer>, a: Timer, b: Timer) returns (ia: nat, ib: nat)
    requires InOrder(q) && a in q && b in q && Before(a, b)
    ensures ia < ib < |q| && q[ia] == a && q[ib] == b
  {
    ia :| 0 <= ia < |q| && q[ia] == a;
    ib :| 0 <= ib < |q| && q[ib] == b;
    assert ib < ia ==> Before(q[ib], q[ia]);
  }

  lemma StepOrder(s: State, op: Op, a: Timer, b: Timer) returns (i: nat, k: nat)
    requires Inv(s) && Can(s, op) && a in s.queue && b in s.queue && Before(a, b)
    ensures var s' := Step(s, op);
            (a in s'.queue && b in s'.queue) ||
            (i < |s'.fired| && s'.fired[i].timer == a && (b in s'.queue
                || (i < k < |s'.fired| && s'.fired[k].timer == b)))
  {
    i, k := 0, 0;
    if op.Interrupt? {
      var ia, ib := InOrderPositions(s.queue, a, b);
      i, k := InterruptOrder(s, op.clock, ia, ib);
    }
  }

  /** A timer that is due when the interrupt looks at the clock for the first time is fired by it. */
  lemma DueIsFired(s: State, clock: seq<nat>, t: Timer) returns (i: nat)
    requires Inv(s) && |s.queue| <= |clock| && Rising(clock)
    requires t in s.queue && t.time <= Uptime(clock[0])
    ensures var s' := Expire(s, clock); t !in s'.queue && i < |s'.fired| && s'.fired[i].timer == t
  {
    ExpireFiresFront(s, clock);
    ExpireLeavesNothingDue(s, clock);
    var s', n := Expire(s, clock), Fires(s.queue, clock);
    var k :| 0 <= k < |s.queue| && s.queue[k] == t;
    i := |s.fired| + k;
    assert s'.fired[i] == Firing(t, clock[k]);
  }

  // --- deadlines in ticks

  /** get_uptime gives whole seconds. */
  lemma UptimeTicks(ticks: nat)
    ensures Uptime(ticks) * TIME_FREQ <= ticks < (Uptime(ticks) + 1) * TIME_FREQ
  {
  }

  /** The timer that timer_add makes at `ticks`. */
  lemma AddedTimer(s: State, ticks: nat, after: int) returns (t: Timer)
    ensures t in Add(s, ticks, after).queue && t.id == s.count
    ensures t.time * TIME_FREQ <= ticks + after * TIME_FREQ < (t.time + 1) * TIME_FREQ
  {
    t := Timer(s.count, Uptime(ticks) + after);
    UptimeTicks(ticks);
  }

  /** A timer that waits goes on waiting until it fires. */
  lemma {:induction false} WaitsUntilFired(s: State, ops: seq<Op>, t: Timer) returns (i: nat)
    requires Inv(s) && Legal(s, ops) && t in s.queue
    ensures t in Run(s, ops).queue || (i < |Run(s, ops).fired| && Run(s, ops).fired[i].timer == t)
    decreases ops
  {
    i := 0;
    if ops != [] {
      StepInv(s, ops[0]);
      var m := Step(s, ops[0]);
      RunInv(m, ops[1..]);
      if t in m.queue {
        i := WaitsUntilFired(m, ops[1..], t);
      } else {
        ExpireFiresFront(s, ops[0].clock);
        var k :| 0 <= k < |s.queue| && s.queue[k] == t;
        i := |s.fired| + k;
        assert m.fired[i].timer == t;
      }
    }
  }

  /** A timer set for `after` seconds does not fire before more than after - 1 seconds have gone by. */
  lemma NeverEarlyInTicks(s: State, ticks: nat, after: int, ops: seq<Op>, i: nat)
    requires Inv(s) && Legal(Add(s, ticks, after), ops) && i < |Run(Add(s, ticks, after), ops).fired|
    requires Run(Add(s, ticks, after), ops).fired[i].timer.id == s.count
    ensures Run(Add(s, ticks, after), ops).fired[i].ticks > ticks + (after - 1) * TIME_FREQ
  {
    var m := Add(s, ticks, after);
    var t := AddedTimer(s, ticks, after);
    AddInv(s, ticks, after);
    RunInv(m, ops);
    var r := Run(m, ops);
    var j := WaitsUntilFired(m, ops, t);
    SameTimer(r, t, i, j);
    UptimeTicks(r.fired[i].ticks);
  }

  /** Two firings of one number are one. */
  lemma SameTimer(r: State, t: Timer, i: nat, j: nat)
    requires Ledger(r) && i < |r.fired| && r.fired[i].timer.id == t.id
    requires t in r.queue || (j < |r.fired| && r.fired[j].timer == t)
    ensures r.fired[i].timer == t
  {
    if t in r.queue {
      WaitingNumber(r, t, i);
      assert false;
    }
    if i != j {
      assert FiredIds(r.fired)[i] == FiredIds(r.fired)[j] == t.id;
      TwiceCounts(FiredIds(r.fired), if i < j then i else j, if i < j then j else i);
    }
  }

  lemma WaitingNumber(r: State, t: Timer, i: nat)
    requires Ledger(r) && t in r.queue && i < |r.fired|
    ensures r.fired[i].timer.id != t.id
  {
    var k :| 0 <= k < |r.queue| && r.queue[k] == t;
    assert Ids(r.queue)[k] == t.id && multiset(Ids(r.queue))[t.id] > 0;
    assert FiredIds(r.fired)[i] == r.fired[i].timer.id;
  }

  /** The first interrupt that finds `after` seconds gone by fires it, if it still waits. */
  lemma DueInTicks(s: State, ticks: nat, after: int, ops: seq<Op>, clock: seq<nat>) returns (i: nat)
    requires Inv(s) && Legal(Add(s, ticks, after), ops)
    requires var r := Run(Add(s, ticks, after), ops); |r.queue| <= |clock| && clock != [] && Rising(clock)
    requires clock[0] >= ticks + after * TIME_FREQ
    ensures var r := Expire(Run(Add(s, ticks, after), ops), clock);
            i < |r.fired| && r.fired[i].timer.id == s.count
  {
    var m := Add(s, ticks, after);
    var t := AddedTimer(s, ticks, after);
    AddInv(s, ticks, after);
    RunInv(m, ops);
    var r := Run(m, ops);
    i := WaitsUntilFired(m, ops, t);
    if t in r.queue {
      UptimeTicks(clock[0]);
      i := DueIsFired(r, clock, t);
    } else {
      ExpireFiresFront(r, clock);
    }
  }

  /** Of two timers queued together the one that is due first, or was added first if they are due at
      the same time, fires first. */
  lemma {:induction false} FiresInOrder(s: State, ops: seq<Op>, a: Timer, b: Timer, j: nat)
    requires Inv(s) && Legal(s, ops) && a in s.queue && b in s.queue && Before(a, b)
    requires j < |Run(s, ops).fired| && Run(s, ops).fired[j].timer == b
    ensures exists i :: 0 <= i < j && Run(s, ops).fired[i].timer == a
    decreases ops
  {
    if ops == [] {
      WaitingHasNotFired(s, b, j);
    } else {
      var s', last := Step(s, ops[0]), Run(s, ops);
      StepInv(s, ops[0]);
      RunInv(s', ops[1..]);
      if a in s'.queue && b in s'.queue {
        FiresInOrder(s', ops[1..], a, b, j);
      } else {
        var i, k := StepOrder(s, ops[0], a, b);
        if b in s'.queue {
          if j < |s'.fired| {
            WaitingHasNotFired(s', b, j);
          }
        } else {
          FiredOnce(last, j, k);
        }
        assert last.fired[i].timer == a;
      }
    }
  }

  // --- timer.c

  lemma FreshId(s: State)
    requires Ledger(s)
    ensures s.count !in Ids(s.queue)
  {
    assert multiset(Ids(s.queue))[s.count] == 0;
  }

  lemma DistinctIds(s: State)
    requires Ledger(s)
    ensures Distinct(Ids(s.queue))
  {
    var ids := Ids(s.queue);
    forall i, j | 0 <= i < j < |ids|
      ensures ids[i] != ids[j]
    {
      if ids[i] == ids[j] {
        TwiceCounts(ids, i, j);
      }
    }
  }

  lemma Insertion(q: seq<Timer>, k: nat, t: Timer)
    requires k <= |q|
    ensures Ids(q[..k] + [t] + q[k..]) == Ids(q)[..k] + [t.id] + Ids(q)[k..]
  {
  }

  ghost predicate Stored(q: seq<Timer>, times: map<nat, int>) {
    forall i :: 0 <= i < |q| ==> q[i].id in times && times[q[i].id] == q[i].time
  }

  lemma Added(s: State, ticks: nat, after: int, k: nat, times: map<nat, int>) returns (s': State)
    requires Inv(s) && Stored(s.queue, times)
    requires k == Place(Times(s.queue), Uptime(ticks) + after)
    ensures s' == Add(s, ticks, after) && Inv(s')
    ensures var t := Timer(s.count, Uptime(ticks) + after);
            && s'.queue == s.queue[..k] + [t] + s.queue[k..] && t.id !in Ids(s.queue)
            && Stored(s.queue, times[t.id := t.time]) && Stored(s'.queue, times[t.id := t.time])
  {
    s' := Add(s, ticks, after);
    AddInv(s, ticks, after);
    FreshId(s);
    assert forall i :: 0 <= i < |s.queue| ==> Ids(s.queue)[i] != s.count;
  }

  class TimerQueue {
    const lists: ListMemory<Ptr>
    var times: map<nat, int>
    var count: nat
    var fired: seq<Firing>
    ghost var queue: seq<Timer>

    ghost function View(): State
      reads this
    {
      State(queue, fired, count)
    }

    /** timer_queue links `queue`, whose deadlines are those stored in the timers. */
    ghost predicate Valid()
      reads this, lists
    {
      && Inv(View())
      && IsList(lists.Words(), Head, Nodes(Ids(queue)))
      && Stored(queue, times)
    }

    /** timer_init */
    constructor ()
      ensures Valid() && View() == State([], [], 0) && fresh(lists)
    {
      lists := new ListMemory<Ptr>();
      times, count, fired, queue := map[], 0, [], [];
      new;
      lists.InitListHead(Head);
      assert Cycle(Head, Nodes(Ids(queue))) == [Head, Head];
    }

    method TimerAdd(ticks: nat, after: int)
      requires Valid()
      modifies this`times, this`count, this`queue, lists
      ensures Valid() && View() == Add(old(View()), ticks, after)
    {
      var id, time := count, Uptime(ticks) + after;
      ghost var k := Place(Times(queue), time);
      ghost var s := Added(View(), ticks, after, k, times);
      count, times := count + 1, times[id := time];
      LinkTimer(id, time, k, s.queue);
    }

    /** The list part of timer_add. */
    method LinkTimer(id: nat, time: int, ghost k: nat, ghost queue': seq<Timer>)
      requires IsList(lists.Words(), Head, Nodes(Ids(queue))) && id !in Ids(queue) && Stored(queue, times)
      requires k == Place(Times(queue), time) && queue' == queue[..k] + [Timer(id, time)] + queue[k..]
      modifies this`queue, lists
      ensures queue == queue'
      ensures IsList(lists.Words(), Head, Nodes(Ids(queue)))
    {
      ghost var ids := Ids(queue);
      NodesMembers(ids, id);
      ListFrame(lists.Words(), Init(lists.Words(), Entry(id)), Head, Nodes(ids));
      lists.InitListHead(Entry(id));
      var pos := FirstLater(time);
      NextAt(lists.Words(), ids, k);
      HeadLinks(lists.Words(), Head, Nodes(ids));
      if k < |queue| {
        AddBeforeIsInsert(lists.Words(), Head, Nodes(ids), k, Entry(id));
      } else {
        AddTailIsSnoc(lists.Words(), Head, Nodes(ids), Entry(id));
      }
      lists.ListAddTail(Entry(id), pos);
      NodesInsert(ids, k, id);
      Insertion(queue, k, Timer(id, time));
      queue := queue';
    }

    /** The list_for_each of timer_add: the node to insert in front of. */
    method FirstLater(time: int) returns (pos: Ptr)
      requires IsList(lists.Words(), Head, Nodes(Ids(queue))) && Stored(queue, times)
      ensures pos == At(Ids(queue), Place(Times(queue), time))
    {
      NextAt(lists.Words(), Ids(queue), 0);
      pos := lists.next[Head];
      ghost var i := 0;
      while pos != Head
        invariant 0 <= i <= |queue| && pos == At(Ids(queue), i)
        invariant forall j :: 0 <= j < i ==> queue[j].time <= time
        decreases |queue| - i
      {
        if times[pos.addr] > time {
          PlaceUnique(Times(queue), time, i);
          return;
        }
        NextAt(lists.Words(), Ids(queue), i);
        pos := lists.next[pos];
        i := i + 1;
      }
      PlaceUnique(Times(queue), time, i);
    }

    /** The loop of timer_irq_handler: each callback is made before its timer is unlinked. */
    method TimerIrqHandler(clock: seq<nat>)
      requires Valid() && |queue| <= |clock|
      modifies this`times, this`fired, this`queue, lists
      ensures Valid() && View() == Expire(old(View()), clock)
    {
      var reading := 0;
      NextAt(lists.Words(), Ids(queue), 0);
      while !lists.ListEmpty(Head)
        invariant 0 <= reading && |queue| + reading <= |clock| && Valid()
        invariant Head in lists.next && lists.next[Head] == At(Ids(queue), 0)
        invariant Expire(View(), clock[reading..]) == Expire(old(View()), clock)
        decreases |queue|
      {
        var timer := lists.next[Head].addr;
        assert clock[reading..][0] == clock[reading] && clock[reading..][1..] == clock[reading + 1..];
        if times[timer] > Uptime(clock[reading]) {
          return;
        }
        FireHeadInv(View(), clock[reading]);
        DistinctIds(View());
        fired := fired + [Firing(Timer(timer, times[timer]), clock[reading])];
        UnlinkTimer(timer);
        reading := reading + 1;
        NextAt(lists.Words(), Ids(queue), 0);
      }
    }

    /** list_del_init and kfree on the head of the queue. */
    method UnlinkTimer(timer: nat)
      requires queue != [] && queue[0].id == timer && Distinct(Ids(queue))
      requires IsList(lists.Words(), Head, Nodes(Ids(queue))) && Stored(queue, times)
      modifies this`times, this`queue, lists
      ensures queue == old(queue)[1..]
      ensures IsList(lists.Words(), Head, Nodes(Ids(queue))) && Stored(queue, times)
    {
      ghost var ids := Ids(queue);
      RemoveIsRemove(lists.Words(), Head, Nodes(ids), 0);
      NodesTail(ids);
      assert ids[1..] == Ids(queue[1..]);
      lists.ListDelInit(Entry(timer));
      times := times - {timer};
      queue := queue[1..];
    }
  }
}
