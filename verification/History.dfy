/** What the processes of a run may observe, said of its operations and outcomes alone: stores are read
    back, nobody else's stores are, and fork copies memory as it is. */
module History {
  import opened Common
  import opened Cow
  import opened Eager

  // --- laws between two or three outcomes

  predicate Stores(op: Op, out: Outcome, p: nat, va: nat) {
    op.Write? && op.pid == p && op.va == va && out == Done
  }

  predicate Reads(op: Op, out: Outcome, p: nat, va: nat) {
    op.Read? && op.pid == p && op.va == va && out.Byte?
  }

  /** Process p stores nothing at va in the operations i, .., j - 1. */
  predicate Unwritten(ops: seq<Op>, outs: seq<Outcome>, i: nat, j: nat, p: nat, va: nat)
    requires j <= |ops| == |outs|
  {
    forall k :: i <= k < j ==> !Stores(ops[k], outs[k], p, va)
  }

  /** What a store puts at an address, or a load or fetch finds there. */
  predicate Shows(op: Op, out: Outcome, p: nat, va: nat) {
    Stores(op, out, p, va) || Reads(op, out, p, va)
  }

  function Shown(op: Op, out: Outcome): nat
    requires op.Write? || out.Byte?
  {
    if op.Write? then op.byte else out.value
  }

  /** Process p maps no area over va in the operations i, .., j - 1. */
  predicate Unmapped(ops: seq<Op>, i: nat, j: nat, p: nat, va: nat)
    requires j <= |ops|
  {
    forall k :: i <= k < j ==> !(ops[k].Mmap? && ops[k].pid == p && ops[k].area.start <= va < ops[k].area.end)
  }

  /** A load or fetch gives the byte that the same process has last stored or read there. */
  ghost predicate ReadsBack(ops: seq<Op>, outs: seq<Outcome>)
    requires |ops| == |outs|
  {
    forall i, j, p, va :: 0 <= i < j < |ops| ==> ReadBack(ops, outs, i, j, p, va)
  }

  predicate ReadBack(ops: seq<Op>, outs: seq<Outcome>, i: nat, j: nat, p: nat, va: nat)
    requires i < j < |ops| == |outs|
  {
    Shows(ops[i], outs[i], p, va) && Reads(ops[j], outs[j], p, va) && Unwritten(ops, outs, i + 1, j, p, va) ==>
      outs[j].value == Shown(ops[i], outs[i])
  }

  predicate Forks(op: Op, out: Outcome, p: nat, c: nat) {
    op.Fork? && op.pid == p && out == Child(c)
  }

  /** A child reads what its parent had stored or read before the fork. */
  ghost predicate ForksInherit(ops: seq<Op>, outs: seq<Outcome>)
    requires |ops| == |outs|
  {
    forall h, i, k, p, c, va :: 0 <= h < i < k < |ops| ==> ForkInherits(ops, outs, h, i, k, p, c, va)
  }

  predicate ForkInherits(ops: seq<Op>, outs: seq<Outcome>, h: nat, i: nat, k: nat, p: nat, c: nat, va: nat)
    requires h < i < k < |ops| == |outs|
  {
    && Shows(ops[h], outs[h], p, va) && Forks(ops[i], outs[i], p, c) && Reads(ops[k], outs[k], c, va)
    && Unwritten(ops, outs, h + 1, i, p, va) && Unwritten(ops, outs, i + 1, k, c, va)
    ==>
    outs[k].value == Shown(ops[h], outs[h])
  }

  /** After a fork parent and child read the same until one of them stores there, or maps an area where
      there was none. */
  ghost predicate ForksAgree(ops: seq<Op>, outs: seq<Outcome>)
    requires |ops| == |outs|
  {
    forall i, j, k, p, c, va :: 0 <= i < j < |ops| && i < k < |ops| ==> ForkAgrees(ops, outs, i, j, k, p, c, va)
  }

  predicate ForkAgrees(ops: seq<Op>, outs: seq<Outcome>, i: nat, j: nat, k: nat, p: nat, c: nat, va: nat)
    requires i < j < |ops| == |outs| && i < k < |ops|
  {
    && Forks(ops[i], outs[i], p, c) && Reads(ops[j], outs[j], p, va) && Reads(ops[k], outs[k], c, va)
    && Unwritten(ops, outs, i + 1, j, p, va) && Unwritten(ops, outs, i + 1, k, c, va)
    && Unmapped(ops, i + 1, j, p, va)
    ==>
    outs[j].value == outs[k].value
  }

  ghost predicate Coherent(ops: seq<Op>, outs: seq<Outcome>) {
    |ops| == |outs| && ReadsBack(ops, outs) && ForksInherit(ops, outs) && ForksAgree(ops, outs)
  }

  // --- the worlds of a run

  ghost function World(backing: nat -> nat, w: seq<Process>, ops: seq<Op>, i: nat): seq<Process>
    requires RunOk(backing, w, ops) && i <= |ops|
    decreases i
  {
    if i == 0 then w else World(backing, Step(backing, w, ops[0]).0, ops[1..], i - 1)
  }

  lemma {:induction false} WorldStep(backing: nat -> nat, w: seq<Process>, ops: seq<Op>, i: nat)
    requires RunOk(backing, w, ops) && i < |ops|
    ensures Admissible(World(backing, w, ops, i), ops[i])
    ensures (World(backing, w, ops, i + 1), Run(backing, w, ops).1[i]) ==
              Step(backing, World(backing, w, ops, i), ops[i])
    decreases i
  {
    var (m, out) := Step(backing, w, ops[0]);
    if i == 0 {
      assert World(backing, m, ops[1..], 0) == m;
    } else {
      WorldStep(backing, m, ops[1..], i - 1);
    }
  }

  // --- what a step does to one byte

  predicate Covered(w: seq<Process>, p: nat, va: nat) {
    p < |w| && FindVma(w[p].vmas, va).Some?
  }

  lemma StepKeepsByte(backing: nat -> nat, w: seq<Process>, op: Op, p: nat, va: nat)
    requires Admissible(w, op) && Covered(w, p, va)
    ensures var (m, out) := Step(backing, w, op);
            && Covered(m, p, va)
            && (!Stores(op, out, p, va) ==> ReadByte(backing, m[p], va) == ReadByte(backing, w[p], va))
            && (Stores(op, out, p, va) ==> ReadByte(backing, m[p], va) == op.byte)
  {
    if op.Mmap? {
      FindVmaAppend(w[op.pid].vmas, op.area, va);
    }
  }

  lemma StepReads(backing: nat -> nat, w: seq<Process>, op: Op, p: nat, va: nat)
    requires Admissible(w, op) && Reads(op, Step(backing, w, op).1, p, va)
    ensures Covered(w, p, va) && Step(backing, w, op).1 == Byte(ReadByte(backing, w[p], va))
  {
  }

  lemma StepForks(backing: nat -> nat, w: seq<Process>, op: Op, p: nat, c: nat, va: nat)
    requires Admissible(w, op) && Forks(op, Step(backing, w, op).1, p, c)
    ensures var m := Step(backing, w, op).0;
            && p < |m| && c < |m| && FindVma(m[c].vmas, va) == FindVma(m[p].vmas, va)
            && ReadByte(backing, m[c], va) == ReadByte(backing, m[p], va)
  {
  }

  /** A byte that is there stays as it is while nobody stores to it. */
  lemma {:induction false} ByteStays(backing: nat -> nat, w: seq<Process>, ops: seq<Op>, i: nat, j: nat, p: nat,
      va: nat)
    requires RunOk(backing, w, ops) && i <= j <= |ops| && Covered(World(backing, w, ops, i), p, va)
    requires Unwritten(ops, Run(backing, w, ops).1, i, j, p, va)
    ensures Covered(World(backing, w, ops, j), p, va)
    ensures ReadByte(backing, World(backing, w, ops, j)[p], va) == ReadByte(backing, World(backing, w, ops, i)[p], va)
    decreases j
  {
    if i < j {
      ByteStays(backing, w, ops, i, j - 1, p, va);
      WorldStep(backing, w, ops, j - 1);
      StepKeepsByte(backing, World(backing, w, ops, j - 1), ops[j - 1], p, va);
    }
  }

  lemma ReadAt(backing: nat -> nat, w: seq<Process>, ops: seq<Op>, j: nat, p: nat, va: nat)
    requires RunOk(backing, w, ops) && j < |ops| && Reads(ops[j], Run(backing, w, ops).1[j], p, va)
    ensures Covered(World(backing, w, ops, j), p, va)
    ensures Run(backing, w, ops).1[j].value == ReadByte(backing, World(backing, w, ops, j)[p], va)
  {
    WorldStep(backing, w, ops, j);
    StepReads(backing, World(backing, w, ops, j), ops[j], p, va);
  }

  /** What an operation shows is what is there afterwards. */
  lemma ShownAfter(backing: nat -> nat, w: seq<Process>, ops: seq<Op>, i: nat, p: nat, va: nat)
    requires RunOk(backing, w, ops) && i < |ops| && Shows(ops[i], Run(backing, w, ops).1[i], p, va)
    ensures Covered(World(backing, w, ops, i + 1), p, va)
    ensures ReadByte(backing, World(backing, w, ops, i + 1)[p], va) == Shown(ops[i], Run(backing, w, ops).1[i])
  {
    var m := World(backing, w, ops, i);
    WorldStep(backing, w, ops, i);
    StoreCovered(backing, m, ops[i], p, va);
    StepKeepsByte(backing, m, ops[i], p, va);
  }

  lemma StoreCovered(backing: nat -> nat, w: seq<Process>, op: Op, p: nat, va: nat)
    requires Admissible(w, op) && Shows(op, Step(backing, w, op).1, p, va)
    ensures Covered(w, p, va)
    ensures op.Read? ==> Step(backing, w, op).1 == Byte(ReadByte(backing, w[p], va))
  {
  }

  lemma RunReadsBack(backing: nat -> nat, w: seq<Process>, ops: seq<Op>, i: nat, j: nat, p: nat, va: nat)
    requires RunOk(backing, w, ops) && i < j < |ops|
    ensures ReadBack(ops, Run(backing, w, ops).1, i, j, p, va)
  {
    var outs := Run(backing, w, ops).1;
    if Shows(ops[i], outs[i], p, va) && Reads(ops[j], outs[j], p, va) && Unwritten(ops, outs, i + 1, j, p, va) {
      ShownAfter(backing, w, ops, i, p, va);
      ByteStays(backing, w, ops, i + 1, j, p, va);
      ReadAt(backing, w, ops, j, p, va);
    }
  }

  lemma ForkedAt(backing: nat -> nat, w: seq<Process>, ops: seq<Op>, i: nat, p: nat, c: nat, va: nat)
    requires RunOk(backing, w, ops) && i < |ops| && Forks(ops[i], Run(backing, w, ops).1[i], p, c)
    ensures var m := World(backing, w, ops, i + 1);
            && p < |m| && c < |m| && (Covered(m, p, va) ==> Covered(m, c, va))
            && ReadByte(backing, m[c], va) == ReadByte(backing, m[p], va)
  {
    WorldStep(backing, w, ops, i);
    StepForks(backing, World(backing, w, ops, i), ops[i], p, c, va);
  }

  lemma RunForkInherits(backing: nat -> nat, w: seq<Process>, ops: seq<Op>, h: nat, i: nat, k: nat, p: nat, c: nat,
      va: nat)
    requires RunOk(backing, w, ops) && h < i < k < |ops|
    ensures ForkInherits(ops, Run(backing, w, ops).1, h, i, k, p, c, va)
  {
    var outs := Run(backing, w, ops).1;
    if && Shows(ops[h], outs[h], p, va) && Forks(ops[i], outs[i], p, c) && Reads(ops[k], outs[k], c, va)
       && Unwritten(ops, outs, h + 1, i, p, va) && Unwritten(ops, outs, i + 1, k, c, va) {
      ShownAfter(backing, w, ops, h, p, va);
      ByteStays(backing, w, ops, h + 1, i + 1, p, va);
      ForkedAt(backing, w, ops, i, p, c, va);
      ByteStays(backing, w, ops, i + 1, k, c, va);
      ReadAt(backing, w, ops, k, c, va);
    }
  }

  /** Where a byte is covered in the end and no area was mapped over it, it was covered before. */
  lemma {:induction false} CoveredBefore(backing: nat -> nat, w: seq<Process>, ops: seq<Op>, i: nat, j: nat,
      p: nat, va: nat)
    requires RunOk(backing, w, ops) && i <= j <= |ops| && p < |World(backing, w, ops, i)|
    requires Covered(World(backing, w, ops, j), p, va) && Unmapped(ops, i, j, p, va)
    ensures Covered(World(backing, w, ops, i), p, va)
    decreases j - i
  {
    if i < j {
      WorldStep(backing, w, ops, i);
      StepMaps(backing, World(backing, w, ops, i), ops[i], p, va);
      CoveredBefore(backing, w, ops, i + 1, j, p, va);
    }
  }

  lemma StepMaps(backing: nat -> nat, w: seq<Process>, op: Op, p: nat, va: nat)
    requires Admissible(w, op) && p < |w|
    requires !(op.Mmap? && op.pid == p && op.area.start <= va < op.area.end)
    ensures p < |Step(backing, w, op).0| && (Covered(Step(backing, w, op).0, p, va) ==> Covered(w, p, va))
  {
    if op.Mmap? {
      FindVmaAppend(w[op.pid].vmas, op.area, va);
    }
  }

  lemma RunForkAgrees(backing: nat -> nat, w: seq<Process>, ops: seq<Op>, i: nat, j: nat, k: nat, p: nat, c: nat,
      va: nat)
    requires RunOk(backing, w, ops) && i < j < |ops| && i < k < |ops|
    ensures ForkAgrees(ops, Run(backing, w, ops).1, i, j, k, p, c, va)
  {
    var outs := Run(backing, w, ops).1;
    if && Forks(ops[i], outs[i], p, c) && Reads(ops[j], outs[j], p, va) && Reads(ops[k], outs[k], c, va)
       && Unwritten(ops, outs, i + 1, j, p, va) && Unwritten(ops, outs, i + 1, k, c, va)
           && Unmapped(ops, i + 1, j, p, va) {
      ForkedAt(backing, w, ops, i, p, c, va);
      ReadAt(backing, w, ops, j, p, va);
      CoveredBefore(backing, w, ops, i + 1, j, p, va);
      ByteStays(backing, w, ops, i + 1, j, p, va);
      ByteStays(backing, w, ops, i + 1, k, c, va);
      ReadAt(backing, w, ops, k, c, va);
    }
  }

  /** Every run is coherent, from whatever world it starts. */
  lemma RunCoherent(backing: nat -> nat, w: seq<Process>, ops: seq<Op>)
    requires RunOk(backing, w, ops)
    ensures Coherent(ops, Run(backing, w, ops).1)
  {
    var outs := Run(backing, w, ops).1;
    forall i: nat, j: nat, p: nat, va: nat | i < j < |ops|
      ensures ReadBack(ops, outs, i, j, p, va)
    {
      RunReadsBack(backing, w, ops, i, j, p, va);
    }
    forall h: nat, i: nat, k: nat, p: nat, c: nat, va: nat | h < i < k < |ops|
      ensures ForkInherits(ops, outs, h, i, k, p, c, va)
    {
      RunForkInherits(backing, w, ops, h, i, k, p, c, va);
    }
    forall i: nat, j: nat, k: nat, p: nat, c: nat, va: nat | i < j < |ops| && i < k < |ops|
      ensures ForkAgrees(ops, outs, i, j, k, p, c, va)
    {
      RunForkAgrees(backing, w, ops, i, j, k, p, c, va);
    }
  }

  // --- every outcome, from the operations before it

  /** How many processes the first n operations have made. */
  function Made(outs: seq<Outcome>, n: nat): nat
    requires n <= |outs|
  {
    if n == 0 then 0 else Made(outs, n - 1) + if outs[n - 1].Child? then 1 else 0
  }

  /** The areas of process p after the first n operations: those it has mapped itself, behind those its
      parent had at the fork. */
  function Areas(ops: seq<Op>, outs: seq<Outcome>, n: nat, p: nat): seq<Vma>
    requires n <= |ops| == |outs|
    decreases n
  {
    if n == 0 then []
    else if ops[n - 1].Mmap? && ops[n - 1].pid == p && outs[n - 1] == Done then
      Areas(ops, outs, n - 1, p) + [ops[n - 1].area]
    else if ops[n - 1].Fork? && outs[n - 1] == Child(p) then Areas(ops, outs, n - 1, ops[n - 1].pid)
    else Areas(ops, outs, n - 1, p)
  }

  /** The byte process p has stored last at va, or its parent before the fork. */
  function LastStored(ops: seq<Op>, outs: seq<Outcome>, n: nat, p: nat, va: nat): Option<nat>
    requires n <= |ops| == |outs|
    decreases n
  {
    if n == 0 then None
    else if Stores(ops[n - 1], outs[n - 1], p, va) then Some(ops[n - 1].byte)
    else if ops[n - 1].Fork? && outs[n - 1] == Child(p) then LastStored(ops, outs, n - 1, ops[n - 1].pid, va)
    else LastStored(ops, outs, n - 1, p, va)
  }

  /** A process that was killed. */
  predicate Dead(ops: seq<Op>, outs: seq<Outcome>, n: nat, p: nat)
    requires n <= |ops| == |outs|
  {
    exists k :: 0 <= k < n && !ops[k].Spawn? && ops[k].pid == p && outs[k] == Killed
  }

  /** The first area over va. */
  function AreaOver(areas: seq<Vma>, va: nat): Option<Vma> {
    if areas == [] then None
    else if areas[0].start <= va < areas[0].end then Some(areas[0])
    else AreaOver(areas[1..], va)
  }

  /** VM_READ is 1, VM_WRITE is 2, VM_EXEC is 4; a writable area may be loaded from. */
  predicate Grants(a: Vma, cause: Cause) {
    match cause
    case Fetch => a.flags / 4 % 2 == 1
    case Load => a.flags % 2 == 1 || a.flags / 2 % 2 == 1
    case Store => a.flags / 2 % 2 == 1
  }

  predicate Granted(areas: seq<Vma>, va: nat, cause: Cause) {
    AreaOver(areas, va).Some? && Grants(AreaOver(areas, va).value, cause)
  }

  /** The outcome of operation j. */
  function Expected(backing: nat -> nat, ops: seq<Op>, outs: seq<Outcome>, j: nat): Outcome
    requires j < |ops| == |outs|
  {
    match ops[j]
    case Spawn => Child(Made(outs, j))
    case Mmap(p, _) => if Dead(ops, outs, j, p) then Ignored else Done
    case Fork(p) => if Dead(ops, outs, j, p) then Ignored else Child(Made(outs, j))
    case Read(p, va, cause) =>
      if Dead(ops, outs, j, p) then Ignored
      else if !Granted(Areas(ops, outs, j, p), va, cause) then Killed
      else
        (match LastStored(ops, outs, j, p, va)
         case Some(b) => Byte(b)
         case None => Byte(FileByte(backing, AreaOver(Areas(ops, outs, j, p), va).value, va)))
    case Write(p, va, _) =>
      if Dead(ops, outs, j, p) then Ignored
      else if Granted(Areas(ops, outs, j, p), va, Store) then Done else Killed
  }

  /** A byte nobody has stored to: the file's byte, or zero. */
  function FileByte(backing: nat -> nat, a: Vma, va: nat): nat {
    if a.file == 0 || va < a.start then 0 else backing(a.file + (va - a.start)) % 256
  }

  /** Each outcome of a run from nothing is the expected one. */
  ghost predicate AsExpected(backing: nat -> nat, ops: seq<Op>, outs: seq<Outcome>) {
    |ops| == |outs| && forall j :: 0 <= j < |ops| ==> outs[j] == Expected(backing, ops, outs, j)
  }

  /** The world w is what the first n operations have made of nothing. */
  ghost predicate Recorded(w: seq<Process>, ops: seq<Op>, outs: seq<Outcome>, n: nat)
    requires n <= |ops| == |outs|
  {
    && |w| == Made(outs, n)
    && (forall p :: 0 <= p < |w| ==> ProcessRecorded(w[p], ops, outs, n, p))
    && (forall p: nat :: p >= |w| ==> Blank(ops, outs, n, p))
  }

  /** Nothing is recorded of a process that is not there. */
  ghost predicate Blank(ops: seq<Op>, outs: seq<Outcome>, n: nat, p: nat)
    requires n <= |ops| == |outs|
  {
    && !Dead(ops, outs, n, p) && Areas(ops, outs, n, p) == []
    && forall va: nat :: Unstored(ops, outs, n, p, va)
  }

  predicate Unstored(ops: seq<Op>, outs: seq<Outcome>, n: nat, p: nat, va: nat)
    requires n <= |ops| == |outs|
  {
    LastStored(ops, outs, n, p, va) == None
  }

  ghost predicate ProcessRecorded(pr: Process, ops: seq<Op>, outs: seq<Outcome>, n: nat, p: nat)
    requires n <= |ops| == |outs|
  {
    && pr.vmas == Areas(ops, outs, n, p) && (pr.zombie <==> Dead(ops, outs, n, p))
    && forall va: nat :: StoredIs(pr, ops, outs, n, p, va)
  }

  predicate StoredIs(pr: Process, ops: seq<Op>, outs: seq<Outcome>, n: nat, p: nat, va: nat)
    requires n <= |ops| == |outs|
  {
    LastStored(ops, outs, n, p, va) == if va in pr.bytes then Some(pr.bytes[va]) else None
  }

  lemma {:induction false} AreaOverIsFindVma(areas: seq<Vma>, va: nat)
    ensures AreaOver(areas, va) == FindVma(areas, va)
  {
    if areas != [] {
      AreaOverIsFindVma(areas[1..], va);
    }
  }

  lemma GrantsIsPermits(a: Vma, cause: Cause)
    ensures Grants(a, cause) <==> Permits(cause, a.flags)
  {
    assert a.flags / 1 == a.flags;
  }

  /** In a recorded world the next outcome is the expected one. */
  lemma NextExpected(backing: nat -> nat, w: seq<Process>, ops: seq<Op>, outs: seq<Outcome>, n: nat)
    requires n < |ops| == |outs| && Recorded(w, ops, outs, n) && Admissible(w, ops[n])
    requires outs[n] == Step(backing, w, ops[n]).1
    ensures outs[n] == Expected(backing, ops, outs, n)
  {
    if !ops[n].Spawn? {
      var p := ops[n].pid;
      assert ProcessRecorded(w[p], ops, outs, n, p);
      if ops[n].Read? || ops[n].Write? {
        var va, cause := ops[n].va, if ops[n].Read? then ops[n].cause else Store;
        assert StoredIs(w[p], ops, outs, n, p, va);
        AreaOverIsFindVma(w[p].vmas, va);
        if FindVma(w[p].vmas, va).Some? {
          GrantsIsPermits(FindVma(w[p].vmas, va).value, cause);
        }
      }
    }
  }

  lemma DeadNext(ops: seq<Op>, outs: seq<Outcome>, n: nat, p: nat)
    requires n < |ops| == |outs|
    ensures Dead(ops, outs, n + 1, p) <==>
              Dead(ops, outs, n, p) || (!ops[n].Spawn? && ops[n].pid == p && outs[n] == Killed)
  {
    if Dead(ops, outs, n, p) {
      var k :| 0 <= k < n && !ops[k].Spawn? && ops[k].pid == p && outs[k] == Killed;
      assert !ops[k].Spawn? && ops[k].pid == p && outs[k] == Killed;
    }
  }

  /** The step keeps the record. */
  lemma NextRecorded(backing: nat -> nat, w: seq<Process>, ops: seq<Op>, outs: seq<Outcome>, n: nat, n': nat)
    requires n' == n + 1 <= |ops| == |outs| && Recorded(w, ops, outs, n) && Admissible(w, ops[n])
    requires outs[n] == Step(backing, w, ops[n]).1
    ensures Recorded(Step(backing, w, ops[n]).0, ops, outs, n')
  {
    var m := Step(backing, w, ops[n]).0;
    assert |m| == |w| + if outs[n].Child? then 1 else 0;
    forall p: nat
      ensures if p < |m| then ProcessRecorded(m[p], ops, outs, n', p) else Blank(ops, outs, n', p)
    {
      if p < |w| {
        OldNext(backing, w, ops, outs, n, n', p);
      } else if p < |m| {
        BornNext(backing, w, ops, outs, n, n', p);
      } else {
        BlankNext(backing, w, ops, outs, n, n', p);
      }
    }
  }

  lemma OldNext(backing: nat -> nat, w: seq<Process>, ops: seq<Op>, outs: seq<Outcome>, n: nat, n': nat, p: nat)
    requires n' == n + 1 <= |ops| == |outs| && Recorded(w, ops, outs, n) && Admissible(w, ops[n]) && p < |w|
    requires outs[n] == Step(backing, w, ops[n]).1
    ensures p < |Step(backing, w, ops[n]).0| && ProcessRecorded(Step(backing, w, ops[n]).0[p], ops, outs, n', p)
  {
    var pr := Step(backing, w, ops[n]).0[p];
    DeadNext(ops, outs, n, p);
    assert ProcessRecorded(w[p], ops, outs, n, p);
    forall va: nat
      ensures StoredIs(pr, ops, outs, n', p, va)
    {
      assert StoredIs(w[p], ops, outs, n, p, va);
    }
  }

  lemma BornNext(backing: nat -> nat, w: seq<Process>, ops: seq<Op>, outs: seq<Outcome>, n: nat, n': nat, p: nat)
    requires n' == n + 1 <= |ops| == |outs| && Recorded(w, ops, outs, n) && Admissible(w, ops[n])
    requires outs[n] == Step(backing, w, ops[n]).1 && |w| <= p < |Step(backing, w, ops[n]).0|
    ensures ProcessRecorded(Step(backing, w, ops[n]).0[p], ops, outs, n', p)
  {
    var pr := Step(backing, w, ops[n]).0[p];
    DeadNext(ops, outs, n, p);
    assert Blank(ops, outs, n, p);
    if ops[n].Fork? {
      assert ProcessRecorded(w[ops[n].pid], ops, outs, n, ops[n].pid);
    }
    forall va: nat
      ensures StoredIs(pr, ops, outs, n', p, va)
    {
      assert Unstored(ops, outs, n, p, va);
      if ops[n].Fork? {
        assert StoredIs(w[ops[n].pid], ops, outs, n, ops[n].pid, va);
      }
    }
  }

  lemma BlankNext(backing: nat -> nat, w: seq<Process>, ops: seq<Op>, outs: seq<Outcome>, n: nat, n': nat, p: nat)
    requires n' == n + 1 <= |ops| == |outs| && Recorded(w, ops, outs, n) && Admissible(w, ops[n])
    requires outs[n] == Step(backing, w, ops[n]).1 && p >= |Step(backing, w, ops[n]).0|
    ensures Blank(ops, outs, n', p)
  {
    assert |Step(backing, w, ops[n]).0| >= |w|;
    DeadNext(ops, outs, n, p);
    assert Blank(ops, outs, n, p);
    forall va: nat
      ensures Unstored(ops, outs, n', p, va)
    {
      assert Unstored(ops, outs, n, p, va);
    }
  }

  lemma {:induction false} RunRecorded(backing: nat -> nat, ops: seq<Op>, n: nat)
    requires RunOk(backing, [], ops) && n <= |ops|
    ensures Recorded(World(backing, [], ops, n), ops, Run(backing, [], ops).1, n)
  {
    if n > 0 {
      RunRecorded(backing, ops, n - 1);
      WorldStep(backing, [], ops, n - 1);
      NextRecorded(backing, World(backing, [], ops, n - 1), ops, Run(backing, [], ops).1, n - 1, n);
    }
  }

  lemma RunAsExpected(backing: nat -> nat, ops: seq<Op>)
    requires RunOk(backing, [], ops)
    ensures AsExpected(backing, ops, Run(backing, [], ops).1)
  {
    var outs := Run(backing, [], ops).1;
    forall j | 0 <= j < |ops|
      ensures outs[j] == Expected(backing, ops, outs, j)
    {
      RunRecorded(backing, ops, j);
      WorldStep(backing, [], ops, j);
      NextExpected(backing, World(backing, [], ops, j), ops, outs, j);
    }
  }
}
