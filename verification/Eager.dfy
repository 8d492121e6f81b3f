/** The plain meaning of fork and of user memory: every process owns a private byte map, fork
    copies it at once, and a store changes one byte of one map. */
module Eager {
  import opened Common
  import opened Sv39
  import opened Cow

  /** A process: its areas and the bytes it has stored; other bytes have their initial values. */
  datatype Process = Process(vmas: seq<Vma>, bytes: map<nat, nat>, zombie: bool)

  function InitialByte(backing: nat -> nat, a: Vma, va: nat): nat {
    if a.file != 0 && a.start <= va then backing(a.file + (va - a.start)) % 256 else 0
  }

  function ReadByte(backing: nat -> nat, pr: Process, va: nat): nat {
    if va in pr.bytes then pr.bytes[va]
    else match FindVma(pr.vmas, va)
      case Some(a) => InitialByte(backing, a, va)
      case None => 0
  }

  datatype Cause = Fetch | Load | Store

  /** access_error is false */
  predicate Permits(cause: Cause, flags: nat) {
    match cause
    case Fetch => Has(flags, VM_EXEC)
    case Load => Has(flags, VM_READ) || Has(flags, VM_WRITE)
    case Store => Has(flags, VM_WRITE)
  }

  predicate WriteOnly(flags: nat) {
    Has(flags, VM_WRITE) && !Has(flags, VM_READ)
  }

  datatype Op =
    | Spawn
    | Mmap(pid: nat, area: Vma)
    | Fork(pid: nat)
    | Read(pid: nat, va: nat, cause: Cause)
    | Write(pid: nat, va: nat, byte: nat)

  datatype Outcome = Done | Byte(value: nat) | Child(pid: nat) | Killed | Ignored

  function MayAccess(pr: Process, va: nat, cause: Cause): bool {
    FindVma(pr.vmas, va).Some? && Permits(cause, FindVma(pr.vmas, va).value.flags)
  }

  predicate Exists(w: seq<Process>, op: Op) {
    op.Spawn? || op.pid < |w|
  }

  /** One step of the abstract world; only processes that are not zombies run. */
  function Step(backing: nat -> nat, w: seq<Process>, op: Op): (seq<Process>, Outcome)
    requires Exists(w, op)
  {
    if op.Spawn? then (w + [Process([], map[], false)], Child(|w|))
    else if w[op.pid].zombie then (w, Ignored)
    else
      match op
      case Mmap(p, a) => (w[p := w[p].(vmas := w[p].vmas + [a])], Done)
      case Fork(p) => (w + [w[p]], Child(|w|))
      case Read(p, va, cause) => ReadStep(backing, w, p, va, cause)
      case Write(p, va, b) => WriteStep(w, p, va, b)
  }

  function ReadStep(backing: nat -> nat, w: seq<Process>, p: nat, va: nat, cause: Cause): (seq<Process>, Outcome)
    requires p < |w|
  {
    if MayAccess(w[p], va, cause) then (w, Byte(ReadByte(backing, w[p], va)))
        else (w[p := w[p].(zombie := true)], Killed)
  }

  function WriteStep(w: seq<Process>, p: nat, va: nat, b: nat): (seq<Process>, Outcome)
    requires p < |w|
  {
    if MayAccess(w[p], va, Store) then (w[p := w[p].(bytes := w[p].bytes[va := b])], Done)
    else (w[p := w[p].(zombie := true)], Killed)
  }

  /** Operations the model covers: existing processes, whole-page areas of the user half with
      writable implying readable, and bytes. */
  predicate Admissible(w: seq<Process>, op: Op) {
    && Exists(w, op)
    && (op.Mmap? ==> VmaOk(op.area) && !WriteOnly(op.area.flags))
    && (op.Write? ==> op.byte < 256)
    && (op.Read? ==> op.cause != Store)
  }

  /** Pages spanned by a list of areas. */
  function Pages(vmas: seq<Vma>): nat {
    if vmas == [] then 0 else AreaPages(vmas[0]) + Pages(vmas[1..])
  }

  function AreaPages(a: Vma): nat {
    if a.end > a.start then (a.end - a.start) / PAGE_SIZE else 0
  }

  /** Frames enough for an operation: a root and at most three frames a page for fork, and two
      tables and a page for each of at most two faults of an access. */
  function Need(w: seq<Process>, op: Op): nat
    requires Exists(w, op)
  {
    match op
    case Spawn => 1
    case Mmap(_, _) => 0
    case Fork(p) => 1 + 3 * Pages(w[p].vmas)
    case _ => 6
  }

  /** Running a program of operations gives the outcome of each. */
  function Run(backing: nat -> nat, w: seq<Process>, ops: seq<Op>): (r: (seq<Process>, seq<Outcome>))
    requires RunOk(backing, w, ops)
    ensures |r.1| == |ops|
    decreases |ops|
  {
    if ops == [] then (w, [])
    else
      var (m, out) := Step(backing, w, ops[0]);
      var (r, outs) := Run(backing, m, ops[1..]);
      (r, [out] + outs)
  }

  predicate RunOk(backing: nat -> nat, w: seq<Process>, ops: seq<Op>)
    decreases |ops|
  {
    ops == [] || (Admissible(w, ops[0]) && RunOk(backing, Step(backing, w, ops[0]).0, ops[1..]))
  }

  function RunNeed(backing: nat -> nat, w: seq<Process>, ops: seq<Op>): nat
    requires RunOk(backing, w, ops)
    decreases |ops|
  {
    if ops == [] then 0 else Need(w, ops[0]) + RunNeed(backing, Step(backing, w, ops[0]).0, ops[1..])
  }

  /** A run is its first operation and then the rest. */
  lemma RunCons(backing: nat -> nat, w: seq<Process>, ops: seq<Op>, i: nat) returns (m: seq<Process>, out: Outcome)
    requires i < |ops| && RunOk(backing, w, ops[i..])
    ensures Admissible(w, ops[i]) && (m, out) == Step(backing, w, ops[i]) && RunOk(backing, m, ops[i + 1..])
    ensures RunNeed(backing, w, ops[i..]) == Need(w, ops[i]) + RunNeed(backing, m, ops[i + 1..])
    ensures Run(backing, w, ops[i..]).0 == Run(backing, m, ops[i + 1..]).0
    ensures Run(backing, w, ops[i..]).1 == [out] + Run(backing, m, ops[i + 1..]).1
  {
    m, out := Step(backing, w, ops[i]).0, Step(backing, w, ops[i]).1;
    assert ops[i..][1..] == ops[i + 1..];
  }

  lemma RunEnd(backing: nat -> nat, w: seq<Process>)
    ensures RunOk(backing, w, []) && Run(backing, w, []) == (w, [])
  {
  }

  // --- hardware permissions

  /** What the hardware allows in user mode (section 4.3.1 of the RISC-V Privileged Architecture,
      version 20211203): a leaf must be readable or executable, and writable without readable is
      a reserved encoding that faults on every access.  Hardware that does not set the accessed and
      dirty bits itself faults where they are clear. */
  predicate HwPermits(w: nat, cause: Cause) {
    && Has(w, PAGE_PRESENT) && Has(w, PAGE_USER)
    && Has(w, PAGE_ACCESSED) && (cause == Store ==> Has(w, PAGE_DIRTY))
    && (Has(w, PAGE_READ) || Has(w, PAGE_EXEC))
    && !(Has(w, PAGE_WRITE) && !Has(w, PAGE_READ))
    && match cause
       case Fetch => Has(w, PAGE_EXEC)
       case Load => Has(w, PAGE_READ)
       case Store => Has(w, PAGE_WRITE)
  }

  /** The bits above the rights, apart from the rest. */
  lemma UpperBits(q: nat, a: nat, b: nat)
    requires b < 16 && a < 64
    ensures Has(16 * (64 * q + a) + b, PAGE_USER) <==> a % 2 == 1
    ensures Has(16 * (64 * q + a) + b, PAGE_ACCESSED) <==> a / 4 % 2 == 1
    ensures Has(16 * (64 * q + a) + b, PAGE_DIRTY) <==> a / 8 % 2 == 1
  {
    var k := 64 * q + a;
    Above(k, b);
    Quarters(q, a);
    EvenPlus(32 * q, a);
    assert k == 2 * (32 * q) + a;
    assert 16 * q + a / 4 == 2 * (8 * q) + a / 4;
    assert 8 * q + a / 8 == 2 * (4 * q) + a / 8;
    EvenPlus(4 * q, a / 8);
    EvenPlus(8 * q, a / 4);
  }

  lemma Above(k: nat, b: nat)
    requires b < 16
    ensures (16 * k + b) / 16 == k && (16 * k + b) / 64 == k / 4 && (16 * k + b) / 128 == k / 8
  {
  }

  lemma Quarters(q: nat, a: nat)
    ensures (64 * q + a) / 4 == 16 * q + a / 4 && (64 * q + a) / 8 == 8 * q + a / 8
  {
  }

  lemma EvenPlus(m: nat, x: nat)
    ensures (2 * m + x) % 2 == x % 2
  {
  }

  lemma HighBits(w: nat)
    ensures Has(w, PAGE_USER) == Has(Prot(w), PAGE_USER)
    ensures Has(w, PAGE_ACCESSED) == Has(Prot(w), PAGE_ACCESSED) && Has(w, PAGE_DIRTY) == Has(Prot(w), PAGE_DIRTY)
  {
    var q, r := w / 1024, w % 1024;
    UpperBits(q, r / 16, r % 16);
    UpperBits(0, r / 16, r % 16);
    assert w == 16 * (64 * q + r / 16) + r % 16;
    assert r == 16 * (64 * 0 + r / 16) + r % 16;
  }

  /** An area's leaf is a user page, accessed and dirty. */
  lemma AreaBits(flags: nat)
    requires flags < 8
    ensures forall p :: p == VmProt(flags) || p == ClearWrite(VmProt(flags)) ==>
              Has(p, PAGE_USER) && Has(p, PAGE_ACCESSED) && Has(p, PAGE_DIRTY)
  {
    var b: nat := 1 + (if Has(flags, VM_READ) then 2 else 0) + (if Has(flags, VM_WRITE) then 4 else 0)
                  + (if Has(flags, VM_EXEC) then 8 else 0);
    assert VmProt(flags) == 16 * (64 * 0 + 13) + b;
    UpperBits(0, 13, b);
    if Has(VmProt(flags), PAGE_WRITE) {
      ClearedBits(b);
      UpperBits(0, 13, b - 4);
    }
  }

  lemma ClearedBits(b: nat)
    requires b < 16 && Has(16 * (64 * 0 + 13) + b, PAGE_WRITE)
    ensures b >= 4
  {
  }

  lemma AreaRights(flags: nat)
    requires flags < 8
    ensures forall cause :: Permits(cause, flags) && !WriteOnly(flags) ==> HwPermits(VmProt(flags), cause)
    ensures forall cause :: WriteOnly(flags) ==> !HwPermits(VmProt(flags), cause)
    ensures forall cause :: Permits(cause, flags) && !WriteOnly(flags) && cause != Store ==>
              HwPermits(ClearWrite(VmProt(flags)), cause)
    ensures WriteOnly(flags) ==>
              !HwPermits(ClearWrite(VmProt(flags)), Load) && !HwPermits(ClearWrite(VmProt(flags)), Store)
    ensures WriteOnly(flags) && Permits(Fetch, flags) ==> HwPermits(ClearWrite(VmProt(flags)), Fetch)
    ensures WriteOnly(flags) ==> Has(VmProt(flags), PAGE_WRITE)
  {
    var q: nat := 26 + if Has(flags, VM_EXEC) then 1 else 0;
    var r: nat := 1 + (if Has(flags, VM_READ) then 2 else 0) + if Has(flags, VM_WRITE) then 4 else 0;
    assert VmProt(flags) == 8 * q + r;
    LowBits(q, r);
    if r >= 4 {
      LowBits(q, r - 4);
    }
    AreaBits(flags);
  }

  /** A leaf with exactly its area's rights serves every access the area permits, and no access at
      all when the area is write-only. */
  lemma FullLeafServes(w: nat, flags: nat, cause: Cause)
    requires flags < 8 && Prot(w) == VmProt(flags) && Permits(cause, flags)
    ensures HwPermits(w, cause) <==> !WriteOnly(flags)
  {
    AreaRights(flags);
    ProtBits(w);
    HighBits(w);
  }

  /** A permitted access through a present leaf of an area that is not write-only faults only
      to break sharing, so the final spin of do_page_fault is out of reach. */
  lemma FaultIsCow(w: nat, flags: nat, cause: Cause)
    requires flags < 8 && (Prot(w) == VmProt(flags) || Prot(w) == ClearWrite(VmProt(flags)))
    requires Permits(cause, flags) && !WriteOnly(flags) && !HwPermits(w, cause)
    ensures cause == Store && !Has(w, PAGE_WRITE)
  {
    AreaRights(flags);
    ProtBits(w);
    HighBits(w);
    ClearBits(VmProt(flags));
  }

  /** A permitted access to a page whose leaf is w never gets through: the area is write-only, and
      the access is not a fetch through a leaf that fork has made read-only. */
  predicate Spins(w: nat, flags: nat, cause: Cause) {
    WriteOnly(flags) && (cause == Fetch ==> w == 0 || Has(w, PAGE_WRITE))
  }

  /** What decides the first attempt at a present leaf: it serves, or sharing is broken, or the
      handler spins. */
  lemma LeafDecides(w: nat, flags: nat, cause: Cause)
    requires flags < 8 && (Prot(w) == VmProt(flags) || Prot(w) == ClearWrite(VmProt(flags)))
    requires Permits(cause, flags)
    ensures HwPermits(w, cause) ==> !Spins(w, flags, cause)
    ensures !HwPermits(w, cause) && !(cause == Store && !Has(w, PAGE_WRITE)) ==> Spins(w, flags, cause)
  {
    AreaRights(flags);
    ProtBits(w);
    HighBits(w);
    ClearBits(VmProt(flags));
    if !HwPermits(w, cause) && !WriteOnly(flags) {
      FaultIsCow(w, flags, cause);
    }
  }

  /** A store to a page of an area that may be written but not read is such an access. */
  lemma WriteOnlySpins()
    ensures Permits(Store, VM_WRITE) && Spins(0, VM_WRITE, Store)
  {
    assert VM_WRITE / VM_WRITE % 2 == 1;
  }

  // --- bytes of words

  function ByteOf(w: nat, k: nat): nat {
    if k == 0 then w % 256 else ByteOf(w / 256, k - 1)
  }

  function SetByte(w: nat, k: nat, b: nat): nat
    decreases k
  {
    if k == 0 then w / 256 * 256 + b else SetByte(w / 256, k - 1, b) * 256 + w % 256
  }

  lemma {:induction false} ByteOfSetByte(w: nat, k: nat, b: nat, j: nat)
    requires b < 256
    ensures ByteOf(SetByte(w, k, b), j) == if j == k then b else ByteOf(w, j)
  {
    if k == 0 {
      assert SetByte(w, k, b) / 256 == w / 256;
    } else if j > 0 {
      ByteOfSetByte(w / 256, k - 1, b, j - 1);
      assert SetByte(w, k, b) / 256 == SetByte(w / 256, k - 1, b);
    }
  }

  lemma {:induction false} ByteOfWordAt(backing: nat -> nat, addr: nat, n: nat, k: nat)
    requires k < n
    ensures ByteOf(WordAt(backing, addr, n), k) == backing(addr + k) % 256
    decreases n
  {
    if k > 0 {
      ByteOfWordAt(backing, addr + 1, n - 1, k - 1);
    }
  }

  lemma {:induction false} ByteOfZero(k: nat)
    ensures ByteOf(0, k) == 0
  {
    if k > 0 {
      ByteOfZero(k - 1);
    }
  }

  /** The byte at address va of a page. */
  function PageByte(page: Frame, va: nat): nat {
    ByteOf(page[va % PAGE_SIZE / 8], va % 8)
  }

  lemma Mod8(t: nat, o: nat)
    ensures (8 * t + o) % 8 == o % 8
  {
    assert 8 * t + o == 8 * (t + o / 8) + o % 8;
  }

  /** An address is its page, the word within the page and the byte within the word. */
  lemma ByteAddress(va: nat)
    ensures va == va / PAGE_SIZE * PAGE_SIZE + 8 * (va % PAGE_SIZE / 8) + va % 8
  {
    var v, o := va / PAGE_SIZE, va % PAGE_SIZE;
    assert va == 8 * (512 * v) + o;
    Mod8(512 * v, o);
  }

  /** Demand paging fills a page with the initial bytes of its area. */
  lemma InitialPageBytes(backing: nat -> nat, a: Vma, va: nat)
    requires VmaOk(a) && a.start <= va < a.end
    ensures PageByte(InitialPage(backing, a, va / PAGE_SIZE), va) == InitialByte(backing, a, va)
  {
    var v, i, k := va / PAGE_SIZE, va % PAGE_SIZE / 8, va % 8;
    ByteAddress(va);
    AreaStartsPage(a, va);
    InitialPageByteAt(backing, a, v, i, k);
  }

  lemma AreaStartsPage(a: Vma, va: nat)
    requires VmaOk(a) && a.start <= va
    ensures a.start <= va / PAGE_SIZE * PAGE_SIZE
  {
  }

  lemma InitialPageByteAt(backing: nat -> nat, a: Vma, v: nat, i: nat, k: nat)
    requires a.start <= v * PAGE_SIZE && i < WORDS && k < 8
    ensures ByteOf(InitialPage(backing, a, v)[i], k) == InitialByte(backing, a, v * PAGE_SIZE + 8 * i + k)
  {
    if a.file != 0 {
      ByteOfWordAt(backing, a.file + (v * PAGE_SIZE - a.start) + 8 * i, 8, k);
    } else {
      ByteOfZero(k);
    }
  }

  /** Storing one byte into a page. */
  function PutByte(page: Frame, va: nat, b: nat): (r: Frame) {
    page[va % PAGE_SIZE / 8 := SetByte(page[va % PAGE_SIZE / 8], va % 8, b)]
  }

  lemma PutByteAlone(page: Frame, va: nat, b: nat, ua: nat)
    requires b < 256 && ua / PAGE_SIZE == va / PAGE_SIZE
    ensures PageByte(PutByte(page, va, b), ua) == if ua == va then b else PageByte(page, ua)
  {
    ByteOfSetByte(page[va % PAGE_SIZE / 8], va % 8, b, ua % 8);
    if ua % PAGE_SIZE / 8 == va % PAGE_SIZE / 8 && ua % 8 == va % 8 {
      assert ua % PAGE_SIZE == va % PAGE_SIZE;
    }
  }

  // --- the abstraction

  function ByteView(backing: nat -> nat, s: Vm, p: nat, va: nat): nat
    requires p < |s.space.pgd| && p < |s.vmas|
  {
    PageByte(PageView(backing, s, p, va / PAGE_SIZE), va)
  }

  /** Page tables and frames show every process exactly its private byte map. */
  ghost predicate Agrees(backing: nat -> nat, s: Vm, zombie: seq<bool>, w: seq<Process>) {
    && |w| == |s.space.pgd| == |s.vmas| == |zombie|
    && forall p :: 0 <= p < |w| ==> ProcessAgrees(backing, s, zombie, p, w[p])
  }

  ghost predicate ProcessAgrees(backing: nat -> nat, s: Vm, zombie: seq<bool>, p: nat, pr: Process)
    requires p < |s.space.pgd| && p < |s.vmas| && p < |zombie|
  {
    && pr.vmas == s.vmas[p] && pr.zombie == zombie[p]
    && (forall va :: va in pr.bytes ==> FindVma(pr.vmas, va).Some?)
    && (forall a :: a in pr.vmas ==> !WriteOnly(a.flags))
    && forall va: nat :: FindVma(pr.vmas, va).Some? ==> ByteView(backing, s, p, va) == ReadByte(backing, pr, va)
  }

  /** Steps that leave every page's contents alone leave the agreement alone. */
  lemma AgreesSame(backing: nat -> nat, s: Vm, r: Vm, zombie: seq<bool>, w: seq<Process>)
    requires Sane(s) && Sane(r) && Agrees(backing, s, zombie, w) && SameViews(backing, s, r)
    ensures Agrees(backing, r, zombie, w)
  {
    forall p | 0 <= p < |w|
      ensures ProcessAgrees(backing, r, zombie, p, w[p])
    {
      assert ProcessAgrees(backing, s, zombie, p, w[p]);
      forall va: nat | FindVma(w[p].vmas, va).Some?
        ensures ByteView(backing, r, p, va) == ReadByte(backing, w[p], va)
      {
        PageInUserHalf(s, p, va);
      }
    }
  }

  /** The byte behind a permitted address is the private one, and its area is readable if writable. */
  lemma AgreesAt(backing: nat -> nat, s: Vm, zombie: seq<bool>, w: seq<Process>, p: nat, va: nat)
    requires Agrees(backing, s, zombie, w) && p < |w| && FindVma(s.vmas[p], va).Some?
    ensures ByteView(backing, s, p, va) == ReadByte(backing, w[p], va)
    ensures !WriteOnly(FindVma(s.vmas[p], va).value.flags)
    ensures w[p].vmas == s.vmas[p] && w[p].zombie == zombie[p]
  {
    assert ProcessAgrees(backing, s, zombie, p, w[p]);
  }

  lemma AgreesKill(backing: nat -> nat, s: Vm, zombie: seq<bool>, w: seq<Process>, p: nat)
    requires Agrees(backing, s, zombie, w) && p < |w|
    ensures Agrees(backing, s, zombie[p := true], w[p := w[p].(zombie := true)])
  {
    var w' := w[p := w[p].(zombie := true)];
    forall q | 0 <= q < |w'|
      ensures ProcessAgrees(backing, s, zombie[p := true], q, w'[q])
    {
      assert ProcessAgrees(backing, s, zombie, q, w[q]);
    }
  }

  lemma PageInUserHalf(s: Vm, p: nat, va: nat)
    requires Sane(s) && p < |s.vmas| && FindVma(s.vmas[p], va).Some?
    ensures va / PAGE_SIZE < Bound(0) && PageVma(s.vmas[p], va / PAGE_SIZE) == FindVma(s.vmas[p], va)
  {
    assert VmaOk(FindVma(s.vmas[p], va).value);
    VmaOfPage(s.vmas[p], va);
  }

  lemma AgreesStore(backing: nat -> nat, s: Vm, r: Vm, zombie: seq<bool>, w: seq<Process>, p: nat, va: nat, b: nat)
    requires Sane(s) && Sane(r) && Agrees(backing, s, zombie, w) && p < |w| && b < 256
    requires r.vmas == s.vmas && r.space.pgd == s.space.pgd && FindVma(s.vmas[p], va).Some?
    requires forall q, u :: 0 <= q < |s.space.pgd| && 0 <= u < Bound(0) ==>
               PageView(backing, r, q, u) == if q == p && u == va / PAGE_SIZE
                   then PutByte(PageView(backing, s, p, va / PAGE_SIZE), va, b) else PageView(backing, s, q, u)
    ensures Agrees(backing, r, zombie, w[p := w[p].(bytes := w[p].bytes[va := b])])
  {
    var w' := w[p := w[p].(bytes := w[p].bytes[va := b])];
    forall q | 0 <= q < |w'|
      ensures ProcessAgrees(backing, r, zombie, q, w'[q])
    {
      assert ProcessAgrees(backing, s, zombie, q, w[q]);
      forall ua: nat | FindVma(w[q].vmas, ua).Some?
        ensures ByteView(backing, r, q, ua) == ReadByte(backing, w'[q], ua)
      {
        PageInUserHalf(s, q, ua);
        if q == p && ua / PAGE_SIZE == va / PAGE_SIZE {
          PutByteAlone(PageView(backing, s, p, va / PAGE_SIZE), va, b, ua);
        }
      }
    }
  }

  lemma AgreesFork(backing: nat -> nat, s: Vm, r: Vm, zombie: seq<bool>, w: seq<Process>, p: nat)
    requires Sane(s) && Sane(r) && Agrees(backing, s, zombie, w) && p < |w| && !zombie[p]
    requires |r.space.pgd| == |s.space.pgd| + 1 && r.vmas == s.vmas + [s.vmas[p]]
    requires forall q, u :: 0 <= q <= |s.space.pgd| && 0 <= u < Bound(0) ==>
               PageView(backing, r, q, u) == PageView(backing, s, if q == |s.space.pgd| then p else q, u)
    ensures Agrees(backing, r, zombie + [false], w + [w[p]])
  {
    var w' := w + [w[p]];
    forall q | 0 <= q < |w'|
      ensures ProcessAgrees(backing, r, zombie + [false], q, w'[q])
    {
      var o := if q == |w| then p else q;
      assert ProcessAgrees(backing, s, zombie, o, w[o]);
      forall va: nat | FindVma(w[o].vmas, va).Some?
        ensures ByteView(backing, r, q, va) == ReadByte(backing, w[o], va)
      {
        PageInUserHalf(s, o, va);
      }
    }
  }

  /** A new process with nothing mapped. */
  lemma AgreesSpawn(backing: nat -> nat, s: Vm, r: Vm, zombie: seq<bool>, w: seq<Process>)
    requires Sane(s) && Sane(r) && Agrees(backing, s, zombie, w)
    requires |r.space.pgd| == |s.space.pgd| + 1 && r.vmas == s.vmas + [[]]
    requires forall q, u :: 0 <= q < |s.space.pgd| && 0 <= u < Bound(0) ==>
               PageView(backing, r, q, u) == PageView(backing, s, q, u)
    ensures Agrees(backing, r, zombie + [false], w + [Process([], map[], false)])
  {
    var w' := w + [Process([], map[], false)];
    forall q | 0 <= q < |w'|
      ensures ProcessAgrees(backing, r, zombie + [false], q, w'[q])
    {
      if q < |w| {
        assert ProcessAgrees(backing, s, zombie, q, w[q]);
        forall va: nat | FindVma(w[q].vmas, va).Some?
          ensures ByteView(backing, r, q, va) == ReadByte(backing, w[q], va)
        {
          PageInUserHalf(s, q, va);
        }
      }
    }
  }

  lemma AgreesMmap(backing: nat -> nat, s: Vm, zombie: seq<bool>, w: seq<Process>, p: nat, a: Vma)
    requires VmInv(s) && Agrees(backing, s, zombie, w) && p < |w| && VmaOk(a) && !WriteOnly(a.flags)
    ensures VmInv(AddArea(s, p, a))
    ensures Agrees(backing, AddArea(s, p, a), zombie, w[p := w[p].(vmas := w[p].vmas + [a])])
  {
    AddAreaInv(backing, s, p, a);
    var r := AddArea(s, p, a);
    var w' := w[p := w[p].(vmas := w[p].vmas + [a])];
    forall q | 0 <= q < |w'|
      ensures ProcessAgrees(backing, r, zombie, q, w'[q])
    {
      assert ProcessAgrees(backing, s, zombie, q, w[q]);
      forall va: nat
        ensures FindVma(w[q].vmas, va).Some? ==> FindVma(w'[q].vmas, va).Some?
        ensures FindVma(w'[q].vmas, va).Some? ==> ByteView(backing, r, q, va) == ReadByte(backing, w'[q], va)
      {
        AgreesMmapAt(backing, s, zombie, w, p, a, q, va);
      }
    }
  }

  /** Nothing is mapped outside the areas. */
  lemma NoLeafOutside(s: Vm, p: nat, v: nat)
    requires VmInv(s) && p < |s.space.pgd| && v < Bound(0) && PageVma(s.vmas[p], v).None?
    ensures Leaf(s, p, v) == 0
  {
  }

  lemma AgreesMmapAt(backing: nat -> nat, s: Vm, zombie: seq<bool>, w: seq<Process>, p: nat, a: Vma, q: nat, va: nat)
    requires VmInv(s) && Agrees(backing, s, zombie, w) && p < |w| && VmaOk(a) && q < |w|
    ensures var r := AddArea(s, p, a); var w' := w[p := w[p].(vmas := w[p].vmas + [a])];
            && q < |r.space.pgd| && q < |r.vmas|
            && (FindVma(w[q].vmas, va).Some? ==> FindVma(w'[q].vmas, va).Some?)
            && (FindVma(w'[q].vmas, va).Some? ==> ByteView(backing, r, q, va) == ReadByte(backing, w'[q], va))
  {
    AddAreaInv(backing, s, p, a);
    var r := AddArea(s, p, a);
    assert ProcessAgrees(backing, s, zombie, q, w[q]);
    FindVmaAppend(s.vmas[p], a, va);
    if FindVma(s.vmas[q], va).Some? {
      PageInUserHalf(s, q, va);
    } else if FindVma(r.vmas[q], va).Some? {
      PageInUserHalf(r, q, va);
      VmaOfPage(s.vmas[p], va);
      assert PageVma(s.vmas[q], va / PAGE_SIZE).None?;
      NoLeafOutside(s, q, va / PAGE_SIZE);
      InitialPageBytes(backing, a, va);
    }
  }
}
