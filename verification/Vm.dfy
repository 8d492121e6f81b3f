/** src/vm.c working in place: page tables and frames in one physical memory, frames drawn from
    the allocator of src/mm.c. */
module Vm {
  import opened Common
  import opened Sv39
  import opened Cow
  import opened Eager
  import opened ForkFacts
  import History
  import Blocks
  import Buddy
  import Slab
  import Mm
  import PageSets

  /** What the paging code must leave as it is: the pages of other users of the allocator, with what the
      allocator says about them, and the kernel's root table, whose upper half every root repeats. */
  datatype Others = Others(pages: map<nat, (Buddy.Tag, Buddy.Page)>, dir: Frame)

  /** Every frame in use by page tables belongs to an allocated page that is no cache page, and
      `refs` is what struct page counts for it. */
  ghost predicate FramesHeld(s: Vm, st: Buddy.State) {
    && |s.space.mem| == |s.space.role| == |s.refs| == |st.pages| == |st.tags|
    && forall f :: 0 <= f < |s.space.role| && s.space.role[f] != Unused ==>
         && st.tags[f] == Buddy.Tag(0, Buddy.Allocated)
         && st.pages[f].cacheidx == Buddy.CACHE_UNALLOC
         && st.pages[f].refcount == s.refs[f]
  }

  /** The pages of others are left to them. */
  ghost predicate PagesApart(s: Vm, st: Buddy.State, pages: map<nat, (Buddy.Tag, Buddy.Page)>) {
    forall f :: f in pages ==>
      && f < |st.pages| && f < |st.tags| && f < |s.space.role|
      && s.space.role[f] == Unused && pages[f].0.kind == Buddy.Allocated
      && st.tags[f] == pages[f].0 && st.pages[f] == pages[f].1
  }

  /** Every root has the kernel's half of the root table `dir`. */
  ghost predicate Halves(s: Space, dir: Frame) {
    forall p, i {:trigger s.mem[s.pgd[p]][i]} :: 0 <= p < |s.pgd| && 256 <= i < WORDS ==>
      s.pgd[p] < |s.mem| && s.mem[s.pgd[p]][i] == dir[i]
  }

  ghost predicate Held(s: Vm, st: Buddy.State, o: Others) {
    FramesHeld(s, st) && PagesApart(s, st, o.pages) && Halves(s.space, o.dir)
  }

  ghost function FreeFrames(st: Buddy.State): nat {
    |PageSets.PagesOf(st, Buddy.Free)|
  }

  /** A free page f is given out, and no other page changes. */
  ghost predicate OnePage(st: Buddy.State, r: Buddy.State, f: nat) {
    && |r.tags| == |st.tags| == |r.pages| == |st.pages| && f < |st.tags|
    && st.tags[f].kind == Buddy.Free && r.tags[f] == Buddy.Tag(0, Buddy.Allocated)
    && r.pages[f].cacheidx == st.pages[f].cacheidx && r.pages[f].refcount == 1
    && forall g :: 0 <= g < |st.tags| && g != f ==>
         (st.tags[g].kind == Buddy.Allocated ==> r.tags[g] == st.tags[g] && r.pages[g] == st.pages[g])
  }

  lemma OnePageGiven(st: Buddy.State, r: Buddy.State, f: nat)
    requires |st.area| == |r.area| == Buddy.MAX_ORDER + 1 && |r.tags| == |r.pages|
    requires Buddy.Allocates(st, r, 0, f)
    ensures OnePage(st, r, f)
  {
    assert Blocks.Pow2(0) == 1;
  }

  lemma OnePageTaken(st: Buddy.State, r: Buddy.State, f: nat)
    requires Buddy.Inv(st) && Buddy.Quiet(st) && Buddy.Alloc(st, 0) == (r, Some(f))
    ensures FreeFrames(r) == FreeFrames(st) - 1 && OnePage(st, r, f)
  {
    OnePageCounted(st, r, f);
    Buddy.AllocEffect(st, 0);
    OnePageGiven(st, r, f);
  }

  lemma OnePageCounted(st: Buddy.State, r: Buddy.State, f: nat)
    requires Buddy.Inv(st) && Buddy.Quiet(st) && Buddy.Alloc(st, 0) == (r, Some(f))
    ensures FreeFrames(r) == FreeFrames(st) - 1
  {
    PageSets.AllocMoves(st, r, 0, f);
    assert PageSets.Run(f, 1) == {f};
  }

  /** A page just given out. */
  predicate NewPage(st: Buddy.State, f: nat, o: Others) {
    && f < |st.tags| == |st.pages| && st.tags[f] == Buddy.Tag(0, Buddy.Allocated)
    && st.pages[f].cacheidx == Buddy.CACHE_UNALLOC && st.pages[f].refcount == 1 && f !in o.pages
  }

  /** A page newly given out is one that neither page tables nor others know. */
  lemma NewFrame(s: Vm, st: Buddy.State, r: Buddy.State, f: nat, cache: seq<seq<nat>>, live: set<nat>, o: Others)
    requires Slab.SlabInv(st, cache, live) && Held(s, st, o) && OnePage(st, r, f)
    ensures Held(s, r, o) && f < |s.space.mem| && s.space.role[f] == Unused
    ensures NewPage(r, f, o)
  {
    assert Slab.CachePage(st, f) || st.pages[f].cacheidx == Buddy.CACHE_UNALLOC;
  }

  /** Using the frame f, or counting differently, keeps the allocator's view in step. */
  lemma HoldFrame(s: Vm, r: Vm, st: Buddy.State, f: nat, o: Others)
    requires Held(s, st, o) && NewPage(st, f, o)
    requires |r.space.mem| == |s.space.mem| == |r.space.role| == |r.refs| && r.refs[f] == 1
    requires forall g :: 0 <= g < |s.refs| && g != f ==>
               r.refs[g] == s.refs[g] && (s.space.role[g] == Unused ==> r.space.role[g] == Unused)
    requires Halves(r.space, o.dir)
    ensures Held(r, st, o)
  {
  }

  /** Neither a frame that is no table nor a slot of the user half belongs to the kernel's half. */
  lemma HalvesStay(s: Space, r: Space, dir: Frame, t: nat, idx: nat, w: nat)
    requires Tree(s) && Halves(s, dir) && r.pgd == s.pgd && t < |s.mem| && idx < WORDS
    requires s.role[t].Table? && (s.role[t].level == 2 ==> idx < 256)
    requires |r.mem| == |s.mem| && r.mem[t] == s.mem[t][idx := w]
    requires forall f :: 0 <= f < |s.mem| && f != t && s.role[f].Table? ==> r.mem[f] == s.mem[f]
    ensures Halves(r, dir)
  {
    forall p, i | 0 <= p < |r.pgd| && 256 <= i < WORDS
      ensures r.pgd[p] < |r.mem| && r.mem[r.pgd[p]][i] == dir[i]
    {
      assert s.role[s.pgd[p]] == Table(2, p, 0);
      assert s.mem[s.pgd[p]][i] == dir[i];
    }
  }

  /** Writing anything but roots leaves it as it is. */
  lemma HalvesLow(s: Space, r: Space, dir: Frame)
    requires Tree(s) && Halves(s, dir) && r.pgd == s.pgd && |r.mem| == |s.mem|
    requires forall f :: 0 <= f < |s.mem| && s.role[f].Table? && s.role[f].level == 2 ==> r.mem[f] == s.mem[f]
    ensures Halves(r, dir)
  {
    forall p, i | 0 <= p < |r.pgd| && 256 <= i < WORDS
      ensures r.pgd[p] < |r.mem| && r.mem[r.pgd[p]][i] == dir[i]
    {
      assert s.role[s.pgd[p]] == Table(2, p, 0);
      assert s.mem[s.pgd[p]][i] == dir[i];
    }
  }

  /** A table is linked below an entry of the user half. */
  lemma HalvesLinked(s: Space, r: Space, dir: Frame, p: nat, l: nat, x: nat, f: nat, w: nat)
    requires Tree(s) && Halves(s, dir) && p < |s.pgd| && l <= 2 && x < Bound(l) && HasSlot(s, p, l, x)
    requires f < |s.mem| && s.role[f] == Unused && r.pgd == s.pgd
    requires SlotFrame(s, p, l, x) < |s.mem|
    requires r.mem == SetWord(s.mem[f := ZeroFrame()], SlotFrame(s, p, l, x), x % WORDS, w)
    ensures Halves(r, dir)
  {
    SlotRole(s, p, l, x);
    HalvesStay(s, r, dir, SlotFrame(s, p, l, x), x % WORDS, w);
  }

  /** A new root is a copy of the kernel's. */
  lemma HalvesAdded(s: Space, r: Space, dir: Frame, f: nat)
    requires Tree(s) && Halves(s, dir) && f < |s.mem| && s.role[f] == Unused
    requires r.pgd == s.pgd + [f] && r.mem == s.mem[f := dir]
    ensures Halves(r, dir)
  {
    forall p, i | 0 <= p < |r.pgd| && 256 <= i < WORDS
      ensures r.pgd[p] < |r.mem| && r.mem[r.pgd[p]][i] == dir[i]
    {
      if p < |s.pgd| {
        assert s.role[s.pgd[p]] == Table(2, p, 0);
        assert s.mem[s.pgd[p]][i] == dir[i];
      }
    }
  }

  /** A leaf is written, and perhaps a frame that is no table. */
  lemma HalvesLeaf(s: Space, r: Space, dir: Frame, p: nat, v: nat, f: nat, frame: Frame, w: nat)
    requires Tree(s) && Halves(s, dir) && p < |s.pgd| && v < Bound(0) && HasSlot(s, p, 0, v)
    requires f < |s.mem| && (s.role[f].Table? ==> frame == s.mem[f]) && r.pgd == s.pgd
    requires SlotFrame(s, p, 0, v) < |s.mem|
    requires r.mem == SetWord(s.mem[f := frame], SlotFrame(s, p, 0, v), v % WORDS, w)
    ensures Halves(r, dir)
  {
    SlotRole(s, p, 0, v);
    HalvesLow(s, r, dir);
  }

  /** Below an absent root entry there is nothing. */
  lemma AbsentBelow(s: Space, p: nat, v: nat, level: nat)
    requires p < |s.pgd| && level <= 2 && Walk(s, p, 2, Up(v, 2)) == 0
    ensures Walk(s, p, level, Up(v, level)) == 0
  {
    assert Up(v, 2) == Up(v / WORDS, 1) == Up(v / WORDS / WORDS, 0);
    assert Up(v, 1) == Up(v / WORDS, 0);
  }

  /** A copying step from `start`, and no step at all if the parent's root has no entry for the page. */
  ghost predicate Copying(backing: nat -> nat, start: Vm, s: Vm, mem0: seq<Frame>, mem: seq<Frame>,
                          st0: Buddy.State, st: Buddy.State, parent: nat, child: nat, v: nat) {
    && Forking(s, parent, child) && v < Bound(0)
    && Forking(start, parent, child) && CopyStep(backing, start, s, parent, child, v, v + 1)
    && (Walk(start.space, parent, 2, Up(v, 2)) == 0 ==> mem == mem0 && s == start && st == st0)
  }

  lemma CopyingStep(backing: nat -> nat, start: Vm, s: Vm, r: Vm, mem0: seq<Frame>, mem: seq<Frame>, mem': seq<Frame>,
                    st0: Buddy.State, st: Buddy.State, st': Buddy.State, parent: nat, child: nat, v: nat, level: nat)
    requires Copying(backing, start, s, mem0, mem, st0, st, parent, child, v) && level <= 2
    requires Forking(r, parent, child) && CopyStep(backing, s, r, parent, child, v, v + 1)
    requires Walk(s.space, parent, level, Up(v, level)) == 0 ==> mem' == mem && r == s && st' == st
    ensures Copying(backing, start, r, mem0, mem', st0, st', parent, child, v)
  {
    if Walk(start.space, parent, 2, Up(v, 2)) == 0 {
      AbsentBelow(start.space, parent, v, level);
    }
    CopyStepTrans(backing, start, s, r, parent, child, v, v + 1);
  }

  /** Copying a page the parent does not have changes no leaf. */
  lemma AbsentLeaf(backing: nat -> nat, s: Vm, r: Vm, parent: nat, child: nat, v: nat)
    requires Forking(s, parent, child) && Forking(r, parent, child) && v < Bound(0)
    requires CopyStep(backing, s, r, parent, child, v, v + 1)
    ensures Leaf(s, parent, v) == 0 ==> SameLeaves(s, r)
  {
    if Leaf(s, parent, v) == 0 {
      forall q, u | 0 <= q < |s.space.pgd| && 0 <= u < Bound(0)
        ensures Leaf(r, q, u) == Leaf(s, q, u)
      {
        assert LeafKept(Leaf(s, parent, v), Leaf(r, parent, v), parent, v, parent, child, v, v + 1);
        assert LeafKept(Leaf(s, q, u), Leaf(r, q, u), q, u, parent, child, v, v + 1);
      }
    }
  }

  /** x at `level`: the page number without its lower table indices. */
  function Up(v: nat, level: nat): nat {
    if level == 0 then v else Up(v / WORDS, level - 1)
  }

  lemma UpStep(v: nat, level: nat)
    requires level <= 1
    ensures Up(v, level + 1) == Up(v, level) / WORDS
    ensures v < Bound(0) ==> Up(v, level) < Bound(level) && Up(v, level + 1) < Bound(level + 1)
  {
    assert Up(v, 1) == v / WORDS;
    assert Up(v / WORDS, 1) == v / WORDS / WORDS;
    assert Up(v, 2) == Up(v / WORDS, 1);
  }

  class Kernel {
    const mm: Mm.Allocator
    const pgDir: Frame
    const backing: nat -> nat
    const device: (nat, nat) -> nat
    var mem: seq<Frame>
    var pgd: seq<nat>
    var vmas: seq<seq<Vma>>
    var zombie: seq<bool>
    ghost var vm: Vm
    ghost var others: Others
    ghost var slots: set<nat>

    /** Memory, roots and reference counts are those of `vm`, which is in order; the list of areas
        of a process being forked may lag behind. */
    ghost predicate Core()
      reads this, mm, mm.memMap, mm.lists
    {
      Settled() && vm.space.mem == mem
    }

    /** Core, except that words of memory may be being written. */
    ghost predicate Settled()
      reads this, mm, mm.memMap, mm.lists
    {
      TreeSettled() && VmInv(vm)
    }

    /** The part of it that concerns tables only. */
    ghost predicate TreeSettled()
      reads this, mm, mm.memMap, mm.lists
    {
      mm.Valid() && Tree(vm.space) && Held(vm, mm.st, others) && vm.space.pgd == pgd && Fixed()
    }

    ghost predicate TreeCore()
      reads this, mm, mm.memMap, mm.lists
    {
      TreeSettled() && vm.space.mem == mem
    }

    /** The parts of Core that no step changes. */
    ghost predicate Fixed()
      reads this, mm
    {
      && |zombie| == |pgd| && |vmas| == |pgd|
      && |mem| * WORDS + 1 < Mm.WORD32
      && (forall i :: 0 <= i < 256 ==> pgDir[i] == 0)
      && mm.live == slots && others.dir == pgDir
    }

    ghost predicate Valid()
      reads this, mm, mm.memMap, mm.lists
    {
      Core() && vm.vmas == vmas
    }

    /** Valid, but for what others do with the allocator. */
    ghost predicate Standing()
      reads this, mm, mm.memMap, mm.lists
    {
      && mm.Valid() && VmInv(vm) && vm.space.mem == mem && vm.space.pgd == pgd && vm.vmas == vmas
      && |zombie| == |pgd| && |vmas| == |pgd|
      && |mem| * WORDS + 1 < Mm.WORD32
      && (forall i :: 0 <= i < 256 ==> pgDir[i] == 0)
      && Halves(vm.space, pgDir)
    }

    /** Others have used the allocator, and leave the page tables the frames they have. */
    ghost method Admit(pages: map<nat, (Buddy.Tag, Buddy.Page)>)
      requires Standing() && FramesHeld(vm, mm.st) && PagesApart(vm, mm.st, pages)
      modifies this`others, this`slots
      ensures Valid() && others == Others(pages, pgDir)
    {
      others, slots := Others(pages, pgDir), mm.live;
    }

    constructor (mm: Mm.Allocator, pgDir: Frame, backing: nat -> nat, device: (nat, nat) -> nat, memory: seq<Frame>)
      requires mm.Valid() && |memory| == |mm.st.pages| && |memory| * WORDS + 1 < Mm.WORD32
      requires forall i :: 0 <= i < 256 ==> pgDir[i] == 0
      ensures Valid() && pgd == [] && this.mm == mm && this.backing == backing && mem == memory && others.pages == map[]
    {
      this.mm, this.pgDir, this.backing, this.device := mm, pgDir, backing, device;
      mem, pgd, vmas, zombie := memory, [], [], [];
      vm := Vm(Space(memory, [], seq(|memory|, i => Unused)), seq(|memory|, i => 0), []);
      others, slots := Others(map[], pgDir), mm.live;
    }

    /** kmalloc(PAGE_SIZE) */
    method KmallocPage() returns (f: nat)
      requires mm.Valid() && Held(vm, mm.st, others) && FreeFrames(mm.st) > 0
      modifies mm, mm.memMap, mm.lists
      ensures mm.Valid() && Held(vm, mm.st, others) && f < |vm.space.mem| && vm.space.role[f] == Unused
      ensures NewPage(mm.st, f, others) && mm.live == old(mm.live)
      ensures FreeFrames(mm.st) == FreeFrames(old(mm.st)) - 1
    {
      ghost var st, cache, live := mm.st, mm.cache, mm.live;
      PageSets.FreePageServes(st);
      PageOrder();
      var ptr := mm.Kmalloc(PAGE_SIZE);
      f := ptr.value / PAGE_SIZE;
      OnePageTaken(st, mm.st, f);
      NewFrame(vm, st, mm.st, f, cache, live, others);
    }

    /** alloc_pages(0) */
    method AllocPage() returns (f: nat)
      requires mm.Valid() && Held(vm, mm.st, others) && FreeFrames(mm.st) > 0
      modifies mm, mm.memMap, mm.lists
      ensures mm.Valid() && Held(vm, mm.st, others) && f < |vm.space.mem| && vm.space.role[f] == Unused
      ensures NewPage(mm.st, f, others) && mm.live == old(mm.live)
      ensures FreeFrames(mm.st) == FreeFrames(old(mm.st)) - 1
    {
      ghost var st, cache, live := mm.st, mm.cache, mm.live;
      PageSets.FreePageServes(st);
      Buddy.AllocEffect(st, 0);
      var page := mm.AllocPages(0);
      f := page.value;
      OnePageTaken(st, mm.st, f);
      NewFrame(vm, st, mm.st, f, cache, live, others);
    }

    /** A new zeroed page table is entered at word idx of the frame t. */
    method NewTable(t: nat, idx: nat) returns (f: nat)
      requires TreeSettled() && FreeFrames(mm.st) > 0
      requires |mem| == |vm.space.mem| && t < |mem| && idx < WORDS
      modifies this`mem, mm, mm.memMap, mm.lists
      ensures TreeSettled() && f < |vm.space.mem| && vm.space.role[f] == Unused
      ensures NewPage(mm.st, f, others) && mm.live == old(mm.live)
      ensures FreeFrames(mm.st) == FreeFrames(old(mm.st)) - 1
      ensures mem == SetWord(old(mem)[f := ZeroFrame()], t, idx, MakePte(f, PAGE_PRESENT))
    {
      f := KmallocPage();
      mem := mem[f := ZeroFrame()];
      mem := SetWord(mem, t, idx, MakePte(f, PAGE_PRESENT));
    }

    /** One level of pte_alloc_map: the table below, made if it is missing. */
    method Descend(pid: nat, level: nat, x: nat, pte: nat) returns (next: nat)
      requires TreeCore() && pid < |pgd| && 1 <= level && AtTable(vm.space, pid, level, x, pte) && FreeFrames(mm.st) > 0
      modifies this`mem, this`vm, mm, mm.memMap, mm.lists
      ensures TreeCore() && next == Ppn(Walk(vm.space, pid, level, x)) && Walk(vm.space, pid, level, x) != 0
      ensures Extends(backing, old(vm), vm)
      ensures FreeFrames(mm.st) >= FreeFrames(old(mm.st)) - 1
    {
      SlotRole(vm.space, pid, level, x);
      var idx := x % WORDS;
      if mem[pte][idx] == 0 {
        EnterTable(pid, level, x, pte);
      }
      SlotRole(vm.space, pid, level, x);
      next := Ppn(mem[pte][idx]);
    }

    /** A missing table is made and entered. */
    method EnterTable(pid: nat, level: nat, x: nat, pte: nat)
      requires TreeCore() && pid < |pgd| && 1 <= level && AtTable(vm.space, pid, level, x, pte) && FreeFrames(mm.st) > 0
      requires pte < |mem| && Walk(vm.space, pid, level, x) == 0
      modifies this`mem, this`vm, mm, mm.memMap, mm.lists
      ensures TreeCore() && AtTable(vm.space, pid, level, x, pte) && Walk(vm.space, pid, level, x) != 0
      ensures Extends(backing, old(vm), vm)
      ensures FreeFrames(mm.st) == FreeFrames(old(mm.st)) - 1
    {
      var f := NewTable(pte, x % WORDS);
      vm := TableFrom(backing, vm, pid, level, x, pte, f, mm.st, others);
    }

    /** pte_alloc_map: the frame and index of the leaf entry of a user address. */
    method PteAllocMap(pid: nat, addr: nat, ghost page: nat) returns (pte: nat, idx: nat)
      requires TreeCore() && pid < |pgd| && addr / PAGE_SIZE == page < Bound(0) && FreeFrames(mm.st) >= 2
      modifies this`mem, this`vm, mm, mm.memMap, mm.lists
      ensures TreeCore() && Extends(backing, old(vm), vm)
      ensures HasSlot(vm.space, pid, 0, page)
      ensures pte == SlotFrame(vm.space, pid, 0, page) && idx == page % WORDS
      ensures FreeFrames(mm.st) >= FreeFrames(old(mm.st)) - 2
    {
      var v := addr / PAGE_SIZE;
      pte := pgd[pid];
      UpStep(v, 1);
      var level := 2;
      while level > 0
        invariant 0 <= level <= 2 && TreeCore() && FreeFrames(mm.st) >= FreeFrames(old(mm.st)) - (2 - level)
        invariant Extends(backing, old(vm), vm)
        invariant AtTable(vm.space, pid, level, Up(v, level), pte)
      {
        pte := Lower(pid, v, level, pte, old(vm));
        level := level - 1;
      }
      idx := Up(v, 0) % WORDS;
    }

    /** The loop body of pte_alloc_map. */
    method Lower(pid: nat, v: nat, level: nat, pte: nat, ghost start: Vm) returns (next: nat)
      requires TreeCore() && pid < |pgd| && v < Bound(0) && 1 <= level <= 2 && FreeFrames(mm.st) > 0
      requires Extends(backing, start, vm) && AtTable(vm.space, pid, level, Up(v, level), pte)
      modifies this`mem, this`vm, mm, mm.memMap, mm.lists
      ensures TreeCore() && Extends(backing, start, vm) && AtTable(vm.space, pid, level - 1, Up(v, level - 1), next)
      ensures FreeFrames(mm.st) >= FreeFrames(old(mm.st)) - 1
    {
      UpStep(v, level - 1);
      next := Descend(pid, level, Up(v, level), pte);
      ExtendsTrans(backing, start, old(vm), vm);
    }

    /** pagewalk: the leaf entry of va is set to map pa. */
    method Pagewalk(pid: nat, va: nat, pa: nat, prot: nat)
      requires TreeCore() && pid < |pgd| && va / PAGE_SIZE < Bound(0) && prot < 1024 && FreeFrames(mm.st) >= 2
      modifies this`mem, this`vm, mm, mm.memMap, mm.lists
      ensures TreeCore() && vm.space.pgd == old(vm).space.pgd && FreeFrames(mm.st) >= FreeFrames(old(mm.st)) - 2
      ensures LeafSet(old(vm), vm, pid, va / PAGE_SIZE, MakePte(pa / PAGE_SIZE, prot))
    {
      ghost var v := va / PAGE_SIZE;
      var pte, idx := PteAllocMap(pid, va, v);
      ghost var m := vm;
      WriteLeaf(pid, pte, idx, MakePte(pa / PAGE_SIZE, prot), v);
      LeafSetAfter(backing, old(vm), m, vm, pid, v, MakePte(pa / PAGE_SIZE, prot));
    }

    method WriteLeaf(ghost pid: nat, pte: nat, idx: nat, w: nat, ghost v: nat)
      requires TreeCore() && pid < |pgd| && v < Bound(0) && HasSlot(vm.space, pid, 0, v)
      requires pte == SlotFrame(vm.space, pid, 0, v) && idx == v % WORDS
      modifies this`mem, this`vm
      ensures TreeCore() && vm.space.pgd == old(vm).space.pgd && LeafSet(old(vm), vm, pid, v, w)
    {
      ghost var r := LeafFrom(vm, mm.st, pid, v, w, others);
      mem := SetWord(mem, pte, idx, w);
      vm := r;
    }

    /** The loop body of map_pages. */
    method MapOne(pid: nat, va: nat, pa: nat, prot: nat, ghost start: Vm, ghost first: nat, ghost k: nat,
        ghost frame: nat)
      requires TreeCore() && pid < |pgd| && prot < 1024 && FreeFrames(mm.st) >= 2 && |start.space.pgd| == |pgd|
      requires va / PAGE_SIZE == first + k < Bound(0) && pa / PAGE_SIZE == frame + k
      requires LeavesSet(start, vm, pid, first, k, frame, prot)
      modifies this`mem, this`vm, mm, mm.memMap, mm.lists
      ensures TreeCore() && vm.space.pgd == old(vm).space.pgd && FreeFrames(mm.st) >= FreeFrames(old(mm.st)) - 2
      ensures |vm.space.pgd| == |start.space.pgd|
      ensures LeavesSet(start, vm, pid, first, k + 1, frame, prot)
    {
      Pagewalk(pid, va, pa, prot);
      LeavesStep(start, old(vm), vm, pid, first, k, frame, prot);
    }

    /** map_pages leaves va + i mapped to pa + i for every page i of the range, and every other leaf of
        every address space as it was; but its counter is an `int`, which wraps after 2^31 bytes and is
        then, as an unsigned number, beyond any size. */
    method MapPages(pid: nat, va: nat, size: nat, pa: nat, prot: nat)
      requires TreeCore() && pid < |pgd| && va % PAGE_SIZE == 0 && pa % PAGE_SIZE == 0 && prot < 1024
      requires va + size <= USER_END && FreeFrames(mm.st) >= 2 * MappedPages(size)
      modifies this`mem, this`vm, mm, mm.memMap, mm.lists
      ensures TreeCore() && vm.space.pgd == old(vm).space.pgd
      ensures LeavesSet(old(vm), vm, pid, va / PAGE_SIZE, MappedPages(size), pa / PAGE_SIZE, prot)
    {
      var i := 0;
      ghost var k := 0;
      while Unsigned64(i) < size
        invariant i == Wrapped32(k * PAGE_SIZE) && 0 <= k <= MappedPages(size)
        invariant TreeCore() && vm.space.pgd == old(vm).space.pgd
        invariant FreeFrames(mm.st) >= FreeFrames(old(mm.st)) - 2 * k
        invariant LeavesSet(old(vm), vm, pid, va / PAGE_SIZE, k, pa / PAGE_SIZE, prot)
      {
        MapCounter(size, k);
        assert (va + i) / PAGE_SIZE == va / PAGE_SIZE + k && (pa + i) / PAGE_SIZE == pa / PAGE_SIZE + k;
        MapOne(pid, va + i, pa + i, prot, old(vm), va / PAGE_SIZE, k, pa / PAGE_SIZE);
        i, k := Wrapped32(i + PAGE_SIZE), k + 1;
      }
      MapCounter(size, k);
    }

    /** The demand-paging branch of do_page_fault: a fresh frame filled from the file or with
        zeroes is mapped with the rights of the area. */
    method DemandPage(pid: nat, addr: nat, ghost v: nat, vma: Vma, pte: nat, idx: nat)
      requires Core() && pid < |pgd| && addr == v * PAGE_SIZE && v < Bound(0) && FreeFrames(mm.st) > 0
      requires PageVma(vm.vmas[pid], v) == Some(vma) && HasSlot(vm.space, pid, 0, v) && Leaf(vm, pid, v) == 0
      requires pte == SlotFrame(vm.space, pid, 0, v) && idx == v % WORDS
      modifies this`mem, this`vm, mm, mm.memMap, mm.lists
      ensures Core() && SameViews(backing, old(vm), vm) && FreeFrames(mm.st) == FreeFrames(old(mm.st)) - 1
      ensures vm.space.pgd == old(vm).space.pgd
      ensures Leaf(vm, pid, v) != 0 && Prot(Leaf(vm, pid, v)) == VmProt(vma.flags)
    {
      var f := KmallocPage();
      var page := FirstContents(vma, addr, v);
      MapFrame(pid, v, f, page, vma, pte, idx);
    }

    /** Fill the new frame and write its leaf entry. */
    method MapFrame(pid: nat, ghost v: nat, f: nat, page: Frame, vma: Vma, pte: nat, idx: nat)
      requires Core() && pid < |pgd| && v < Bound(0) && HasSlot(vm.space, pid, 0, v) && Leaf(vm, pid, v) == 0
      requires f < |vm.space.mem| && vm.space.role[f] == Unused && PageVma(vm.vmas[pid], v) == Some(vma)
      requires NewPage(mm.st, f, others)
      requires page == InitialPage(backing, vma, v) && pte == SlotFrame(vm.space, pid, 0, v) && idx == v % WORDS
      modifies this`mem, this`vm
      ensures Core() && SameViews(backing, old(vm), vm) && vm.space.pgd == old(vm).space.pgd
      ensures Leaf(vm, pid, v) != 0 && Prot(Leaf(vm, pid, v)) == VmProt(vma.flags)
    {
      MapFreshHeld(backing, vm, pid, v, f, vma, mm.st, others);
      FillFrameAndMap(f, page, pte, idx, MakePte(f, VmProt(vma.flags)), MapFresh(vm, pid, v, f, page, vma.flags));
    }

    /** The copy-on-write branch of do_page_fault. */
    method CopyOnWrite(pid: nat, ghost v: nat, vma: Vma, pte: nat, idx: nat)
      requires Core() && pid < |pgd| && v < Bound(0) && FreeFrames(mm.st) > 0
      requires HasSlot(vm.space, pid, 0, v) && pte == SlotFrame(vm.space, pid, 0, v) && idx == v % WORDS
      requires Leaf(vm, pid, v) != 0 && !Has(Leaf(vm, pid, v), PAGE_WRITE)
      requires PageVma(vm.vmas[pid], v) == Some(vma) && Has(vma.flags, VM_WRITE)
      modifies this`mem, this`vm, mm, mm.memMap, mm.lists
      ensures Core() && SameViews(backing, old(vm), vm) && vm.space.pgd == old(vm).space.pgd
      ensures FreeFrames(mm.st) >= FreeFrames(old(mm.st)) - 1
      ensures Leaf(vm, pid, v) != 0 && Prot(Leaf(vm, pid, v)) == VmProt(vma.flags)
    {
      SlotRole(vm.space, pid, 0, v);
      LeafFrame(vm, mm.st, pid, v, others);
      var oldPage := Ppn(mem[pte][idx]);
      if mm.memMap[oldPage].refcount > 1 {
        CopyPage(pid, v, oldPage, vma, pte, idx);
      } else {
        MakeWritable(pid, v, pte, idx);
      }
    }

    /** The frame is not shared: *pte |= PAGE_WRITE. */
    method MakeWritable(pid: nat, ghost v: nat, pte: nat, idx: nat)
      requires Core() && pid < |pgd| && v < Bound(0) && Leaf(vm, pid, v) != 0
      requires HasSlot(vm.space, pid, 0, v) && pte == SlotFrame(vm.space, pid, 0, v) && idx == v % WORDS
      requires LeafOk(vm, pid, v, Leaf(vm, pid, v)) && !Has(Leaf(vm, pid, v), PAGE_WRITE)
      requires vm.refs[Ppn(Leaf(vm, pid, v))] <= 1 && Has(PageVma(vm.vmas[pid], v).value.flags, VM_WRITE)
      modifies this`mem, this`vm
      ensures Core() && SameViews(backing, old(vm), vm) && vm.space.pgd == old(vm).space.pgd
      ensures Leaf(vm, pid, v) != 0 && Prot(Leaf(vm, pid, v)) == VmProt(PageVma(vm.vmas[pid], v).value.flags)
    {
      SlotRole(vm.space, pid, 0, v);
      UpgradeHeld(backing, vm, pid, v, mm.st, others);
      WriteEntry(pte, idx, SetWrite(mem[pte][idx]), Upgrade(vm, pid, v));
    }

    /** One entry is written; `r` is the state it leads to. */
    method WriteEntry(pte: nat, idx: nat, w: nat, ghost r: Vm)
      requires mm.Valid() && Fixed() && VmInv(r) && Held(r, mm.st, others) && r.space.pgd == pgd
      requires pte < |mem| && idx < WORDS && r.space.mem == SetWord(mem, pte, idx, w)
      modifies this`mem, this`vm
      ensures Core() && vm == r && mem == SetWord(old(mem), pte, idx, w)
    {
      mem := SetWord(mem, pte, idx, w);
      vm := r;
    }

    method FillFrameAndMap(f: nat, page: Frame, pte: nat, idx: nat, w: nat, ghost r: Vm)
      requires Fixed() && r.space.pgd == pgd
      requires f < |mem| && pte < |mem| && idx < WORDS && r.space.mem == SetWord(mem[f := page], pte, idx, w)
      modifies this`mem, this`vm
      ensures Fixed() && vm == r && vm.space.mem == mem && vm.space.pgd == pgd
    {
      mem := mem[f := page];
      mem := SetWord(mem, pte, idx, w);
      vm := r;
    }

    /** put_page on a page that others still count. */
    method PutShared(page: nat)
      requires mm.Valid() && page < |mm.st.pages| && mm.st.pages[page].refcount > 1
      modifies mm, mm.memMap, mm.lists
      ensures mm.Valid() && FreeFrames(mm.st) == FreeFrames(old(mm.st)) && mm.live == old(mm.live)
      ensures mm.st == Buddy.SetPage(old(mm.st), page,
                old(mm.st).pages[page].(refcount := old(mm.st).pages[page].refcount - 1))
    {
      mm.PutPage(page);
      assert PageSets.PagesOf(mm.st, Buddy.Free) == PageSets.PagesOf(old(mm.st), Buddy.Free);
    }

    /** The frame is shared: the process gets a copy of its own. */
    method CopyPage(pid: nat, ghost v: nat, oldPage: nat, vma: Vma, pte: nat, idx: nat)
      requires Core() && pid < |pgd| && v < Bound(0) && FreeFrames(mm.st) > 0
      requires Leaf(vm, pid, v) != 0 && oldPage == Ppn(Leaf(vm, pid, v)) && PageVma(vm.vmas[pid], v) == Some(vma)
      requires oldPage < |mem| && vm.refs[oldPage] > 1 && vm.space.role[oldPage].Data?
      requires pte == SlotFrame(vm.space, pid, 0, v) && idx == v % WORDS
      modifies this`mem, this`vm, mm, mm.memMap, mm.lists
      ensures Core() && SameViews(backing, old(vm), vm) && vm.space.pgd == old(vm).space.pgd
      ensures FreeFrames(mm.st) == FreeFrames(old(mm.st)) - 1
      ensures Leaf(vm, pid, v) != 0 && Prot(Leaf(vm, pid, v)) == VmProt(vma.flags)
    {
      var newPage := AllocPage();
      var w := MakePte(newPage, VmProt(vma.flags));
      ghost var r := BreakShareFrom(backing, vm, pid, v, newPage, oldPage, vma, mm.st, others);
      BreakFrame(newPage, oldPage, pte, idx, w, r);
    }

    /** memcpy to the new page, the new entry, and put_page on the old page. */
    method BreakFrame(newPage: nat, oldPage: nat, pte: nat, idx: nat, w: nat, ghost r: Vm)
      requires mm.Valid() && Fixed() && VmInv(r) && r.space.pgd == pgd
      requires newPage < |mem| && oldPage < |mem| && pte < |mem| && idx < WORDS && |mem| == |mm.st.pages|
      requires r.space.mem == SetWord(mem[newPage := mem[oldPage]], pte, idx, w)
      requires mm.st.pages[oldPage].refcount > 1
      requires Held(r, Buddy.SetPage(mm.st, oldPage,
                 mm.st.pages[oldPage].(refcount := mm.st.pages[oldPage].refcount - 1)), others)
      modifies this`mem, this`vm, mm, mm.memMap, mm.lists
      ensures Core() && vm == r && FreeFrames(mm.st) == FreeFrames(old(mm.st))
    {
      FillFrameAndMap(newPage, mem[oldPage], pte, idx, w, r);
      PutShared(oldPage);
    }

    /** find_vma, walking the list of areas. */
    method FindArea(pid: nat, addr: nat) returns (r: Option<Vma>)
      requires pid < |vmas|
      ensures r == FindVma(vmas[pid], addr)
    {
      var pos := 0;
      while pos < |vmas[pid]|
        invariant 0 <= pos <= |vmas[pid]|
        invariant FindVma(vmas[pid], addr) == FindVma(vmas[pid][pos..], addr)
      {
        var vma := vmas[pid][pos];
        if vma.start <= addr < vma.end {
          return Some(vma);
        }
        pos := pos + 1;
      }
      return None;
    }

    /** do_page_fault; `stuck` is true where the code spins for ever. */
    method DoPageFault(pid: nat, cause: Cause, badaddr: nat) returns (stuck: bool)
      requires Valid() && pid < |pgd| && FreeFrames(mm.st) >= 3
      modifies this`mem, this`vm, this`zombie, mm, mm.memMap, mm.lists
      ensures Valid() && SameViews(backing, old(vm), vm) && vm.space.pgd == old(vm).space.pgd
      ensures FreeFrames(mm.st) >= FreeFrames(old(mm.st)) - 3
      ensures !Allowed(vmas[pid], badaddr, cause) ==>
                !stuck && zombie == old(zombie)[pid := true] && vm == old(vm) && mm.st == old(mm.st)
      ensures Allowed(vmas[pid], badaddr, cause) ==> zombie == old(zombie)
      ensures Allowed(vmas[pid], badaddr, cause) ==>
                FaultEffect(old(vm), vm, pid, badaddr / PAGE_SIZE, cause, FindVma(vmas[pid], badaddr).value.flags,
                    stuck)
    {
      var vma := FindArea(pid, badaddr);
      if vma.None? || !Permits(cause, vma.value.flags) {
        zombie := zombie[pid := true];
        return false;
      }
      stuck := Serve(pid, cause, badaddr, vma.value);
    }

    /** do_page_fault for a permitted access. */
    method Serve(pid: nat, cause: Cause, badaddr: nat, vma: Vma) returns (stuck: bool)
      requires Core() && pid < |pgd| && FreeFrames(mm.st) >= 3
      requires FindVma(vm.vmas[pid], badaddr) == Some(vma) && Permits(cause, vma.flags)
      modifies this`mem, this`vm, mm, mm.memMap, mm.lists
      ensures Core() && SameViews(backing, old(vm), vm) && vm.space.pgd == old(vm).space.pgd
      ensures FreeFrames(mm.st) >= FreeFrames(old(mm.st)) - 3
      ensures FaultEffect(old(vm), vm, pid, badaddr / PAGE_SIZE, cause, vma.flags, stuck)
    {
      ghost var v := badaddr / PAGE_SIZE;
      PageInUserHalf(vm, pid, badaddr);
      var addr := badaddr / PAGE_SIZE * PAGE_SIZE;
      var pte, idx := PteAllocMap(pid, addr, v);
      ghost var m := vm;
      stuck := Fill(pid, cause, addr, v, vma, pte, idx);
      SameViewsTrans(backing, old(vm), m, vm);
      FaultEffectSame(old(vm), m, vm, pid, v, cause, vma.flags, stuck);
    }

    /** The three branches of do_page_fault. */
    method Fill(pid: nat, cause: Cause, addr: nat, ghost v: nat, vma: Vma, pte: nat, idx: nat) returns (stuck: bool)
      requires Core() && pid < |pgd| && addr == v * PAGE_SIZE && v < Bound(0) && FreeFrames(mm.st) > 0
      requires PageVma(vm.vmas[pid], v) == Some(vma) && Permits(cause, vma.flags) && HasSlot(vm.space, pid, 0, v)
      requires pte == SlotFrame(vm.space, pid, 0, v) && idx == v % WORDS
      modifies this`mem, this`vm, mm, mm.memMap, mm.lists
      ensures Core() && SameViews(backing, old(vm), vm) && vm.space.pgd == old(vm).space.pgd
      ensures FreeFrames(mm.st) >= FreeFrames(old(mm.st)) - 1
      ensures FaultEffect(old(vm), vm, pid, v, cause, vma.flags, stuck)
    {
      SlotRole(vm.space, pid, 0, v);
      var w := mem[pte][idx];
      if w == 0 {
        DemandPage(pid, addr, v, vma, pte, idx);
        stuck := false;
      } else if cause == Store && !Has(w, PAGE_WRITE) {
        CopyOnWrite(pid, v, vma, pte, idx);
        stuck := false;
      } else {
        stuck := true;
      }
    }

    // --- fork

    /** A word of physical memory; outside the frames it is whatever the bus answers. */
    function ReadWord(f: nat, i: nat): nat
      requires i < WORDS
      reads this
    {
      if f < |mem| then mem[f][i] else device(f, i)
    }

    /** The new address space of kthread_create: a root copied from the kernel's. `areas` are the
        areas the process is going to have. */
    method NewSpace(ghost areas: seq<Vma>) returns (pid: nat)
      requires Core() && FreeFrames(mm.st) > 0 && forall a :: a in areas ==> VmaOk(a)
      modifies this`mem, this`vm, this`pgd, this`vmas, this`zombie, mm, mm.memMap, mm.lists
      ensures Core() && pid == |old(pgd)| && FreeFrames(mm.st) == FreeFrames(old(mm.st)) - 1 && KernelMapped()
      ensures vm.vmas == old(vm).vmas + [areas] && vmas == old(vmas) + [[]] && zombie == old(zombie) + [false]
      ensures |vm.space.pgd| == |old(vm).space.pgd| + 1
      ensures forall l, x :: 0 <= l <= 2 && 0 <= x < Bound(l) ==> Walk(vm.space, pid, l, x) == 0
      ensures forall q, v :: 0 <= q < pid && 0 <= v < Bound(0) ==>
                PageView(backing, vm, q, v) == PageView(backing, old(vm), q, v)
    {
      pid := |pgd|;
      var f := KmallocPage();
      EnterSpace(f, areas);
      CoreMapsKernel();
    }

    /** The root is filled, and the process exists. */
    method EnterSpace(f: nat, ghost areas: seq<Vma>)
      requires Core() && (forall a :: a in areas ==> VmaOk(a))
      requires f < |vm.space.mem| && vm.space.role[f] == Unused && NewPage(mm.st, f, others)
      modifies this`mem, this`vm, this`pgd, this`vmas, this`zombie
      ensures Core() && vm.vmas == old(vm).vmas + [areas] && |vm.space.pgd| == |old(vm).space.pgd| + 1
      ensures vmas == old(vmas) + [[]] && zombie == old(zombie) + [false]
      ensures forall l, x :: 0 <= l <= 2 && 0 <= x < Bound(l) ==> Walk(vm.space, |old(pgd)|, l, x) == 0
      ensures forall q, v :: 0 <= q < |old(pgd)| && 0 <= v < Bound(0) ==>
                PageView(backing, vm, q, v) == PageView(backing, old(vm), q, v)
    {
      ghost var r := SpaceFrom(backing, vm, f, pgDir, areas, mm.st, others);
      mem := mem[f := pgDir];
      pgd, vmas, zombie := pgd + [f], vmas + [[]], zombie + [false];
      vm := r;
    }

    /** copy_page_range below a present entry of the parent: the child gets a table. */
    method CopyTableEntry(parent: nat, child: nat, level: nat, x: nat, dst: nat, ghost v: nat)
      requires Core() && Forking(vm, parent, child) && 1 <= level <= 2 && x < Bound(level) && FreeFrames(mm.st) > 0
      requires HasSlot(vm.space, child, level, x) && dst == SlotFrame(vm.space, child, level, x) && dst < |mem|
      requires Walk(vm.space, child, level, x) == 0 && Walk(vm.space, parent, level, x) != 0
      modifies this`mem, this`vm, mm, mm.memMap, mm.lists
      ensures Core() && Forking(vm, parent, child) && CopyStep(backing, old(vm), vm, parent, child, v, v + 1)
      ensures FreeFrames(mm.st) == FreeFrames(old(mm.st)) - 1
      ensures Walk(vm.space, child, level, x) != 0
      ensures Walk(vm.space, parent, level, x) == Walk(old(vm).space, parent, level, x)
      ensures forall src :: Cursor(old(vm), parent, child, level, x, src, dst) ==>
                Cursor(vm, parent, child, level, x, src, dst)
    {
      var f := NewTable(dst, x % WORDS);
      vm := CopyTableFrom(backing, vm, parent, child, level, x, f, v, mm.st, others);
    }

    /** copy_page_range at level 0: a frame is taken, and leaked when its entry is overwritten by
        the parent's entry without the write bit. */
    method CopyLeafEntry(parent: nat, child: nat, x: nat, src: nat, dst: nat, ghost v: nat)
      requires x == v && Core() && Forking(vm, parent, child) && v < Bound(0) && FreeFrames(mm.st) > 0
      requires HasSlot(vm.space, parent, 0, v) && src == SlotFrame(vm.space, parent, 0, v)
      requires HasSlot(vm.space, child, 0, v) && dst == SlotFrame(vm.space, child, 0, v)
      requires Leaf(vm, parent, v) != 0 && Leaf(vm, child, v) == 0
      modifies this`mem, this`vm, mm, mm.memMap, mm.lists
      ensures Core() && Forking(vm, parent, child) && CopyStep(backing, old(vm), vm, parent, child, v, v + 1)
      ensures FreeFrames(mm.st) == FreeFrames(old(mm.st)) - 1 && PageCopied(vm, parent, child, v)
    {
      ghost var m := vm;
      ghost var before, w := LeafSlots(m, parent, child, v, src, dst, v % WORDS);
      ghost var f := TakeFrame(dst, x % WORDS);
      assert vm == m;
      ShareNew(parent, child, v, src, dst, x % WORDS, f, before, w);
    }

    /** The page taken at level 0. */
    method TakeFrame(dst: nat, idx: nat) returns (ghost f: nat)
      requires Core() && dst < |mem| && idx < WORDS && FreeFrames(mm.st) > 0
      modifies this`mem, mm, mm.memMap, mm.lists
      ensures Settled() && f < |mem| == |old(mem)| && vm.space.role[f] == Unused
      ensures FreeFrames(mm.st) == FreeFrames(old(mm.st)) - 1
      ensures mem == SetWord(old(mem)[f := ZeroFrame()], dst, idx, MakePte(f, PAGE_PRESENT))
    {
      f := NewTable(dst, idx);
    }

    /** Level 0 of copy_page_range after its allocation. */
    method ShareNew(ghost parent: nat, ghost child: nat, ghost v: nat, src: nat, dst: nat, idx: nat,
                    ghost f: nat, ghost before: seq<Frame>, ghost w: nat)
      requires Settled() && vm.space.mem == before
      requires |mem| == |before| && Forking(vm, parent, child)
      requires SlotPair(vm, parent, child, v, src, dst, idx, before, w)
      requires f < |before| && vm.space.role[f] == Unused
      requires mem == SetWord(before[f := ZeroFrame()], dst, idx, MakePte(f, PAGE_PRESENT))
      modifies this`mem, this`vm, mm, mm.memMap
      ensures Core() && Forking(vm, parent, child) && CopyStep(backing, old(vm), vm, parent, child, v, v + 1)
      ensures FreeFrames(mm.st) == FreeFrames(old(mm.st)) && PageCopied(vm, parent, child, v)
    {
      ghost var r := ShareFrom(backing, vm, parent, child, v, f, mm.st, before, src, dst, idx, w, others);
      ShareEntry(src, dst, idx, f, before, w, r);
    }

    method ShareEntry(src: nat, dst: nat, idx: nat, ghost f: nat, ghost before: seq<Frame>, ghost w: nat, ghost r: Vm)
      requires src < |before| && dst < |before| && f < |before| && src != dst && f != src && f != dst && idx < WORDS
      requires before[src][idx] == w && mem == SetWord(before[f := ZeroFrame()], dst, idx, MakePte(f, PAGE_PRESENT))
      requires mm.Valid() && Fixed() && VmInv(r) && r.space.pgd == pgd
      requires r.space.mem == SetWord(SetWord(before[f := ZeroFrame()], src, idx, ClearWrite(w)), dst, idx,
                 ClearWrite(w))
      requires SharesFrame(r, mm.st, Ppn(ClearWrite(w)), others)
      modifies this`mem, this`vm, mm, mm.memMap
      ensures Core() && vm == r && FreeFrames(mm.st) == FreeFrames(old(mm.st))
    {
      SharePte(src, dst, idx, f, before, w);
      GetMapped(Ppn(mem[src][idx]), r);
    }

    /** get_page on the frame the child now maps too; `r` is the state this completes. */
    method GetMapped(page: nat, ghost r: Vm)
      requires mm.Valid() && Fixed() && VmInv(r) && r.space.mem == mem && r.space.pgd == pgd
      requires SharesFrame(r, mm.st, page, others)
      modifies this`vm, mm, mm.memMap
      ensures Core() && vm == r && FreeFrames(mm.st) == FreeFrames(old(mm.st))
    {
      GetShared(page);
      vm := r;
    }

    /** src_pt[idx] &= ~PAGE_WRITE; dst_pt[idx] = src_pt[idx] */
    method SharePte(src: nat, dst: nat, idx: nat, ghost f: nat, ghost before: seq<Frame>, ghost w: nat)
      requires src < |before| && dst < |before| && f < |before| && src != dst && f != src && f != dst && idx < WORDS
      requires before[src][idx] == w && mem == SetWord(before[f := ZeroFrame()], dst, idx, MakePte(f, PAGE_PRESENT))
      modifies this`mem
      ensures mem == SetWord(SetWord(before[f := ZeroFrame()], src, idx, ClearWrite(w)), dst, idx, ClearWrite(w))
      ensures src < |mem| && mem[src][idx] == ClearWrite(w)
    {
      mem := SetWord(mem, src, idx, ClearWrite(mem[src][idx]));
      mem := SetWord(mem, dst, idx, mem[src][idx]);
      ShareWrites(before, f, src, dst, idx, w);
    }

    /** One level of copy_page_range.  The cursor runs on through frame 0, or wherever stray words
        lead, once the parent has no entry; both walks then go the same way and write nothing. */
    method CopyLevel(parent: nat, child: nat, level: nat, x: nat, src: nat, dst: nat, ghost v: nat)
      returns (src': nat, dst': nat)
      requires Core() && Forking(vm, parent, child) && level <= 2 && x < Bound(level) && FreeFrames(mm.st) > 0
      requires Cursor(vm, parent, child, level, x, src, dst) && (level == 0 ==> x == v)
      modifies this`mem, this`vm, mm, mm.memMap, mm.lists
      ensures Core() && Forking(vm, parent, child) && CopyStep(backing, old(vm), vm, parent, child, v, v + 1)
      ensures FreeFrames(mm.st) >= FreeFrames(old(mm.st)) - 1
      ensures level == 0 ==> PageCopied(vm, parent, child, x)
      ensures level > 0 ==> forall y: nat :: y / WORDS == x ==> Cursor(vm, parent, child, level - 1, y, src', dst')
      ensures Walk(old(vm).space, parent, level, x) == 0 ==> mem == old(mem) && vm == old(vm) && mm.st == old(mm.st)
    {
      CopyEntry(parent, child, level, x, src, dst, v);
      src', dst' := Ppn(ReadWord(src, x % WORDS)), Ppn(ReadWord(dst, x % WORDS));
      if level > 0 {
        CursorMoves(parent, child, level, x, src, dst, src', dst');
      }
    }

    /** The entry of one level is copied if the parent has it and the child does not. */
    method CopyEntry(parent: nat, child: nat, level: nat, x: nat, src: nat, dst: nat, ghost v: nat)
      requires Core() && Forking(vm, parent, child) && level <= 2 && x < Bound(level) && FreeFrames(mm.st) > 0
      requires Cursor(vm, parent, child, level, x, src, dst) && (level == 0 ==> x == v)
      modifies this`mem, this`vm, mm, mm.memMap, mm.lists
      ensures Core() && Forking(vm, parent, child) && CopyStep(backing, old(vm), vm, parent, child, v, v + 1)
      ensures FreeFrames(mm.st) >= FreeFrames(old(mm.st)) - 1
      ensures level > 0 ==> Cursor(vm, parent, child, level, x, src, dst)
      ensures Walk(vm.space, parent, level, x) != 0 ==> Walk(vm.space, child, level, x) != 0
      ensures Walk(old(vm).space, parent, level, x) == 0 ==> mem == old(mem) && vm == old(vm) && mm.st == old(mm.st)
    {
      var copied := EntryNeedsCopy(parent, child, level, x, src, dst);
      if copied {
        CopyPresent(parent, child, level, x, src, dst, v);
      }
    }

    method CopyPresent(parent: nat, child: nat, level: nat, x: nat, src: nat, dst: nat, ghost v: nat)
      requires Core() && Forking(vm, parent, child) && level <= 2 && x < Bound(level) && FreeFrames(mm.st) > 0
      requires Cursor(vm, parent, child, level, x, src, dst) && (level == 0 ==> x == v)
      requires HasSlot(vm.space, parent, level, x) && HasSlot(vm.space, child, level, x) && dst < |mem|
      requires Walk(vm.space, parent, level, x) != 0 && Walk(vm.space, child, level, x) == 0
      modifies this`mem, this`vm, mm, mm.memMap, mm.lists
      ensures Core() && Forking(vm, parent, child) && CopyStep(backing, old(vm), vm, parent, child, v, v + 1)
      ensures FreeFrames(mm.st) == FreeFrames(old(mm.st)) - 1
      ensures level > 0 ==> Cursor(vm, parent, child, level, x, src, dst)
      ensures Walk(vm.space, parent, level, x) != 0 ==> Walk(vm.space, child, level, x) != 0
    {
      if level > 0 {
        CopyTableEntry(parent, child, level, x, dst, v);
      } else {
        CopyLeafEntry(parent, child, x, src, dst, v);
      }
    }

    /** src_pt[idx] != 0 && dst_pt[idx] == 0 */
    method EntryNeedsCopy(ghost parent: nat, ghost child: nat, ghost level: nat, x: nat, src: nat, dst: nat)
        returns (needed: bool)
      requires Core() && Forking(vm, parent, child) && level <= 2 && x < Bound(level)
      requires Cursor(vm, parent, child, level, x, src, dst)
      ensures needed ==> HasSlot(vm.space, parent, level, x) && HasSlot(vm.space, child, level, x)
      ensures needed ==>
                && src == SlotFrame(vm.space, parent, level, x)
                && dst == SlotFrame(vm.space, child, level, x) && dst < |mem|
      ensures needed <==> Walk(vm.space, parent, level, x) != 0 && Walk(vm.space, child, level, x) == 0
    {
      needed := ReadWord(src, x % WORDS) != 0 && ReadWord(dst, x % WORDS) == 0;
      if HasSlot(vm.space, parent, level, x) {
        SlotRole(vm.space, parent, level, x);
        SlotRole(vm.space, child, level, x);
      }
    }

    /** Where the two walks stand after a level is settled. */
    lemma CursorMoves(parent: nat, child: nat, level: nat, x: nat, src: nat, dst: nat, src': nat, dst': nat)
      requires Core() && Forking(vm, parent, child) && 1 <= level <= 2 && x < Bound(level)
      requires Cursor(vm, parent, child, level, x, src, dst)
      requires Walk(vm.space, parent, level, x) != 0 ==> Walk(vm.space, child, level, x) != 0
      requires src' == Ppn(ReadWord(src, x % WORDS)) && dst' == Ppn(ReadWord(dst, x % WORDS))
      ensures forall y: nat :: y / WORDS == x ==> Cursor(vm, parent, child, level - 1, y, src', dst')
    {
      if HasSlot(vm.space, parent, level, x) {
        SlotRole(vm.space, parent, level, x);
        SlotRole(vm.space, child, level, x);
      }
    }

    /** The inner loop of copy_page_range: one page. */
    method CopyPageEntry(parent: nat, child: nat, v: nat)
      requires Core() && Forking(vm, parent, child) && v < Bound(0) && FreeFrames(mm.st) >= 3
      modifies this`mem, this`vm, mm, mm.memMap, mm.lists
      ensures Core() && Forking(vm, parent, child) && CopyStep(backing, old(vm), vm, parent, child, v, v + 1)
      ensures FreeFrames(mm.st) >= FreeFrames(old(mm.st)) - 3 && PageCopied(vm, parent, child, v)
      ensures Walk(old(vm).space, parent, 2, Up(v, 2)) == 0 ==> mem == old(mem) && vm == old(vm) && mm.st == old(mm.st)
      ensures Leaf(old(vm), parent, v) == 0 ==> SameLeaves(old(vm), vm)
    {
      CopyStarts(parent, child, v);
      CopyLevels(parent, child, v, vm, mem, mm.st);
      AbsentLeaf(backing, old(vm), vm, parent, child, v);
    }

    /** From the roots down to the leaves. */
    method CopyLevels(parent: nat, child: nat, v: nat, ghost start: Vm, ghost mem0: seq<Frame>, ghost st0: Buddy.State)
      requires CopyStands(start, mem0, st0, parent, child, v) && FreeFrames(mm.st) >= 3
      requires CopyStandsAt(parent, child, 2, v, pgd[parent], pgd[child])
      modifies this`mem, this`vm, mm, mm.memMap, mm.lists
      ensures CopyStands(start, mem0, st0, parent, child, v)
      ensures FreeFrames(mm.st) >= FreeFrames(old(mm.st)) - 3 && PageCopied(vm, parent, child, v)
    {
      var src, dst := pgd[parent], pgd[child];
      var level := 2;
      while level >= 0
        invariant -1 <= level <= 2 && CopyStands(start, mem0, st0, parent, child, v)
        invariant CopyStandsAt(parent, child, level, v, src, dst)
        invariant FreeFrames(mm.st) >= FreeFrames(old(mm.st)) - (2 - level)
        decreases level
      {
        src, dst := CopyOneLevel(parent, child, level, v, src, dst, start, mem0, st0);
        level := level - 1;
      }
    }

    /** While a page is being copied. */
    ghost predicate CopyStands(start: Vm, mem0: seq<Frame>, st0: Buddy.State, parent: nat, child: nat, v: nat)
      reads this, mm, mm.memMap, mm.lists
    {
      Core() && Copying(backing, start, vm, mem0, mem, st0, mm.st, parent, child, v)
    }

    lemma CopyStarts(parent: nat, child: nat, v: nat)
      requires Core() && Forking(vm, parent, child) && v < Bound(0)
      ensures CopyStands(vm, mem, mm.st, parent, child, v)
      ensures CopyStandsAt(parent, child, 2, v, pgd[parent], pgd[child])
    {
      UpStep(v, 1);
    }

    /** Both walks stand at this level, or have left the last one behind. */
    ghost predicate CopyStandsAt(parent: nat, child: nat, level: int, v: nat, src: nat, dst: nat)
      reads this
    {
      && level <= 2 && Forking(vm, parent, child)
      && if level < 0 then PageCopied(vm, parent, child, v)
         else Up(v, level) < Bound(level) && Cursor(vm, parent, child, level, Up(v, level), src, dst)
    }

    /** The body of that loop. */
    method CopyOneLevel(parent: nat, child: nat, level: nat, v: nat, src: nat, dst: nat,
                        ghost start: Vm, ghost mem0: seq<Frame>, ghost st0: Buddy.State) returns (src': nat, dst': nat)
      requires CopyStands(start, mem0, st0, parent, child, v) && FreeFrames(mm.st) > 0
      requires CopyStandsAt(parent, child, level, v, src, dst)
      modifies this`mem, this`vm, mm, mm.memMap, mm.lists
      ensures CopyStands(start, mem0, st0, parent, child, v)
      ensures FreeFrames(mm.st) >= FreeFrames(old(mm.st)) - 1
      ensures CopyStandsAt(parent, child, level - 1, v, src', dst')
    {
      if level > 0 {
        UpStep(v, level - 1);
      }
      src', dst' := CopyLevel(parent, child, level, Up(v, level), src, dst, v);
      CopyingStep(backing, start, old(vm), vm, mem0, old(mem), mem, st0, old(mm.st), mm.st, parent, child, v, level);
    }

    /** copy_page_range over the pages of one area. */
    method CopyPageRange(parent: nat, child: nat, vma: Vma)
      requires Core() && Forking(vm, parent, child) && VmaOk(vma) && FreeFrames(mm.st) >= 3 * AreaPages(vma)
      modifies this`mem, this`vm, mm, mm.memMap, mm.lists
      ensures Core() && Forking(vm, parent, child)
      ensures CopyStep(backing, old(vm), vm, parent, child, vma.start / PAGE_SIZE, vma.end / PAGE_SIZE)
      ensures FreeFrames(mm.st) >= FreeFrames(old(mm.st)) - 3 * AreaPages(vma)
      ensures AreasCopied(vm, parent, child, [vma])
    {
      ghost var first, last := vma.start / PAGE_SIZE, vma.end / PAGE_SIZE;
      CopyPages(parent, child, vma, vm, first, last);
      AreaIsRun(vm, parent, child, vma);
    }

    /** The outer loop of copy_page_range. */
    method CopyPages(parent: nat, child: nat, vma: Vma, ghost start: Vm, ghost first: nat, ghost last: nat)
      requires Core() && VmaOk(vma) && FreeFrames(mm.st) >= 3 * AreaPages(vma)
      requires first == vma.start / PAGE_SIZE && last == vma.end / PAGE_SIZE
      requires RangeStands(start, parent, child, first, last, first)
      modifies this`mem, this`vm, mm, mm.memMap, mm.lists
      ensures Core() && RangeStands(start, parent, child, first, last, last)
      ensures FreeFrames(mm.st) >= FreeFrames(old(mm.st)) - 3 * AreaPages(vma)
    {
      var addr := vma.start;
      ghost var page := first;
      while addr < vma.end
        invariant addr == page * PAGE_SIZE && first <= page && (page <= last || page == first)
        invariant Core() && RangeStands(start, parent, child, first, last, page)
        invariant FreeFrames(mm.st) >= FreeFrames(old(mm.st)) - 3 * (page - first)
      {
        assert addr / PAGE_SIZE == page < last <= Bound(0);
        CopyNextPage(parent, child, addr / PAGE_SIZE, first, last, start);
        addr, page := addr + PAGE_SIZE, page + 1;
      }
    }

    /** The pages first, .., page - 1 are copied, by a copying step of the pages first, .., last - 1. */
    ghost predicate RangeStands(start: Vm, parent: nat, child: nat, first: nat, last: nat, page: nat)
      reads this
    {
      && Forking(vm, parent, child) && Forking(start, parent, child)
      && CopyStep(backing, start, vm, parent, child, first, last) && RunCopied(vm, parent, child, first, page)
    }

    /** The body of the outer loop of copy_page_range. */
    method CopyNextPage(parent: nat, child: nat, page: nat, ghost first: nat, ghost last: nat, ghost start: Vm)
      requires Core() && first <= page < last <= Bound(0) && FreeFrames(mm.st) >= 3
      requires RangeStands(start, parent, child, first, last, page)
      modifies this`mem, this`vm, mm, mm.memMap, mm.lists
      ensures Core() && RangeStands(start, parent, child, first, last, page + 1)
      ensures FreeFrames(mm.st) >= FreeFrames(old(mm.st)) - 3
    {
      CopyPageEntry(parent, child, page);
      PageJoins(backing, start, old(vm), vm, parent, child, page, first, last);
    }

    /** dup_mmap: copy the list of areas and the pages of each. */
    method DupMmap(parent: nat, child: nat)
      requires Core() && Forking(vm, parent, child) && vmas[parent] == vm.vmas[parent] && vmas[child] == []
      requires FreeFrames(mm.st) >= 3 * Pages(vmas[parent])
      modifies this`mem, this`vm, this`vmas, mm, mm.memMap, mm.lists
      ensures Core() && Forking(vm, parent, child) && CopyStep(backing, old(vm), vm, parent, child, 0, Bound(0))
      ensures FreeFrames(mm.st) >= FreeFrames(old(mm.st)) - 3 * Pages(vm.vmas[parent])
      ensures vmas == old(vmas)[child := old(vmas)[parent]]
      ensures forall v :: 0 <= v < Bound(0) ==> PageView(backing, vm, child, v) == PageView(backing, old(vm), parent, v)
    {
      ghost var areas := vmas[parent];
      var pos := 0;
      while pos < |vmas[parent]|
        invariant Core() && Forking(vm, parent, child) && CopyStep(backing, old(vm), vm, parent, child, 0, Bound(0))
        invariant 0 <= pos <= |areas| && vmas == old(vmas)[child := areas[..pos]]
        invariant FreeFrames(mm.st) >= FreeFrames(old(mm.st)) - 3 * Pages(areas) + 3 * Pages(areas[pos..])
        invariant AreasCopied(vm, parent, child, areas[..pos])
      {
        DupArea(parent, child, vmas[parent][pos], areas, pos, old(vm));
        pos := pos + 1;
      }
      assert areas[..pos] == areas;
      CopyComplete(backing, vm, parent, child);
    }

    /** The body of that loop. */
    method DupArea(parent: nat, child: nat, vma: Vma, ghost areas: seq<Vma>, ghost pos: nat, ghost start: Vm)
      requires Core() && Forking(vm, parent, child) && areas == vm.vmas[parent] && pos < |areas| && vma == areas[pos]
      requires Forking(start, parent, child) && CopyStep(backing, start, vm, parent, child, 0, Bound(0))
      requires FreeFrames(mm.st) >= 3 * Pages(areas[pos..]) && vmas[child] == areas[..pos]
      requires AreasCopied(vm, parent, child, areas[..pos])
      modifies this`mem, this`vm, this`vmas, mm, mm.memMap, mm.lists
      ensures Core() && Forking(vm, parent, child) && CopyStep(backing, start, vm, parent, child, 0, Bound(0))
      ensures FreeFrames(mm.st) >= FreeFrames(old(mm.st)) - 3 * Pages(areas[pos..]) + 3 * Pages(areas[pos + 1..])
      ensures AreasCopied(vm, parent, child, areas[..pos + 1]) && vmas == old(vmas)[child := areas[..pos + 1]]
    {
      assert vma in vm.vmas[parent];
      assert areas[pos..][1..] == areas[pos + 1..];
      CopyPageRange(parent, child, vma);
      AreaJoins(backing, start, old(vm), vm, parent, child, areas[..pos], vma);
      assert areas[..pos + 1] == areas[..pos] + [vma];
      vmas := vmas[child := vmas[child] + [vma]];
    }

    /** sys_fork, as far as memory is concerned. */
    method Fork(parent: nat) returns (child: nat)
      requires Valid() && parent < |pgd| && FreeFrames(mm.st) >= 1 + 3 * Pages(vmas[parent])
      modifies this`mem, this`pgd, this`vmas, this`zombie, this`vm, mm, mm.memMap, mm.lists
      ensures Valid() && child == |old(pgd)| && |pgd| == child + 1 && KernelMapped()
      ensures vm.vmas == old(vm).vmas + [old(vm).vmas[parent]] && zombie == old(zombie) + [false]
      ensures FreeFrames(mm.st) >= FreeFrames(old(mm.st)) - 1 - 3 * Pages(old(vmas)[parent])
      ensures forall q, u :: 0 <= q <= |old(pgd)| && 0 <= u < Bound(0) ==>
                PageView(backing, vm, q, u) == PageView(backing, old(vm), if q == child then parent else q, u)
    {
      ghost var s := vm;
      child := NewSpace(vm.vmas[parent]);
      assert Forking(vm, parent, child);
      ghost var m := vm;
      DupMmap(parent, child);
      ForkViews(backing, s, m, vm, parent, child);
      CoreMapsKernel();
    }

    /** vm_mmap */
    method VmMmap(pid: nat, file: nat, addr: nat, len: nat, prot: nat)
      requires Valid() && pid < |pgd| && VmaOk(Vma(addr, addr + len, prot, file))
      modifies this`vmas, this`vm
      ensures Valid() && vm == AddArea(old(vm), pid, Vma(addr, addr + len, prot, file))
      ensures vmas == old(vmas)[pid := old(vmas)[pid] + [Vma(addr, addr + len, prot, file)]]
    {
      AddAreaInv(backing, vm, pid, Vma(addr, addr + len, prot, file));
      vmas := vmas[pid := vmas[pid] + [Vma(addr, addr + len, prot, file)]];
      vm := AddArea(vm, pid, Vma(addr, addr + len, prot, file));
    }

    /** get_page */
    method GetShared(page: nat)
      requires mm.Valid() && page < |mm.st.pages| && mm.st.pages[page].refcount + 1 < Mm.WORD32
      modifies mm, mm.memMap
      ensures mm.Valid() && FreeFrames(mm.st) == FreeFrames(old(mm.st)) && mm.live == old(mm.live)
      ensures mm.st == Buddy.SetPage(old(mm.st), page,
                old(mm.st).pages[page].(refcount := old(mm.st).pages[page].refcount + 1))
    {
      mm.GetPage(page);
      assert PageSets.PagesOf(mm.st, Buddy.Free) == PageSets.PagesOf(old(mm.st), Buddy.Free);
    }

    /** Every process has the kernel's half of the kernel's root table. */
    ghost predicate KernelMapped()
      reads this
    {
      forall p, i {:trigger mem[pgd[p]][i]} :: 0 <= p < |pgd| && 256 <= i < 512 ==>
        pgd[p] < |mem| && mem[pgd[p]][i] == pgDir[i]
    }

    lemma CoreMapsKernel()
      requires Core()
      ensures KernelMapped()
    {
      forall p, i | 0 <= p < |pgd| && 256 <= i < 512
        ensures pgd[p] < |mem| && mem[pgd[p]][i] == pgDir[i]
      {
        assert vm.space.mem[vm.space.pgd[p]][i] == pgDir[i];
      }
    }

    /** The hardware's walk to the leaf entry of a user page; 0 where it stops early. */
    function HwWalk(pid: nat, v: nat): nat
      requires pid < |pgd|
      reads this`mem, this`pgd
    {
      Walk(Space(mem, pgd, []), pid, 0, v)
    }

    /** A user access: the instruction is tried again after each fault that returns. */
    method TryAccess(pid: nat, va: nat, cause: Cause) returns (r: Access, faults: nat)
      requires Valid() && pid < |pgd| && !zombie[pid] && FreeFrames(mm.st) >= 6
      modifies this`mem, this`vm, this`zombie, mm, mm.memMap, mm.lists
      ensures Valid() && SameViews(backing, old(vm), vm) && vm.space.pgd == old(vm).space.pgd
      ensures FreeFrames(mm.st) >= FreeFrames(old(mm.st)) - 6
      ensures r == Denied <==> !Allowed(vmas[pid], va, cause)
      ensures r == Denied ==> zombie == old(zombie)[pid := true] && vm == old(vm)
      ensures r != Denied ==> zombie == old(zombie)
      ensures r != Denied ==>
                (r == Stuck <==> Spins(Leaf(old(vm), pid, va / PAGE_SIZE), FindVma(vmas[pid], va).value.flags, cause))
      ensures r == Granted ==>
                faults <= 1 && va / PAGE_SIZE < Bound(0) && HwPermits(Leaf(vm, pid, va / PAGE_SIZE), cause)
    {
      WalkIgnoresRoles(vm.space, mem, pgd, pid, 0, va / PAGE_SIZE);
      if HwTry(pid, va, cause) {
        GrantedIsAllowed(vm, pid, va, cause);
        return Granted, 0;
      }
      var stuck := DoPageFault(pid, cause, va);
      if stuck {
        PageInUserHalf(old(vm), pid, va);
        StuckSpins(old(vm), pid, va, cause);
        return Stuck, 1;
      }
      if zombie[pid] {
        return Denied, 1;
      }
      PageInUserHalf(vm, pid, va);
      ghost var m := vm;
      var ok := Retry(pid, va, cause, FindVma(vmas[pid], va).value);
      SameViewsTrans(backing, old(vm), m, vm);
      return if ok then Granted else Stuck, if ok then 1 else 2;
    }

    /** The second attempt, on a leaf that has its area's full rights. */
    method Retry(pid: nat, va: nat, cause: Cause, ghost vma: Vma) returns (ok: bool)
      requires Valid() && pid < |pgd| && FreeFrames(mm.st) >= 3
      requires FindVma(vmas[pid], va) == Some(vma) && Permits(cause, vma.flags) && va / PAGE_SIZE < Bound(0)
      requires Leaf(vm, pid, va / PAGE_SIZE) != 0 && Prot(Leaf(vm, pid, va / PAGE_SIZE)) == VmProt(vma.flags)
      modifies this`mem, this`vm, this`zombie, mm, mm.memMap, mm.lists
      ensures Valid() && SameViews(backing, old(vm), vm) && vm.space.pgd == old(vm).space.pgd
      ensures FreeFrames(mm.st) >= FreeFrames(old(mm.st)) - 3
      ensures zombie == old(zombie) && (ok <==> !WriteOnly(vma.flags))
      ensures ok ==> HwPermits(Leaf(vm, pid, va / PAGE_SIZE), cause)
    {
      assert VmaOk(vma);
      FullLeafServes(Leaf(vm, pid, va / PAGE_SIZE), vma.flags, cause);
      WalkIgnoresRoles(vm.space, mem, pgd, pid, 0, va / PAGE_SIZE);
      ok := HwTry(pid, va, cause);
      if !ok {
        ghost var m := vm;
        var stuck := DoPageFault(pid, cause, va);
        FullLeafSticks(m, vm, pid, va / PAGE_SIZE, cause, vma.flags, stuck);
      }
    }

    /** The byte a load or fetch gets. */
    function HwByte(pid: nat, va: nat): nat
      requires pid < |pgd| && Ppn(HwWalk(pid, va / PAGE_SIZE)) < |mem|
      reads this`mem, this`pgd
    {
      PageByte(mem[Ppn(HwWalk(pid, va / PAGE_SIZE))], va)
    }

    /** A store that the hardware grants. */
    method StoreByte(pid: nat, va: nat, byte: nat)
      requires Core() && pid < |pgd| && va / PAGE_SIZE < Bound(0) && byte < 256
      requires HwPermits(Leaf(vm, pid, va / PAGE_SIZE), Store)
      modifies this`mem, this`vm
      ensures Core() && vm.vmas == old(vm).vmas && vm.space.pgd == old(vm).space.pgd
      ensures forall q, u :: 0 <= q < |pgd| && 0 <= u < Bound(0) ==>
                PageView(backing, vm, q, u) == if q == pid && u == va / PAGE_SIZE
                    then PutByte(PageView(backing, old(vm), pid, va / PAGE_SIZE), va, byte)
                                               else PageView(backing, old(vm), q, u)
    {
      ghost var v := va / PAGE_SIZE;
      WalkIgnoresRoles(vm.space, mem, pgd, pid, 0, v);
      var w := HwWalk(pid, va / PAGE_SIZE);
      ghost var r := StoreFrom(backing, vm, pid, v, va, byte, mm.st, others);
      mem := mem[Ppn(w) := PutByte(mem[Ppn(w)], va, byte)];
      vm := r;
    }

    /** One operation of the abstract model, carried out by the kernel and the hardware. */
    method Exec(op: Op, ghost w: seq<Process>) returns (out: Outcome)
      requires Valid() && Agrees(backing, vm, zombie, w) && Admissible(w, op) && FreeFrames(mm.st) >= Need(w, op)
      modifies this`mem, this`pgd, this`vmas, this`zombie, this`vm, mm, mm.memMap, mm.lists
      ensures Valid() && Agrees(backing, vm, zombie, Step(backing, w, op).0) && out == Step(backing, w, op).1
      ensures FreeFrames(mm.st) >= FreeFrames(old(mm.st)) - Need(w, op)
    {
      if op.Spawn? {
        out := ExecSpawn(w);
        return;
      }
      assert ProcessAgrees(backing, vm, zombie, op.pid, w[op.pid]);
      if zombie[op.pid] {
        return Ignored;
      }
      match op
      case Mmap(pid, a) =>
        AgreesMmap(backing, vm, zombie, w, pid, a);
        VmMmap(pid, a.file, a.start, a.end - a.start, a.flags);
        return Done;
      case Fork(pid) =>
        out := ExecFork(pid, w);
      case Read(pid, va, cause) =>
        out := ExecRead(pid, va, cause, w);
      case Write(pid, va, byte) =>
        out := ExecWrite(pid, va, byte, w);
    }

    method ExecSpawn(ghost w: seq<Process>) returns (out: Outcome)
      requires Valid() && Agrees(backing, vm, zombie, w) && FreeFrames(mm.st) >= 1
      modifies this`mem, this`pgd, this`vmas, this`zombie, this`vm, mm, mm.memMap, mm.lists
      ensures Valid() && Agrees(backing, vm, zombie, w + [Process([], map[], false)]) && out == Child(|w|)
      ensures FreeFrames(mm.st) >= FreeFrames(old(mm.st)) - 1
    {
      ghost var s, z := vm, zombie;
      var pid := NewSpace([]);
      AgreesSpawn(backing, s, vm, z, w);
      return Child(pid);
    }

    method ExecFork(pid: nat, ghost w: seq<Process>) returns (out: Outcome)
      requires Valid() && Agrees(backing, vm, zombie, w) && pid < |w| && !zombie[pid]
      requires FreeFrames(mm.st) >= 1 + 3 * Pages(w[pid].vmas)
      modifies this`mem, this`pgd, this`vmas, this`zombie, this`vm, mm, mm.memMap, mm.lists
      ensures Valid() && Agrees(backing, vm, zombie, w + [w[pid]]) && out == Child(|w|)
      ensures FreeFrames(mm.st) >= FreeFrames(old(mm.st)) - 1 - 3 * Pages(w[pid].vmas)
    {
      assert ProcessAgrees(backing, vm, zombie, pid, w[pid]);
      ghost var s, z := vm, zombie;
      var child := Fork(pid);
      AgreesFork(backing, s, vm, z, w, pid);
      return Child(child);
    }

    method ExecRead(pid: nat, va: nat, cause: Cause, ghost w: seq<Process>) returns (out: Outcome)
      requires Valid() && Agrees(backing, vm, zombie, w) && pid < |w| && !zombie[pid] && cause != Store
                 && FreeFrames(mm.st) >= 6
      modifies this`mem, this`pgd, this`vmas, this`zombie, this`vm, mm, mm.memMap, mm.lists
      ensures Valid() && FreeFrames(mm.st) >= FreeFrames(old(mm.st)) - 6
      ensures MayAccess(w[pid], va, cause) ==>
                Agrees(backing, vm, zombie, w) && out == Byte(ReadByte(backing, w[pid], va))
      ensures !MayAccess(w[pid], va, cause) ==>
                Agrees(backing, vm, zombie, w[pid := w[pid].(zombie := true)]) && out == Killed
    {
      var r := AgreeingAccess(pid, va, cause, w);
      out := Killed;
      if r == Granted {
        LoadAgrees(pid, va, w);
        out := Byte(HwByte(pid, va));
      }
    }

    method ExecWrite(pid: nat, va: nat, byte: nat, ghost w: seq<Process>) returns (out: Outcome)
      requires Valid() && Agrees(backing, vm, zombie, w) && pid < |w| && !zombie[pid] && byte < 256
                 && FreeFrames(mm.st) >= 6
      modifies this`mem, this`pgd, this`vmas, this`zombie, this`vm, mm, mm.memMap, mm.lists
      ensures Valid() && Agrees(backing, vm, zombie, WriteStep(w, pid, va, byte).0)
      ensures out == WriteStep(w, pid, va, byte).1
      ensures FreeFrames(mm.st) >= FreeFrames(old(mm.st)) - 6
    {
      var r := AgreeingAccess(pid, va, Store, w);
      out := Killed;
      if r == Granted {
        StoreAgreeing(pid, va, byte, w);
        out := Done;
      }
    }

    lemma LoadAgrees(pid: nat, va: nat, w: seq<Process>)
      requires Valid() && Agrees(backing, vm, zombie, w) && pid < |w| && va / PAGE_SIZE < Bound(0)
      requires Leaf(vm, pid, va / PAGE_SIZE) != 0 && FindVma(vm.vmas[pid], va).Some?
      ensures Ppn(HwWalk(pid, va / PAGE_SIZE)) < |mem| && HwByte(pid, va) == ReadByte(backing, w[pid], va)
    {
      WalkIgnoresRoles(vm.space, mem, pgd, pid, 0, va / PAGE_SIZE);
      assert LeafOk(vm, pid, va / PAGE_SIZE, Leaf(vm, pid, va / PAGE_SIZE));
      AgreesAt(backing, vm, zombie, w, pid, va);
    }

    method StoreAgreeing(pid: nat, va: nat, byte: nat, ghost w: seq<Process>)
      requires Valid() && Agrees(backing, vm, zombie, w) && pid < |w| && va / PAGE_SIZE < Bound(0) && byte < 256
      requires HwPermits(Leaf(vm, pid, va / PAGE_SIZE), Store) && FindVma(vm.vmas[pid], va).Some?
      modifies this`mem, this`vm
      ensures Valid() && Agrees(backing, vm, zombie, w[pid := w[pid].(bytes := w[pid].bytes[va := byte])])
    {
      ghost var m := vm;
      StoreByte(pid, va, byte);
      AgreesStore(backing, m, vm, zombie, w, pid, va, byte);
    }

    /** An access by a process of the abstract world: granted or refused as there. */
    method AgreeingAccess(pid: nat, va: nat, cause: Cause, ghost w: seq<Process>) returns (r: Access)
      requires Valid() && Agrees(backing, vm, zombie, w) && pid < |w| && !zombie[pid] && FreeFrames(mm.st) >= 6
      modifies this`mem, this`pgd, this`vmas, this`zombie, this`vm, mm, mm.memMap, mm.lists
      ensures Valid() && FreeFrames(mm.st) >= FreeFrames(old(mm.st)) - 6
      ensures r == if MayAccess(w[pid], va, cause) then Granted else Denied
      ensures r == Denied ==> Agrees(backing, vm, zombie, w[pid := w[pid].(zombie := true)])
      ensures r == Granted ==> Agrees(backing, vm, zombie, w)
      ensures r == Granted ==> va / PAGE_SIZE < Bound(0) && Leaf(vm, pid, va / PAGE_SIZE) != 0
      ensures r == Granted ==> HwPermits(Leaf(vm, pid, va / PAGE_SIZE), cause)
      ensures r == Granted ==> FindVma(vm.vmas[pid], va).Some?
    {
      assert ProcessAgrees(backing, vm, zombie, pid, w[pid]);
      ghost var s, z := vm, zombie;
      var faults;
      r, faults := TryAccess(pid, va, cause);
      AgreesSame(backing, s, vm, z, w);
      if r == Denied {
        AgreesKill(backing, vm, z, w, pid);
      } else {
        AgreesAt(backing, vm, zombie, w, pid, va);
        PresentLeaf(Leaf(vm, pid, va / PAGE_SIZE), cause);
      }
    }

    /** Copy-on-write refines eager copying: any run of operations, with all its page faults,
        has the outcomes of the same run on private byte maps. */
    method RunAll(ops: seq<Op>, ghost w: seq<Process>) returns (outs: seq<Outcome>)
      requires Valid() && Agrees(backing, vm, zombie, w) && RunOk(backing, w, ops)
                 && FreeFrames(mm.st) >= RunNeed(backing, w, ops)
      modifies this`mem, this`pgd, this`vmas, this`zombie, this`vm, mm, mm.memMap, mm.lists
      ensures Valid() && Agrees(backing, vm, zombie, Run(backing, w, ops).0)
      ensures outs == Run(backing, w, ops).1 && History.Coherent(ops, outs) && KernelMapped()
    {
      outs := [];
      var i := 0;
      ghost var now := w;
      assert ops[0..] == ops;
      while i < |ops|
        invariant 0 <= i <= |ops| && Valid() && Agrees(backing, vm, zombie, now)
        invariant RunOk(backing, now, ops[i..]) && FreeFrames(mm.st) >= RunNeed(backing, now, ops[i..])
        invariant Run(backing, now, ops[i..]).0 == Run(backing, w, ops).0
        invariant outs + Run(backing, now, ops[i..]).1 == Run(backing, w, ops).1
      {
        ghost var m, expected := RunCons(backing, now, ops, i);
        var out := Exec(ops[i], now);
        outs := outs + [out];
        now := m;
        i := i + 1;
      }
      assert ops[i..] == [];
      RunEnd(backing, now);
      History.RunCoherent(backing, w, ops);
      CoreMapsKernel();
    }

    /** One attempt by the hardware. */
    predicate HwTry(pid: nat, va: nat, cause: Cause)
      requires pid < |pgd|
      reads this`mem, this`pgd
    {
      va / PAGE_SIZE < 0x400_0000 && HwPermits(HwWalk(pid, va / PAGE_SIZE), cause)
    }

    /** memcpy from the file, or memset to zero, into the new frame. */
    method FirstContents(vma: Vma, addr: nat, ghost v: nat) returns (page: Frame)
      requires addr == v * PAGE_SIZE && vma.start <= addr
      ensures page == InitialPage(backing, vma, v)
    {
      page := ZeroFrame();
      if vma.file != 0 {
        var off := addr - vma.start;
        page := CopyBytes(vma.file + off);
      }
    }

    function CopyBytes(src: nat): Frame {
      seq(WORDS, i requires 0 <= i < WORDS => WordAt(backing, src + 8 * i, 8))
    }
  }

  // --- user accesses

  /** Granted by the hardware, refused with the process killed, or never returning. */
  datatype Access = Granted | Denied | Stuck

  /** From boot on: a kernel without processes, on any allocator and any memory, runs every sequence
      of operations as the eager model does from nothing. */
  method RunFromBoot(mm: Mm.Allocator, pgDir: Frame, backing: nat -> nat, device: (nat, nat) -> nat,
      memory: seq<Frame>, ops: seq<Op>)
    returns (outs: seq<Outcome>)
    requires mm.Valid() && |memory| == |mm.st.pages| && |memory| * WORDS + 1 < Mm.WORD32
    requires forall i :: 0 <= i < 256 ==> pgDir[i] == 0
    requires RunOk(backing, [], ops) && FreeFrames(mm.st) >= RunNeed(backing, [], ops)
    modifies mm, mm.memMap, mm.lists
    ensures outs == Run(backing, [], ops).1
    ensures History.Coherent(ops, outs) && History.AsExpected(backing, ops, outs)
  {
    var kernel := new Kernel(mm, pgDir, backing, device, memory);
    outs := kernel.RunAll(ops, []);
    History.RunAsExpected(backing, ops);
  }

  /** 4096 bytes are a page run of order 0. */
  lemma PageOrder()
    ensures forall k: nat :: Mm.OrderFor(PAGE_SIZE, k) ==> k == 0
  {
  }

  ghost predicate SameLeaves(s: Vm, r: Vm) {
    && r.space.pgd == s.space.pgd && |r.space.mem| == |s.space.mem|
    && forall q, v :: 0 <= q < |s.space.pgd| && 0 <= v < Bound(0) ==> Leaf(r, q, v) == Leaf(s, q, v)
  }

  /** Every entry of s is still there in r, and no page is translated anew. */
  ghost predicate TreeGrown(s: Vm, r: Vm) {
    && r.space.pgd == s.space.pgd && r.vmas == s.vmas && |r.space.mem| == |s.space.mem|
    && (forall q, l, x :: 0 <= q < |s.space.pgd| && 0 <= l <= 2 && 0 <= x < Bound(l) && Walk(s.space, q, l, x) != 0 ==>
          Walk(r.space, q, l, x) == Walk(s.space, q, l, x))
    && (forall q, v :: 0 <= q < |s.space.pgd| && 0 <= v < Bound(0) ==> Leaf(r, q, v) == Leaf(s, q, v))
  }

  lemma TreeGrownTrans(s: Vm, m: Vm, r: Vm)
    requires TreeGrown(s, m) && TreeGrown(m, r)
    ensures TreeGrown(s, r)
  {
    forall q, l, x | 0 <= q < |s.space.pgd| && 0 <= l <= 2 && 0 <= x < Bound(l) && Walk(s.space, q, l, x) != 0
      ensures Walk(r.space, q, l, x) == Walk(s.space, q, l, x)
    {
      assert Walk(m.space, q, l, x) == Walk(s.space, q, l, x);
    }
    forall q, v | 0 <= q < |s.space.pgd| && 0 <= v < Bound(0)
      ensures Leaf(r, q, v) == Leaf(s, q, v)
    {
      assert Leaf(m, q, v) == Leaf(s, q, v);
    }
  }

  /** Tables may have been added: no page is translated anew, and if s was in order so is r. */
  ghost predicate Extends(backing: nat -> nat, s: Vm, r: Vm) {
    TreeGrown(s, r) && (VmInv(s) ==> VmInv(r) && Grown(backing, s, r))
  }

  lemma ExtendsTrans(backing: nat -> nat, s: Vm, m: Vm, r: Vm)
    requires Extends(backing, s, m) && Extends(backing, m, r)
    ensures Extends(backing, s, r)
  {
    TreeGrownTrans(s, m, r);
    if VmInv(s) {
      GrownTrans(backing, s, m, r);
    }
  }

  /** From s to r exactly one leaf changes: the one of page v of process p becomes w. */
  ghost predicate LeafSet(s: Vm, r: Vm, p: nat, v: nat, w: nat)
    requires |r.space.pgd| == |s.space.pgd|
  {
    forall q, u :: 0 <= q < |s.space.pgd| && 0 <= u < Bound(0) ==>
      Leaf(r, q, u) == if q == p && u == v then w else Leaf(s, q, u)
  }

  /** n pages of process p, from `first` on, are mapped to consecutive frames; no other leaf changes. */
  ghost predicate LeavesSet(s: Vm, r: Vm, p: nat, first: nat, n: nat, frame: nat, prot: nat)
    requires |r.space.pgd| == |s.space.pgd|
  {
    forall q, u :: 0 <= q < |s.space.pgd| && 0 <= u < Bound(0) ==>
      Leaf(r, q, u) == if q == p && first <= u < first + n then MakePte(frame + (u - first), prot) else Leaf(s, q, u)
  }

  lemma LeavesStep(s: Vm, m: Vm, r: Vm, p: nat, first: nat, k: nat, frame: nat, prot: nat)
    requires |s.space.pgd| == |m.space.pgd| == |r.space.pgd|
    requires LeavesSet(s, m, p, first, k, frame, prot) && LeafSet(m, r, p, first + k, MakePte(frame + k, prot))
    ensures LeavesSet(s, r, p, first, k + 1, frame, prot)
  {
  }

  /** Writing a leaf in a tree that has its slot. */
  lemma LeafSetAfter(backing: nat -> nat, s: Vm, m: Vm, r: Vm, p: nat, v: nat, w: nat)
    requires Extends(backing, s, m) && |r.space.pgd| == |m.space.pgd| && LeafSet(m, r, p, v, w)
    ensures |r.space.pgd| == |s.space.pgd| && LeafSet(s, r, p, v, w)
  {
    assert forall q, u :: 0 <= q < |s.space.pgd| && 0 <= u < Bound(0) ==> Leaf(m, q, u) == Leaf(s, q, u);
  }

  lemma LeafFrom(s: Vm, st: Buddy.State, p: nat, v: nat, w: nat, o: Others) returns (r: Vm)
    requires Tree(s.space) && Held(s, st, o) && p < |s.space.pgd| && v < Bound(0) && HasSlot(s.space, p, 0, v)
    ensures SlotFrame(s.space, p, 0, v) < |s.space.mem|
    ensures Tree(r.space) && Held(r, st, o) && r.space.pgd == s.space.pgd && LeafSet(s, r, p, v, w)
    ensures r.space.mem == SetWord(s.space.mem, SlotFrame(s.space, p, 0, v), v % WORDS, w)
  {
    SlotRole(s.space, p, 0, v);
    LeafWrite(s.space, p, v, w);
    r := s.(space := SetEntry(s.space, p, 0, v, w));
    HalvesLow(s.space, r.space, o.dir);
  }

  function PageCount(size: nat): nat {
    (size + PAGE_SIZE - 1) / PAGE_SIZE
  }

  const INT_PAGES := 0x8_0000

  /** An `int` after wrapping around, and an `int` compared with an unsigned long. */
  function Wrapped32(x: int): int {
    if x < 0x8000_0000 then x else x - 0x1_0000_0000
  }

  function Unsigned64(i: int): int {
    if i >= 0 then i else i + 0x1_0000_0000_0000_0000
  }

  /** The pages map_pages gets to before its counter wraps. */
  function MappedPages(size: nat): nat {
    if PageCount(size) <= INT_PAGES then PageCount(size) else INT_PAGES
  }

  lemma MapCounter(size: nat, k: nat)
    requires size <= USER_END && k <= MappedPages(size)
    ensures Unsigned64(Wrapped32(k * PAGE_SIZE)) < size <==> k < MappedPages(size)
    ensures k < MappedPages(size) ==> Wrapped32(k * PAGE_SIZE) == k * PAGE_SIZE && k * PAGE_SIZE < size
    ensures k < MappedPages(size) ==> Wrapped32(k * PAGE_SIZE + PAGE_SIZE) == Wrapped32((k + 1) * PAGE_SIZE)
  {
  }

  /** The whole range is mapped if and only if it is no longer than 2^31 bytes. */
  lemma MapsWholeRange(size: nat)
    ensures MappedPages(size) == PageCount(size) <==> size <= 0x8000_0000
  {
  }

  /** One page more than 2^31 bytes, and a page is left out. */
  lemma MapsTooLittle()
    ensures MappedPages(0x8000_1000) == PageCount(0x8000_1000) - 1
  {
    MapsWholeRange(0x8000_1000);
  }

  /** A new process whose root is a frame the allocator has just given out. */
  lemma SpaceFrom(backing: nat -> nat, s: Vm, f: nat, root: Frame, areas: seq<Vma>, st: Buddy.State, o: Others)
    returns (r: Vm)
    requires VmInv(s) && Held(s, st, o) && NewPage(st, f, o) && f < |s.space.mem| && s.space.role[f] == Unused
    requires (forall i :: 0 <= i < 256 ==> root[i] == 0) && o.dir == root && forall a :: a in areas ==> VmaOk(a)
    ensures VmInv(r) && Held(r, st, o) && r.vmas == s.vmas + [areas]
    ensures r.space.mem == s.space.mem[f := root] && r.space.pgd == s.space.pgd + [f]
    ensures forall l, x :: 0 <= l <= 2 && 0 <= x < Bound(l) ==> Walk(r.space, |s.space.pgd|, l, x) == 0
    ensures forall q, v :: 0 <= q < |s.space.pgd| && 0 <= v < Bound(0) ==>
              PageView(backing, r, q, v) == PageView(backing, s, q, v)
  {
    AddProcessInv(backing, s, f, root, areas);
    r := AddProcess(s, f, root, areas);
    HalvesAdded(s.space, r.space, root, f);
    HoldFrame(s, r, st, f, o);
  }

  /** Entering a table with a frame the allocator has just given out. */
  lemma TableFrom(backing: nat -> nat, s: Vm, p: nat, level: nat, x: nat, pte: nat, f: nat, st: Buddy.State, o: Others)
      returns (r: Vm)
    requires Tree(s.space) && Held(s, st, o) && p < |s.space.pgd| && 1 <= level
               && AtTable(s.space, p, level, x, pte)
    requires Walk(s.space, p, level, x) == 0 && f < |s.space.mem| && s.space.role[f] == Unused
    requires NewPage(st, f, o)
    ensures Tree(r.space) && Held(r, st, o) && pte < |s.space.mem|
    ensures r.space.mem == SetWord(s.space.mem[f := ZeroFrame()], pte, x % WORDS, MakePte(f, PAGE_PRESENT))
    ensures Extends(backing, s, r)
    ensures AtTable(r.space, p, level, x, pte) && Walk(r.space, p, level, x) != 0
  {
    r := AddTable(s, p, level, x, f);
    TableLink(s.space, p, level, x, f);
    PteFields(f, PAGE_PRESENT);
    LinkWrites(s.space, p, level, x, f);
    HalvesLinked(s.space, r.space, o.dir, p, level, x, f, MakePte(f, PAGE_PRESENT));
    HoldFrame(s, r, st, f, o);
    if level < 2 {
      assert Walk(r.space, p, level + 1, x / WORDS) == Walk(s.space, p, level + 1, x / WORDS);
    }
    if VmInv(s) {
      AddTableInv(backing, s, p, level, x, f);
    }
  }

  /** The same while the child's tree is being copied. */
  lemma CopyTableFrom(backing: nat -> nat, s: Vm, parent: nat, child: nat, level: nat, x: nat, f: nat, v: nat,
      st: Buddy.State, o: Others)
    returns (r: Vm)
    requires VmInv(s) && Forking(s, parent, child) && 1 <= level <= 2 && x < Bound(level) && Held(s, st, o)
    requires HasSlot(s.space, child, level, x) && Walk(s.space, child, level, x) == 0
               && Walk(s.space, parent, level, x) != 0
    requires f < |s.space.mem| && s.space.role[f] == Unused
    requires NewPage(st, f, o)
    ensures VmInv(r) && Held(r, st, o) && r.space.pgd == s.space.pgd
              && SlotFrame(s.space, child, level, x) < |s.space.mem|
    ensures r.space.mem == SetWord(s.space.mem[f := ZeroFrame()], SlotFrame(s.space, child, level, x), x % WORDS,
              MakePte(f, PAGE_PRESENT))
    ensures Forking(r, parent, child) && CopyStep(backing, s, r, parent, child, v, v + 1)
    ensures Walk(r.space, child, level, x) != 0 && Walk(r.space, parent, level, x) == Walk(s.space, parent, level, x)
    ensures forall src, dst :: Cursor(s, parent, child, level, x, src, dst) ==>
              Cursor(r, parent, child, level, x, src, dst)
  {
    CopyTable(backing, s, parent, child, level, x, f, v, v + 1);
    LinkWrites(s.space, child, level, x, f);
    r := AddTable(s, child, level, x, f);
    HalvesLinked(s.space, r.space, o.dir, child, level, x, f, MakePte(f, PAGE_PRESENT));
    HoldFrame(s, r, st, f, o);
  }

  /** r has more tables than s at most. */
  ghost predicate Grown(backing: nat -> nat, s: Vm, r: Vm)
    requires Sane(s) && Sane(r)
  {
    SameViews(backing, s, r) && SameLeaves(s, r)
  }

  lemma GrownTrans(backing: nat -> nat, s: Vm, m: Vm, r: Vm)
    requires Sane(s) && Sane(m) && Sane(r) && Grown(backing, s, m) && Grown(backing, m, r)
    ensures Grown(backing, s, r)
  {
    SameViewsTrans(backing, s, m, r);
    forall q, v | 0 <= q < |s.space.pgd| && 0 <= v < Bound(0)
      ensures Leaf(r, q, v) == Leaf(s, q, v)
    {
      assert Leaf(m, q, v) == Leaf(s, q, v);
    }
  }

  /** The frame `pte` is the table in which the walk to x is at `level`. */
  predicate AtTable(s: Space, p: nat, level: nat, x: nat, pte: nat)
    requires p < |s.pgd|
  {
    level <= 2 && x < Bound(level) && HasSlot(s, p, level, x) && pte == SlotFrame(s, p, level, x)
  }

  /** The writes of demand paging: the new frame, then the leaf. */
  lemma MapWrites(s: Space, p: nat, v: nat, f: nat, frame: Frame, w: nat)
    requires Tree(s) && p < |s.pgd| && v < Bound(0) && HasSlot(s, p, 0, v)
    requires f < |s.mem| && s.role[f] == Unused
    ensures SlotFrame(s, p, 0, v) < |s.mem|
    ensures forall role: Role :: !role.Table? ==>
              SetEntry(FillFrame(s, f, frame, role), p, 0, v, w).mem ==
                  SetWord(s.mem[f := frame], SlotFrame(s, p, 0, v), v % WORDS, w)
  {
    SlotRole(s, p, 0, v);
    forall role: Role | !role.Table?
      ensures SetEntry(FillFrame(s, f, frame, role), p, 0, v, w).mem ==
                SetWord(s.mem[f := frame], SlotFrame(s, p, 0, v), v % WORDS, w)
    {
      FrameFill(s, f, frame, role);
    }
  }

  /** Demand paging with a frame the allocator has just given out. */
  lemma MapFreshHeld(backing: nat -> nat, s: Vm, p: nat, v: nat, f: nat, a: Vma, st: Buddy.State, o: Others)
    requires VmInv(s) && p < |s.space.pgd| && v < Bound(0) && HasSlot(s.space, p, 0, v)
    requires Leaf(s, p, v) == 0 && f < |s.space.mem| && s.space.role[f] == Unused && PageVma(s.vmas[p], v) == Some(a)
    requires Held(s, st, o) && NewPage(st, f, o)
    ensures SlotFrame(s.space, p, 0, v) < |s.space.mem|
    ensures var frame := InitialPage(backing, a, v); var r := MapFresh(s, p, v, f, frame, a.flags);
            && VmInv(r) && SameViews(backing, s, r) && Held(r, st, o)
            && r.space.pgd == s.space.pgd && r.vmas == s.vmas && |r.space.mem| == |s.space.mem|
            && r.space.mem == SetWord(s.space.mem[f := frame], SlotFrame(s.space, p, 0, v), v % WORDS,
                MakePte(f, VmProt(a.flags)))
            && Leaf(r, p, v) != 0 && Prot(Leaf(r, p, v)) == VmProt(a.flags)
  {
    var frame := InitialPage(backing, a, v);
    MapFreshInv(backing, s, p, v, f);
    assert VmaOk(a);
    LeafBits(f, a.flags);
    MapFreshShape(s, p, v, f, frame, a.flags);
    MapWrites(s.space, p, v, f, frame, MakePte(f, VmProt(a.flags)));
    var r := MapFresh(s, p, v, f, frame, a.flags);
    HalvesLeaf(s.space, r.space, o.dir, p, v, f, frame, MakePte(f, VmProt(a.flags)));
    HoldFrame(s, r, st, f, o);
  }

  /** A mapped frame is held by the allocator with the right count. */
  lemma LeafFrame(s: Vm, st: Buddy.State, p: nat, v: nat, o: Others)
    requires VmInv(s) && Held(s, st, o) && p < |s.space.pgd| && v < Bound(0) && Leaf(s, p, v) != 0
    ensures LeafOk(s, p, v, Leaf(s, p, v))
    ensures var d := Ppn(Leaf(s, p, v)); st.pages[d].refcount == s.refs[d] == |s.space.role[d].owners| > 0
  {
    assert LeafOk(s, p, v, Leaf(s, p, v));
    var d := Ppn(Leaf(s, p, v));
    assert (p, v) in s.space.role[d].owners;
  }

  lemma BreakShareFrom(backing: nat -> nat, s: Vm, p: nat, v: nat, f: nat, d: nat, a: Vma, st: Buddy.State, o: Others)
      returns (r: Vm)
    requires VmInv(s) && p < |s.space.pgd| && v < Bound(0) && Leaf(s, p, v) != 0 && PageVma(s.vmas[p], v) == Some(a)
    requires f < |s.space.mem| && s.space.role[f] == Unused
    requires Held(s, st, o) && NewPage(st, f, o)
    requires d == Ppn(Leaf(s, p, v)) && d < |s.refs| && s.refs[d] > 1
    ensures VmInv(r) && SameViews(backing, s, r) && r.space.pgd == s.space.pgd
    ensures d < |st.pages| && st.pages[d].refcount > 1
    ensures Held(r, Buddy.SetPage(st, d, st.pages[d].(refcount := st.pages[d].refcount - 1)), o)
    ensures SlotFrame(s.space, p, 0, v) < |s.space.mem| && d < |s.space.mem|
    ensures r.space.mem == SetWord(s.space.mem[f := s.space.mem[d]], SlotFrame(s.space, p, 0, v), v % WORDS,
              MakePte(f, VmProt(a.flags)))
    ensures Leaf(r, p, v) != 0 && Prot(Leaf(r, p, v)) == VmProt(a.flags)
  {
    BreakShareHeld(backing, s, p, v, f, a, st, o);
    LeafFrame(s, st, p, v, o);
    r := BreakShare(s, p, v, f, a.flags);
  }

  lemma BreakShareHeld(backing: nat -> nat, s: Vm, p: nat, v: nat, f: nat, a: Vma, st: Buddy.State, o: Others)
    requires VmInv(s) && p < |s.space.pgd| && v < Bound(0) && Leaf(s, p, v) != 0 && PageVma(s.vmas[p], v) == Some(a)
    requires f < |s.space.mem| && s.space.role[f] == Unused
    requires Held(s, st, o) && NewPage(st, f, o)
    requires Ppn(Leaf(s, p, v)) < |s.refs| && s.refs[Ppn(Leaf(s, p, v))] > 1
    ensures LeafOk(s, p, v, Leaf(s, p, v)) && SlotFrame(s.space, p, 0, v) < |s.space.mem|
    ensures var d := Ppn(Leaf(s, p, v)); var r := BreakShare(s, p, v, f, a.flags);
            && VmInv(r) && SameViews(backing, s, r)
            && Held(r, Buddy.SetPage(st, d, st.pages[d].(refcount := st.pages[d].refcount - 1)), o)
            && r.space.pgd == s.space.pgd && r.vmas == s.vmas && |r.space.mem| == |s.space.mem|
            && r.space.mem == SetWord(s.space.mem[f := s.space.mem[d]], SlotFrame(s.space, p, 0, v), v % WORDS,
                MakePte(f, VmProt(a.flags)))
            && Leaf(r, p, v) != 0 && Prot(Leaf(r, p, v)) == VmProt(a.flags)
  {
    var d := Ppn(Leaf(s, p, v));
    BreakShareInv(backing, s, p, v, f);
    assert VmaOk(a);
    LeafBits(f, a.flags);
    BreakShareShape(s, p, v, f, a.flags);
    BreakShareMem(s, p, v, f, a.flags);
    var r := BreakShare(s, p, v, f, a.flags);
    HalvesLeaf(s.space, r.space, o.dir, p, v, f, s.space.mem[d], MakePte(f, VmProt(a.flags)));
    RefsMove(s, r, st, d, f, o);
  }

  /** One count up from nothing, one count down. */
  lemma RefsMove(s: Vm, r: Vm, st: Buddy.State, d: nat, f: nat, o: Others)
    requires Held(s, st, o) && d < |s.refs| && f < |s.refs| && d != f && s.refs[d] > 0
    requires |r.space.mem| == |s.space.mem| == |r.space.role| && r.refs == s.refs[f := 1][d := s.refs[d] - 1]
    requires s.space.role[d].Data? && r.space.role == s.space.role[d := r.space.role[d]][f := r.space.role[f]]
    requires NewPage(st, f, o) && Halves(r.space, o.dir)
    ensures st.pages[d].refcount == s.refs[d]
    ensures Held(r, Buddy.SetPage(st, d, st.pages[d].(refcount := st.pages[d].refcount - 1)), o)
  {
  }

  lemma BreakShareMem(s: Vm, p: nat, v: nat, f: nat, flags: nat)
    requires VmInv(s) && p < |s.space.pgd| && v < Bound(0) && Leaf(s, p, v) != 0
    requires f < |s.space.mem| && s.space.role[f] == Unused
    ensures LeafOk(s, p, v, Leaf(s, p, v)) && s.refs[Ppn(Leaf(s, p, v))] > 0
              && SlotFrame(s.space, p, 0, v) < |s.space.mem|
    ensures BreakShare(s, p, v, f, flags).space.mem ==
              SetWord(s.space.mem[f := s.space.mem[Ppn(Leaf(s, p, v))]], SlotFrame(s.space, p, 0, v), v % WORDS,
                  MakePte(f, VmProt(flags)))
  {
    BreakShareShape(s, p, v, f, flags);
    var d := Ppn(Leaf(s, p, v));
    var rest := Data(s.space.role[d].owners - {(p, v)});
    FrameFill(s.space, d, s.space.mem[d], rest);
    var left := FillFrame(s.space, d, s.space.mem[d], rest);
    assert left.mem == s.space.mem;
    assert Walk(left, p, 1, v / WORDS) == Walk(s.space, p, 1, v / WORDS);
    MapWrites(left, p, v, f, s.space.mem[d], MakePte(f, VmProt(flags)));
  }

  lemma UpgradeHeld(backing: nat -> nat, s: Vm, p: nat, v: nat, st: Buddy.State, o: Others)
    requires VmInv(s) && Held(s, st, o) && p < |s.space.pgd| && v < Bound(0) && Leaf(s, p, v) != 0
    requires LeafOk(s, p, v, Leaf(s, p, v)) && !Has(Leaf(s, p, v), PAGE_WRITE)
    requires s.refs[Ppn(Leaf(s, p, v))] <= 1 && Has(PageVma(s.vmas[p], v).value.flags, VM_WRITE)
    ensures SlotFrame(s.space, p, 0, v) < |s.space.mem|
    ensures var r := Upgrade(s, p, v);
            && VmInv(r) && SameViews(backing, s, r) && Held(r, st, o)
            && r.space.pgd == s.space.pgd && r.vmas == s.vmas && |r.space.mem| == |s.space.mem|
            && r.space.mem == SetWord(s.space.mem, SlotFrame(s.space, p, 0, v), v % WORDS, SetWrite(Leaf(s, p, v)))
            && Leaf(r, p, v) != 0 && Prot(Leaf(r, p, v)) == VmProt(PageVma(s.vmas[p], v).value.flags)
  {
    UpgradeInv(backing, s, p, v);
    SetBits(Leaf(s, p, v));
    assert HasSlot(s.space, p, 0, v);
    SlotRole(s.space, p, 0, v);
    HalvesLow(s.space, Upgrade(s, p, v).space, o.dir);
  }

  lemma SameViewsTrans(backing: nat -> nat, s: Vm, m: Vm, r: Vm)
    requires Sane(s) && Sane(m) && Sane(r) && SameViews(backing, s, m) && SameViews(backing, m, r)
    ensures SameViews(backing, s, r)
  {
    forall p, v | 0 <= p < |s.space.pgd| && 0 <= v < Bound(0)
      ensures PageView(backing, r, p, v) == PageView(backing, s, p, v)
    {
      assert PageView(backing, m, p, v) == PageView(backing, s, p, v);
    }
  }

  /** Adding tables first does not change what the fault does to the leaf. */
  lemma FaultEffectSame(s: Vm, m: Vm, r: Vm, p: nat, v: nat, cause: Cause, flags: nat, stuck: bool)
    requires p < |s.space.pgd| && SameLeaves(s, m) && p < |r.space.pgd| && v < Bound(0)
    requires FaultEffect(m, r, p, v, cause, flags, stuck)
    ensures FaultEffect(s, r, p, v, cause, flags, stuck)
  {
    assert Leaf(m, p, v) == Leaf(s, p, v);
  }

  predicate Allowed(vmas: seq<Vma>, va: nat, cause: Cause) {
    FindVma(vmas, va).Some? && Permits(cause, FindVma(vmas, va).value.flags)
  }

  /** What a permitted fault does to the leaf of the page: an absent one, or one that lacks the
      write bit a store needs, gets the full rights of its area; any other is left as it is and
      the handler never returns. */
  ghost predicate FaultEffect(s: Vm, r: Vm, p: nat, v: nat, cause: Cause, flags: nat, stuck: bool)
    requires p < |s.space.pgd| && p < |r.space.pgd|
  {
    var w := Leaf(s, p, v);
    if w == 0 || (cause == Store && !Has(w, PAGE_WRITE)) then
      !stuck && Leaf(r, p, v) != 0 && Prot(Leaf(r, p, v)) == VmProt(flags)
    else
      stuck && Leaf(r, p, v) == w
  }

  /** What the hardware grants, the area permits, and the access is not one that spins. */
  lemma GrantedIsAllowed(s: Vm, p: nat, va: nat, cause: Cause)
    requires VmInv(s) && p < |s.space.pgd| && va / PAGE_SIZE < Bound(0)
    requires HwPermits(Leaf(s, p, va / PAGE_SIZE), cause)
    ensures Allowed(s.vmas[p], va, cause)
    ensures !Spins(Leaf(s, p, va / PAGE_SIZE), FindVma(s.vmas[p], va).value.flags, cause)
  {
    var w := Leaf(s, p, va / PAGE_SIZE);
    assert LeafOk(s, p, va / PAGE_SIZE, w);
    VmaOfPage(s.vmas[p], va);
    var a := FindVma(s.vmas[p], va).value;
    assert VmaOk(a);
    LeafRights(w, a.flags, cause);
    LeafDecides(w, a.flags, cause);
  }

  /** A second fault on a leaf that already has its area's full rights is the spin. */
  lemma FullLeafSticks(s: Vm, r: Vm, p: nat, v: nat, cause: Cause, flags: nat, stuck: bool)
    requires p < |s.space.pgd| && p < |r.space.pgd| && FaultEffect(s, r, p, v, cause, flags, stuck)
    requires Leaf(s, p, v) != 0 && Prot(Leaf(s, p, v)) == VmProt(flags) && flags < 8 && Permits(cause, flags)
    ensures stuck
  {
    ProtBits(Leaf(s, p, v));
    LeafBits(0, flags);
  }

  lemma LeafRights(w: nat, flags: nat, cause: Cause)
    requires flags < 8 && (Prot(w) == VmProt(flags) || Prot(w) == ClearWrite(VmProt(flags))) && HwPermits(w, cause)
    ensures Permits(cause, flags)
  {
    LeafBits(0, flags);
    ClearBits(VmProt(flags));
    ProtBits(w);
    HighBits(w);
    AreaRights(flags);
  }

  /** Where the handler spins, it does for the reason given. */
  lemma StuckSpins(s: Vm, p: nat, va: nat, cause: Cause)
    requires VmInv(s) && p < |s.space.pgd| && va / PAGE_SIZE < Bound(0) && Allowed(s.vmas[p], va, cause)
    requires Leaf(s, p, va / PAGE_SIZE) != 0 && !HwPermits(Leaf(s, p, va / PAGE_SIZE), cause)
    requires !(cause == Store && !Has(Leaf(s, p, va / PAGE_SIZE), PAGE_WRITE))
    ensures Spins(Leaf(s, p, va / PAGE_SIZE), FindVma(s.vmas[p], va).value.flags, cause)
  {
    var w := Leaf(s, p, va / PAGE_SIZE);
    assert LeafOk(s, p, va / PAGE_SIZE, w);
    VmaOfPage(s.vmas[p], va);
    var a := FindVma(s.vmas[p], va).value;
    assert VmaOk(a);
    LeafDecides(w, a.flags, cause);
  }

  /** The slots of page v in the two trees: w in the parent's, nothing in the child's. */
  ghost predicate SlotPair(s: Vm, parent: nat, child: nat, v: nat, src: nat, dst: nat, idx: nat,
      before: seq<Frame>, w: nat) {
    && parent < |s.space.pgd| && child < |s.space.pgd| && v < Bound(0) && |s.space.role| == |s.space.mem|
    && before == s.space.mem && w == Leaf(s, parent, v) != 0 && Leaf(s, child, v) == 0
    && HasSlot(s.space, parent, 0, v) && HasSlot(s.space, child, 0, v)
    && src == SlotFrame(s.space, parent, 0, v) && dst == SlotFrame(s.space, child, 0, v) && idx == v % WORDS
    && src < |before| && dst < |before| && src != dst && before[src][idx] == w
    && s.space.role[src].Table? && s.space.role[dst].Table?
  }

  /** The two leaf slots lie in different tables. */
  lemma LeafSlots(s: Vm, parent: nat, child: nat, v: nat, src: nat, dst: nat, idx: nat)
      returns (before: seq<Frame>, w: nat)
    requires VmInv(s) && parent < |s.space.pgd| && child < |s.space.pgd| && parent != child && v < Bound(0)
    requires HasSlot(s.space, parent, 0, v) && HasSlot(s.space, child, 0, v)
    requires src == SlotFrame(s.space, parent, 0, v) && dst == SlotFrame(s.space, child, 0, v) && idx == v % WORDS
    requires Leaf(s, parent, v) != 0 && Leaf(s, child, v) == 0
    ensures SlotPair(s, parent, child, v, src, dst, idx, before, w)
  {
    SlotRole(s.space, parent, 0, v);
    SlotRole(s.space, child, 0, v);
    before, w := s.space.mem, Leaf(s, parent, v);
  }

  /** The three writes of level 0 leave the parent's and the child's entries read-only and equal. */
  lemma ShareWrites(mem: seq<Frame>, f: nat, src: nat, dst: nat, idx: nat, w: nat)
    requires src < |mem| && dst < |mem| && f < |mem| && src != dst && f != src && f != dst && idx < WORDS
    requires mem[src][idx] == w
    ensures var m0 := SetWord(mem[f := ZeroFrame()], dst, idx, MakePte(f, PAGE_PRESENT));
            var m1 := SetWord(m0, src, idx, ClearWrite(m0[src][idx]));
            && m1[src][idx] == ClearWrite(w)
            && SetWord(m1, dst, idx, m1[src][idx]) == SetWord(SetWord(mem[f := ZeroFrame()], src, idx,
                ClearWrite(w)), dst, idx, ClearWrite(w))
  {
    var m0 := SetWord(mem[f := ZeroFrame()], dst, idx, MakePte(f, PAGE_PRESENT));
    var m1 := SetWord(m0, src, idx, ClearWrite(m0[src][idx]));
    var a := SetWord(m1, dst, idx, m1[src][idx]);
    var b := SetWord(SetWord(mem[f := ZeroFrame()], src, idx, ClearWrite(w)), dst, idx, ClearWrite(w));
    assert forall g :: 0 <= g < |mem| ==> a[g] == b[g];
  }

  /** Sharing a leaf after the frame f has been taken and zeroed for nothing. */
  lemma ShareFrom(backing: nat -> nat, s: Vm, parent: nat, child: nat, v: nat, f: nat, st: Buddy.State,
                  before: seq<Frame>, src: nat, dst: nat, idx: nat, w: nat, o: Others) returns (r: Vm)
    requires VmInv(s) && Forking(s, parent, child) && Held(s, st, o)
    requires SlotPair(s, parent, child, v, src, dst, idx, before, w)
    requires f < |s.space.mem| && s.space.role[f] == Unused && |s.space.mem| * WORDS + 1 < Mm.WORD32
    ensures VmInv(r) && Forking(r, parent, child) && CopyStep(backing, s, r, parent, child, v, v + 1)
              && PageCopied(r, parent, child, v)
    ensures r.space.mem == SetWord(SetWord(before[f := ZeroFrame()], src, idx, ClearWrite(w)), dst, idx, ClearWrite(w))
    ensures r.space.pgd == s.space.pgd && SharesFrame(r, st, Ppn(ClearWrite(w)), o)
  {
    var z := LeakFrame(backing, s, parent, child, v, f, st, src, dst, idx, before, w, o);
    r := ShareHeld(backing, z, parent, child, v, st, src, dst, idx, before[f := ZeroFrame()], w, o);
    CopyStepTrans(backing, s, z, r, parent, child, v, v + 1);
  }

  /** One more reference to frame d makes the allocator agree with r. */
  ghost predicate SharesFrame(r: Vm, st: Buddy.State, d: nat, o: Others) {
    && d < |st.pages| && st.pages[d].refcount + 1 < Mm.WORD32
    && Held(r, Buddy.SetPage(st, d, st.pages[d].(refcount := st.pages[d].refcount + 1)), o)
  }

  /** The frame taken at level 0 and never used. */
  lemma LeakFrame(backing: nat -> nat, s: Vm, parent: nat, child: nat, v: nat, f: nat, st: Buddy.State,
                  src: nat, dst: nat, idx: nat, before: seq<Frame>, w: nat, o: Others) returns (z: Vm)
    requires VmInv(s) && Forking(s, parent, child) && Held(s, st, o)
    requires SlotPair(s, parent, child, v, src, dst, idx, before, w)
    requires f < |s.space.mem| && s.space.role[f] == Unused
    ensures VmInv(z) && Forking(z, parent, child) && CopyStep(backing, s, z, parent, child, v, v + 1)
              && Held(z, st, o)
    ensures SlotPair(z, parent, child, v, src, dst, idx, before[f := ZeroFrame()], w)
    ensures |z.space.mem| == |s.space.mem| && z.space.pgd == s.space.pgd
  {
    z := FillUnused(backing, s, f, ZeroFrame());
    HeldFilled(s, z, st, f, o);
    ForkingSame(backing, s, z, parent, child, v, v + 1);
    SlotPairStays(s, z, parent, child, v, f, src, dst, idx, before, w);
  }

  lemma HeldFilled(s: Vm, z: Vm, st: Buddy.State, f: nat, o: Others)
    requires Held(s, st, o) && Tree(s.space) && f < |s.space.mem| && s.space.role[f] == Unused && z.refs == s.refs
    requires z.space.role == s.space.role && z.space.mem == s.space.mem[f := ZeroFrame()] && z.space.pgd == s.space.pgd
    ensures Held(z, st, o)
  {
    HalvesLow(s.space, z.space, o.dir);
  }

  lemma SlotPairStays(s: Vm, z: Vm, parent: nat, child: nat, v: nat, f: nat, src: nat, dst: nat, idx: nat,
      before: seq<Frame>, w: nat)
    requires SlotPair(s, parent, child, v, src, dst, idx, before, w) && f < |before| && s.space.role[f] == Unused
    requires z.space.role == s.space.role && z.space.mem == s.space.mem[f := ZeroFrame()] && z.space.pgd == s.space.pgd
    requires forall q, l, x :: 0 <= q < |s.space.pgd| && 0 <= l <= 2 && 0 <= x < Bound(l) ==>
               Walk(z.space, q, l, x) == Walk(s.space, q, l, x)
    ensures SlotPair(z, parent, child, v, src, dst, idx, before[f := ZeroFrame()], w)
  {
    assert forall q :: 0 <= q < |s.space.pgd| ==> Walk(z.space, q, 1, v / WORDS) == Walk(s.space, q, 1, v / WORDS);
    assert f != src && f != dst;
  }

  lemma HalvesShared(z: Vm, r: Vm, parent: nat, child: nat, v: nat, src: nat, dst: nat, idx: nat,
                     before: seq<Frame>, w: nat, dir: Frame)
    requires Tree(z.space) && Halves(z.space, dir) && SlotPair(z, parent, child, v, src, dst, idx, before, w)
    requires r.space.pgd == z.space.pgd
    requires r.space.mem == SetWord(SetWord(before, src, idx, ClearWrite(w)), dst, idx, ClearWrite(w))
    ensures Halves(r.space, dir)
  {
    SlotRole(z.space, parent, 0, v);
    SlotRole(z.space, child, 0, v);
    HalvesLow(z.space, r.space, dir);
  }

  lemma ShareHeld(backing: nat -> nat, z: Vm, parent: nat, child: nat, v: nat, st: Buddy.State,
                  src: nat, dst: nat, idx: nat, before: seq<Frame>, w: nat, o: Others) returns (r: Vm)
    requires VmInv(z) && Forking(z, parent, child) && Held(z, st, o)
    requires SlotPair(z, parent, child, v, src, dst, idx, before, w)
    requires |z.space.mem| * WORDS + 1 < Mm.WORD32
    ensures VmInv(r) && Forking(r, parent, child) && CopyStep(backing, z, r, parent, child, v, v + 1)
              && PageCopied(r, parent, child, v)
    ensures r.space.pgd == z.space.pgd && SharesFrame(r, st, Ppn(ClearWrite(w)), o)
    ensures r.space.mem == SetWord(SetWord(before, src, idx, ClearWrite(w)), dst, idx, ClearWrite(w))
  {
    LeafFrame(z, st, parent, v, o);
    CopyLeaf(backing, z, parent, child, v);
    r := ShareLeaf(z, parent, child, v);
    ClearBits(w);
    CountBound(z, Ppn(w));
    ShareMem(z, parent, child, v);
    HalvesShared(z, r, parent, child, v, src, dst, idx, before, w, o.dir);
    ShareFrames(z, r, st, parent, child, v, o);
  }

  lemma ForkingSame(backing: nat -> nat, s: Vm, z: Vm, parent: nat, child: nat, lo: nat, hi: nat)
    requires Sane(s) && Sane(z) && Forking(s, parent, child) && SameViews(backing, s, z)
    requires z.space.pgd == s.space.pgd && |z.space.mem| == |s.space.mem|
    requires forall q, l, x :: 0 <= q < |s.space.pgd| && 0 <= l <= 2 && 0 <= x < Bound(l) ==>
               Walk(z.space, q, l, x) == Walk(s.space, q, l, x)
    ensures Forking(z, parent, child) && CopyStep(backing, s, z, parent, child, lo, hi)
  {
    assert forall u :: 0 <= u < Bound(0) ==>
        Leaf(z, child, u) == Leaf(s, child, u) && Leaf(z, parent, u) == Leaf(s, parent, u);
  }

  lemma ShareMem(s: Vm, parent: nat, child: nat, v: nat)
    requires VmInv(s) && parent < |s.space.pgd| && child < |s.space.pgd| && parent != child && v < Bound(0)
    requires Leaf(s, parent, v) != 0 && HasSlot(s.space, child, 0, v)
    ensures LeafOk(s, parent, v, Leaf(s, parent, v))
    ensures SlotFrame(s.space, parent, 0, v) < |s.space.mem| && SlotFrame(s.space, child, 0, v) < |s.space.mem|
    ensures ShareLeaf(s, parent, child, v).space.mem ==
              SetWord(SetWord(s.space.mem, SlotFrame(s.space, parent, 0, v), v % WORDS, ClearWrite(Leaf(s, parent, v))),
                      SlotFrame(s.space, child, 0, v), v % WORDS, ClearWrite(Leaf(s, parent, v)))
  {
    ShareLeafShape(s, parent, child, v);
    var w := Leaf(s, parent, v);
    var d := Ppn(w);
    var owned := FillFrame(s.space, d, s.space.mem[d], Data(s.space.role[d].owners + {(child, v)}));
    FrameFill(s.space, d, s.space.mem[d], Data(s.space.role[d].owners + {(child, v)}));
    assert owned.mem == s.space.mem;
    assert HasSlot(owned, parent, 0, v);
    SlotRole(s.space, parent, 0, v);
    SlotRole(s.space, child, 0, v);
    LeafWrite(owned, parent, v, ClearWrite(w));
  }

  lemma ShareFrames(s: Vm, r: Vm, st: Buddy.State, parent: nat, child: nat, v: nat, o: Others)
    requires VmInv(s) && parent < |s.space.pgd| && child < |s.space.pgd| && parent != child && v < Bound(0)
    requires Leaf(s, parent, v) != 0 && HasSlot(s.space, child, 0, v) && Held(s, st, o)
    requires LeafOk(s, parent, v, Leaf(s, parent, v)) && r == ShareLeaf(s, parent, child, v) && Halves(r.space, o.dir)
    ensures var d := Ppn(Leaf(s, parent, v));
            d < |st.pages| && Held(r, Buddy.SetPage(st, d, st.pages[d].(refcount := st.pages[d].refcount + 1)), o)
  {
    ShareLeafShape(s, parent, child, v);
    RefUp(s, r, st, Ppn(Leaf(s, parent, v)), o);
  }

  /** One count up. */
  lemma RefUp(s: Vm, r: Vm, st: Buddy.State, d: nat, o: Others)
    requires Held(s, st, o) && d < |s.refs| && s.space.role[d].Data? && |r.space.mem| == |s.space.mem|
    requires r.refs == s.refs[d := s.refs[d] + 1]
    requires |r.space.role| == |s.space.role| && r.space.role == s.space.role[d := r.space.role[d]]
    requires Halves(r.space, o.dir)
    ensures Held(r, Buddy.SetPage(st, d, st.pages[d].(refcount := st.pages[d].refcount + 1)), o)
  {
  }

  lemma PresentLeaf(w: nat, cause: Cause)
    requires HwPermits(w, cause)
    ensures w != 0
  {
  }

  lemma ForkViews(backing: nat -> nat, s: Vm, m: Vm, r: Vm, parent: nat, child: nat)
    requires Forking(m, parent, child) && Forking(r, parent, child)
               && CopyStep(backing, m, r, parent, child, 0, Bound(0))
    requires |s.vmas| == |s.space.pgd| == child && |m.space.pgd| == child + 1 && parent < child
    requires forall q, v :: 0 <= q < child && 0 <= v < Bound(0) ==>
               PageView(backing, m, q, v) == PageView(backing, s, q, v)
    requires forall v :: 0 <= v < Bound(0) ==> PageView(backing, r, child, v) == PageView(backing, m, parent, v)
    ensures |r.vmas| == |r.space.pgd| == child + 1
    ensures forall q, u :: 0 <= q <= child && 0 <= u < Bound(0) ==>
              PageView(backing, r, q, u) == PageView(backing, s, if q == child then parent else q, u)
  {
    forall q, u | 0 <= q <= child && 0 <= u < Bound(0)
      ensures PageView(backing, r, q, u) == PageView(backing, s, if q == child then parent else q, u)
    {
      assert PageView(backing, m, if q == child then parent else q, u) == PageView(backing, s, if q == child
          then parent else q, u);
    }
  }

  lemma StoreFrom(backing: nat -> nat, s: Vm, p: nat, v: nat, va: nat, b: nat, st: Buddy.State, o: Others)
      returns (r: Vm)
    requires VmInv(s) && Held(s, st, o) && p < |s.space.pgd| && v == va / PAGE_SIZE < Bound(0)
    requires HwPermits(Leaf(s, p, v), Store)
    ensures VmInv(r) && Held(r, st, o) && r.vmas == s.vmas && r.space.pgd == s.space.pgd
    ensures Ppn(Leaf(s, p, v)) < |s.space.mem|
    ensures r.space.mem == s.space.mem[Ppn(Leaf(s, p, v)) := PutByte(s.space.mem[Ppn(Leaf(s, p, v))], va, b)]
    ensures forall q, u :: 0 <= q < |s.space.pgd| && 0 <= u < Bound(0) ==>
              PageView(backing, r, q, u) == if q == p && u == v then PutByte(PageView(backing, s, p, v), va, b)
                  else PageView(backing, s, q, u)
  {
    assert LeafOk(s, p, v, Leaf(s, p, v));
    var i := va % PAGE_SIZE / 8;
    var page := s.space.mem[Ppn(Leaf(s, p, v))];
    var word := SetByte(page[i], va % 8, b);
    StoreWordInv(backing, s, p, v, i, word);
    r := StoreWord(s, p, v, i, word);
    HalvesLow(s.space, r.space, o.dir);
  }

  lemma {:induction false} WalkIgnoresRoles(s: Space, mem: seq<Frame>, pgd: seq<nat>, p: nat, l: nat, x: nat)
    requires s.mem == mem && s.pgd == pgd && p < |pgd| && l <= 2
    ensures Walk(Space(mem, pgd, []), p, l, x) == Walk(s, p, l, x)
    decreases 2 - l
  {
    if l < 2 {
      WalkIgnoresRoles(s, mem, pgd, p, l + 1, x / WORDS);
    }
  }

  /** Frames that some page table leads to, roots included. */
  ghost predicate Reachable(s: Vm, f: nat) {
    f in s.space.pgd
    || exists p: nat, l: nat, x: nat :: p < |s.space.pgd| && l <= 2 && x < Bound(l) && Reaches(s, p, l, x, f)
  }

  predicate Reaches(s: Vm, p: nat, l: nat, x: nat, f: nat)
    requires p < |s.space.pgd|
  {
    Walk(s.space, p, l, x) != 0 && Ppn(Walk(s.space, p, l, x)) == f
  }

  lemma ReachableIsUsed(s: Vm, f: nat)
    requires VmInv(s) && Reachable(s, f)
    ensures f < |s.space.mem| && s.space.role[f] != Unused
  {
    if f in s.space.pgd {
      var p :| 0 <= p < |s.space.pgd| && s.space.pgd[p] == f;
      assert s.space.role[s.space.pgd[p]] == Table(2, p, 0);
    } else {
      var p: nat, l: nat, x: nat :| p < |s.space.pgd| && l <= 2 && x < Bound(l) && Reaches(s, p, l, x, f);
      if l == 0 {
        assert LeafOk(s, p, x, Leaf(s, p, x));
      } else {
        assert LeadsTo(s.space, Walk(s.space, p, l, x), l - 1, p, x);
      }
    }
  }

  /** Allocator and page tables compose: a reachable frame is on no free list, and no allocation
      of any order hands it out. */
  lemma ReachableIsHeld(s: Vm, st: Buddy.State, f: nat, order: nat)
    requires VmInv(s) && FramesHeld(s, st) && Buddy.Inv(st) && Buddy.Quiet(st) && Reachable(s, f)
    ensures forall k :: 0 <= k <= Buddy.MAX_ORDER ==> f !in st.area[k]
    ensures var (r, res) := Buddy.Alloc(st, order);
            res.Some? ==> !(res.value <= f < res.value + Blocks.Pow2(order))
  {
    ReachableIsUsed(s, f);
    Buddy.AllocEffect(st, order);
  }
}
