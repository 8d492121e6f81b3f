/** The page tables beside the other users of the allocator of src/mm.c. */
module Tenants {
  import opened Common
  import opened Sv39
  import opened Cow
  import opened VmKernel = Vm
  import Blocks
  import Buddy
  import Slab
  import Mm

  /** What another user does to the pages: alloc_pages, free_pages or reserve_memory; kmalloc or
      kmem_cache_alloc turning a new page into slots; handing a slot out or taking it back; or
      get_page and put_page moving a count. */
  datatype Use = Pages(op: Buddy.Op) | Grow(cache: nat) | Slots | Recount(pfn: nat, count: nat)

  ghost predicate Permitted(st: Buddy.State, use: Use)
    requires Buddy.Inv(st) && Buddy.Quiet(st)
  {
    match use
    case Pages(op) => Buddy.Permitted(st, op)
    case Grow(_) => Buddy.Alloc(st, 0).1.Some?
    case Slots => true
    case Recount(p, _) => p < |st.pages|
  }

  ghost function Next(st: Buddy.State, use: Use): Buddy.State
    requires Buddy.Inv(st) && Buddy.Quiet(st) && Permitted(st, use)
  {
    match use
    case Pages(op) => Buddy.Step(st, op)
    case Grow(c) => Adopted(Buddy.Alloc(st, 0).0, Buddy.Alloc(st, 0).1, c)
    case Slots => st
    case Recount(p, count) => Buddy.SetPage(st, p, st.pages[p].(refcount := count))
  }

  /** The page just given out becomes a page of cache c. */
  ghost function Adopted(m: Buddy.State, page: Option<nat>, c: nat): Buddy.State {
    if page.Some? && page.value < |m.pages| then Buddy.SetPage(m, page.value, m.pages[page.value].(cacheidx := c))
        else m
  }

  /** The user frees and counts no frame of the page tables. */
  predicate Elsewhere(s: Vm, use: Use) {
    && (use.Pages? && use.op.FreePages? && use.op.pfn < |s.space.role| ==> s.space.role[use.op.pfn] == Unused)
    && (use.Recount? && use.pfn < |s.space.role| ==> s.space.role[use.pfn] == Unused)
  }

  /** The pages an allocation hands out. */
  ghost predicate HandsOut(st: Buddy.State, use: Use, f: nat)
    requires Buddy.Inv(st) && Buddy.Quiet(st)
  {
    match use
    case Pages(AllocPages(k)) => InRun(Buddy.Alloc(st, k).1, k, f)
    case Grow(_) => InRun(Buddy.Alloc(st, 0).1, 0, f)
    case _ => false
  }

  predicate InRun(page: Option<nat>, k: nat, f: nat) {
    page.Some? && page.value <= f < page.value + Blocks.Pow2(k)
  }

  /** kmalloc and the slot allocator, as src/mm.c runs them, are such uses. */
  lemma KmallocIsUse(st: Buddy.State, r: Buddy.State, size: nat, a: nat) returns (use: Use)
    requires Buddy.Inv(st) && Buddy.Quiet(st) && (Mm.RunServed(st, r, size, a) || Mm.SlotServed(st, r, size, a))
    ensures Permitted(st, use) && Next(st, use) == r && forall s :: Elsewhere(s, use)
  {
    if Mm.RunServed(st, r, size, a) {
      var k: nat :| Mm.OrderFor(size, k) && k <= Buddy.MAX_ORDER && a % PAGE_SIZE == 0
                    && Buddy.Alloc(st, k) == (r, Some(a / PAGE_SIZE));
      use := Pages(Buddy.AllocPages(k));
    } else {
      var c: nat :| Mm.ClassFor(size, c) && Slab.Slot(r, a, c) && (r == st || Mm.CacheGrown(st, r, c));
      use := if r == st then Slots else Grow(c);
    }
  }

  // --- one step

  lemma NextInv(st: Buddy.State, use: Use)
    requires Buddy.Inv(st) && Buddy.Quiet(st) && Permitted(st, use)
    ensures Buddy.Inv(Next(st, use)) && Buddy.Quiet(Next(st, use))
  {
    match use
    case Pages(op) => Buddy.StepInv(st, op);
    case Grow(c) =>
      Buddy.AllocEffect(st, 0);
      var (m, page) := Buddy.Alloc(st, 0);
      Slab.TouchPage(m, page.value, m.pages[page.value].(cacheidx := c));
    case Slots =>
    case Recount(p, count) => Slab.TouchPage(st, p, st.pages[p].(refcount := count));
  }

  /** The allocation hands out no frame in use. */
  lemma AllocIsElsewhere(s: Vm, st: Buddy.State, order: nat)
    requires FramesHeld(s, st) && Buddy.Inv(st) && Buddy.Quiet(st)
    ensures var (r, page) := Buddy.Alloc(st, order);
            && FramesHeld(s, r)
            && forall f :: 0 <= f < |s.space.role| && s.space.role[f] != Unused ==> !InRun(page, order, f)
  {
    Buddy.AllocEffect(st, order);
    var (r, page) := Buddy.Alloc(st, order);
    if page.Some? {
      forall f | 0 <= f < |s.space.role| && s.space.role[f] != Unused
        ensures !Blocks.SameBlock(page.value, f, order) && !InRun(page, order, f)
      {
        Blocks.BlockIsRun(page.value, f, order);
      }
    }
  }

  /** A freed block holds the freed page only or no frame in use at all. */
  lemma FreeIsElsewhere(s: Vm, st: Buddy.State, page: nat)
    requires FramesHeld(s, st) && Buddy.Inv(st) && Buddy.Quiet(st)
    requires Buddy.IsHead(st.tags, page) && st.tags[page].kind == Buddy.Allocated && s.space.role[page] == Unused
    ensures st.pages[page].order == st.tags[page].ord && FramesHeld(s, Buddy.FreeBlock(st, page))
  {
    var order := st.tags[page].ord;
    Buddy.FreeEffect(st, page, order);
    forall f | 0 <= f < |s.space.role| && s.space.role[f] != Unused
      ensures !Blocks.SameBlock(page, f, order)
    {
      if Blocks.SameBlock(page, f, order) {
        Buddy.BlockTag(st, page, f);
        Blocks.OneHead(page, f, 0);
      }
    }
  }

  /** What other users do keeps the frames of the page tables, and hands none of them out. */
  lemma OthersKeepFrames(s: Vm, st: Buddy.State, use: Use)
    requires FramesHeld(s, st) && Buddy.Inv(st) && Buddy.Quiet(st) && Permitted(st, use) && Elsewhere(s, use)
    ensures FramesHeld(s, Next(st, use))
    ensures forall f :: 0 <= f < |s.space.role| && s.space.role[f] != Unused ==> !HandsOut(st, use, f)
  {
    match use
    case Pages(AllocPages(k)) => AllocIsElsewhere(s, st, k);
    case Pages(FreePages(p)) => FreeIsElsewhere(s, st, p);
    case Pages(ReserveRange(lo, hi)) => ReserveIsElsewhere(s, st, lo, hi);
    case Grow(c) => GrowIsElsewhere(s, st, c);
    case Slots =>
    case Recount(p, count) => RecountIsElsewhere(s, st, p, count);
  }

  lemma ReserveIsElsewhere(s: Vm, st: Buddy.State, lo: nat, hi: nat)
    requires FramesHeld(s, st) && Buddy.Inv(st) && Buddy.Quiet(st)
    ensures FramesHeld(s, Buddy.Reserve(st, lo, hi))
  {
    Buddy.ReserveEffect(st, lo, hi);
  }

  lemma RecountIsElsewhere(s: Vm, st: Buddy.State, p: nat, count: nat)
    requires FramesHeld(s, st) && p < |st.pages| && s.space.role[p] == Unused
    ensures FramesHeld(s, Buddy.SetPage(st, p, st.pages[p].(refcount := count)))
  {
  }

  lemma GrowIsElsewhere(s: Vm, st: Buddy.State, c: nat)
    requires FramesHeld(s, st) && Buddy.Inv(st) && Buddy.Quiet(st) && Buddy.Alloc(st, 0).1.Some?
    ensures FramesHeld(s, Next(st, Grow(c)))
    ensures forall f :: 0 <= f < |s.space.role| && s.space.role[f] != Unused ==> !InRun(Buddy.Alloc(st, 0).1, 0, f)
  {
    AllocIsElsewhere(s, st, 0);
    var (m, page) := Buddy.Alloc(st, 0);
    assert InRun(page, 0, page.value);
  }

  // --- runs

  /** The other users' steps lead from each state to the next. */
  ghost predicate IsRun(s: Vm, trace: seq<Buddy.State>, uses: seq<Use>) {
    |trace| == |uses| + 1 && forall i :: 0 <= i < |uses| ==> Leads(s, trace[i], uses[i], trace[i + 1])
  }

  ghost predicate Leads(s: Vm, st: Buddy.State, use: Use, r: Buddy.State) {
    Elsewhere(s, use) && (Buddy.Inv(st) && Buddy.Quiet(st) ==> Permitted(st, use) && r == Next(st, use))
  }

  lemma {:induction false} RunKeepsFrames(s: Vm, trace: seq<Buddy.State>, uses: seq<Use>, i: nat)
    requires IsRun(s, trace, uses) && i <= |uses|
    requires FramesHeld(s, trace[0]) && Buddy.Inv(trace[0]) && Buddy.Quiet(trace[0])
    ensures FramesHeld(s, trace[i]) && Buddy.Inv(trace[i]) && Buddy.Quiet(trace[i])
  {
    if i > 0 {
      RunKeepsFrames(s, trace, uses, i - 1);
      assert Leads(s, trace[i - 1], uses[i - 1], trace[i - 1 + 1]);
      NextInv(trace[i - 1], uses[i - 1]);
      OthersKeepFrames(s, trace[i - 1], uses[i - 1]);
    }
  }

  /** Whatever other users allocate, free, reserve and count meanwhile: a frame that page tables lead
      to stays allocated, is on no free list, and is never handed out again. */
  lemma NeverHandedOut(s: Vm, trace: seq<Buddy.State>, uses: seq<Use>, f: nat, i: nat)
    requires IsRun(s, trace, uses) && i <= |uses| && VmInv(s) && Reachable(s, f)
    requires FramesHeld(s, trace[0]) && Buddy.Inv(trace[0]) && Buddy.Quiet(trace[0])
    ensures f < |trace[i].tags| && trace[i].tags[f] == Buddy.Tag(0, Buddy.Allocated)
    ensures Buddy.Inv(trace[i]) && Buddy.Quiet(trace[i])
    ensures forall k :: 0 <= k <= Buddy.MAX_ORDER ==> f !in trace[i].area[k]
    ensures i < |uses| ==> !HandsOut(trace[i], uses[i], f)
  {
    RunKeepsFrames(s, trace, uses, i);
    ReachableIsUsed(s, f);
    ReachableIsHeld(s, trace[i], f, 0);
    if i < |uses| {
      assert Leads(s, trace[i], uses[i], trace[i + 1]);
      OthersKeepFrames(s, trace[i], uses[i]);
    }
  }
}
