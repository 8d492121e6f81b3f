/** src/mm.c working in place: mem_map, the free lists and the object caches.

    Every method is tied to the functions of module Buddy through the ghost field `st`; what the
    source promises is proved there and in module Slab.  Addresses are physical. */
module Mm {
  import opened Blocks
  import opened Lists
  import opened Buddy
  import opened Common
  import opened Slab
  import opened MmLists

  const WORD64 := 0x1_0000_0000_0000_0000
  const WORD32 := 0x1_0000_0000

  /** The i-th node of free_area[order], or its head past the last one. */
  ghost function EntryAt(a: seq<nat>, order: nat, i: nat): Ptr {
    if i < |a| then PageNode(a[i]) else AreaHead(order)
  }

  lemma AreaCursor(l: Links<Ptr>, area: seq<seq<nat>>, cache: seq<seq<nat>>, order: nat, i: nat)
    requires Wired(l, area, cache) && order < AREAS && i <= |area[order]|
    ensures EntryAt(area[order], order, i) in l.next
    ensures i < |area[order]| ==> l.next[EntryAt(area[order], order, i)] == EntryAt(area[order], order, i + 1)
  {
    AreaNext(l, area, cache, order);
  }

  /** The pages reserve_memory covers: from FirstPage up to but not including PageLimit.
      The end is computed in 64 bits. */
  function FirstPage(addr: nat): nat {
    addr / PAGE_SIZE
  }

  function PageLimit(addr: nat, size: nat): nat {
    (addr + size + PAGE_SIZE - 1) % WORD64 / PAGE_SIZE
  }

  /** The bytes of page y meet those from addr up to but not including addr + size. */
  predicate Meets(y: nat, addr: nat, size: nat) {
    4096 * y < addr + size && addr < 4096 * (y + 1)
  }

  /** reserve_memory takes from the free pages those that meet the range of bytes, as long as the rounded
      end fits into 64 bits; otherwise it takes none but the first. */
  ghost predicate ReservesBytes(s: State, r: State, addr: nat, size: nat) {
    && |r.tags| == |s.tags|
    && (forall y :: 0 <= y < |s.tags| && s.tags[y].kind != Free ==> r.tags[y] == s.tags[y])
    && (addr + size + 4095 < 0x1_0000_0000_0000_0000 ==>
          forall y :: 0 <= y < |s.tags| && s.tags[y].kind == Free ==>
            r.tags[y].kind == if Meets(y, addr, size) then Reserved else Free)
    && (addr + size + 4095 >= 0x1_0000_0000_0000_0000 ==>
          forall y :: addr / 4096 < y < |s.tags| && s.tags[y].kind == Free ==> r.tags[y].kind == Free)
  }

  lemma RoundedRange(y: nat, addr: nat, size: nat)
    requires addr < 0x1_0000_0000_0000_0000 && size < 0x1_0000_0000_0000_0000
    ensures addr + size + 4095 < 0x1_0000_0000_0000_0000 ==>
              (FirstPage(addr) <= y < PageLimit(addr, size) <==> Meets(y, addr, size))
    ensures addr + size + 4095 >= 0x1_0000_0000_0000_0000 && addr / 4096 < y ==>
              !(FirstPage(addr) <= y < PageLimit(addr, size))
  {
  }

  lemma ReservedBytes(s: State, addr: nat, size: nat)
    requires Inv(s) && Quiet(s) && addr < WORD64 && size < WORD64
    ensures ReservesBytes(s, Reserve(s, FirstPage(addr), PageLimit(addr, size)), addr, size)
  {
    var r := Reserve(s, FirstPage(addr), PageLimit(addr, size));
    ReserveEffect(s, FirstPage(addr), PageLimit(addr, size));
    BytesFromPages(s, r, FirstPage(addr), PageLimit(addr, size), addr, size);
  }

  lemma BytesFromPages(s: State, r: State, lo: nat, hi: nat, addr: nat, size: nat)
    requires |r.tags| == |s.tags| && addr < WORD64 && size < WORD64
    requires lo == FirstPage(addr) && hi == PageLimit(addr, size)
    requires forall y :: 0 <= y < |s.tags| && s.tags[y].kind != Free ==> r.tags[y] == s.tags[y]
    requires forall y :: 0 <= y < |s.tags| && s.tags[y].kind == Free ==>
               r.tags[y].kind == if lo <= y < hi then Reserved else Free
    ensures ReservesBytes(s, r, addr, size)
  {
    forall y | 0 <= y < |s.tags| && s.tags[y].kind == Free
      ensures addr + size + 4095 < 0x1_0000_0000_0000_0000 ==>
                r.tags[y].kind == if Meets(y, addr, size) then Reserved else Free
      ensures addr + size + 4095 >= 0x1_0000_0000_0000_0000 && addr / 4096 < y ==> r.tags[y].kind == Free
    {
      RoundedRange(y, addr, size);
    }
  }

  ghost function NoLists(n: nat): (r: seq<seq<nat>>)
    ensures |r| == n && forall i :: 0 <= i < n ==> r[i] == []
  {
    seq(n, i => [])
  }

  ghost function BlockLists(blocks: nat): (r: seq<seq<nat>>)
    ensures |r| == AREAS
  {
    NoLists(MAX_ORDER) + [seq(blocks, b requires b >= 0 => 1024 * b)]
  }

  /** How many of the first i pages start a block. */
  ghost function Starts(i: nat): nat {
    (i + 1023) / 1024
  }

  lemma StartsStep(i: nat)
    ensures Starts(i + 1) == Starts(i) + if i % 1024 == 0 then 1 else 0
    ensures i % 1024 == 0 ==> i == 1024 * Starts(i)
  {
  }

  lemma StartsAll(blocks: nat, n: nat)
    requires n == 1024 * blocks
    ensures Starts(0) == 0 && Starts(n) == blocks
  {
  }

  lemma BlockListsGrow(blocks: nat)
    ensures var a := BlockLists(blocks); a[MAX_ORDER := a[MAX_ORDER] + [1024 * blocks]] == BlockLists(blocks + 1)
  {
    var a := BlockLists(blocks);
    assert a[MAX_ORDER] + [1024 * blocks] == BlockLists(blocks + 1)[MAX_ORDER];
  }

  ghost function InitialState(blocks: nat): (r: State)
    ensures r == Initial(blocks) && Inv(r) && Quiet(r)
  {
    InitialInv(blocks);
    Initial(blocks)
  }

  /** INIT_LIST_HEAD on every list head. */
  method InitHeads(lists: ListMemory<Ptr>)
    modifies lists
    ensures Wired(lists.Words(), NoLists(AREAS), NoLists(CACHES))
  {
    ghost var none: seq<seq<Ptr>> := [];
    var i := 0;
    while i < AREAS
      invariant 0 <= i <= AREAS && |none| == i
      invariant forall k :: 0 <= k < i ==> none[k] == []
      invariant Family(lists.Words(), Heads()[..i], none)
    {
      FamilyNewHead(lists.Words(), Heads()[..i], none, AreaHead(i));
      lists.InitListHead(AreaHead(i));
      assert Heads()[..i] + [AreaHead(i)] == Heads()[..i + 1];
      none := none + [[]];
      i := i + 1;
    }
    i := 0;
    while i < CACHES
      invariant 0 <= i <= CACHES && |none| == AREAS + i
      invariant forall k :: 0 <= k < AREAS + i ==> none[k] == []
      invariant Family(lists.Words(), Heads()[..AREAS + i], none)
    {
      FamilyNewHead(lists.Words(), Heads()[..AREAS + i], none, CacheHead(i));
      lists.InitListHead(CacheHead(i));
      assert Heads()[..AREAS + i] + [CacheHead(i)] == Heads()[..AREAS + i + 1];
      none := none + [[]];
      i := i + 1;
    }
    assert Heads()[..AREAS + CACHES] == Heads();
    assert none == Contents(NoLists(AREAS), NoLists(CACHES));
  }

  lemma EmptyCaches(s: State, cache: seq<seq<nat>>)
    requires exists blocks: nat :: s == Initial(blocks)
    requires cache == NoLists(CACHES)
    ensures SlabInv(s, cache, {})
  {
  }

  lemma ReserveKeepsSlab(s: State, k: nat, i: nat, lo: nat, hi: nat, cache: seq<seq<nat>>, live: set<nat>)
    requires Inv(s) && Quiet(s) && SlabInv(s, cache, live) && k <= MAX_ORDER && i < |s.area[k]|
    requires !Clear(s.area[k][i], k, lo, hi)
    ensures !Inside(s.area[k][i], k, lo, hi) ==> 0 < k
    ensures SlabInv(if Inside(s.area[k][i], k, lo, hi) then ReserveBlock(s, k, i) else HalveBlock(s, k, i), cache, live)
  {
    ReserveStepEffect(s, k, i, lo, hi);
    SlabKept(s, if Inside(s.area[k][i], k, lo, hi) then ReserveBlock(s, k, i) else HalveBlock(s, k, i), cache, live);
  }

  /** Once a block is off its list, neither of its halves is on any list. */
  lemma HalfNodes(s: State, k: nat, i: nat)
    requires Inv(s) && 0 < k <= MAX_ORDER && i < |s.area[k]|
    ensures var h := s.area[k][i]; var half := Flip(h, k - 1);
            && h < |s.pages| && half < |s.pages| && half != h
            && (forall j :: 0 <= j < AREAS ==> h !in Grab(s, k, i).area[j])
            && (forall j :: 0 <= j < AREAS ==> half !in Grab(s, k, i).area[j])
  {
    GrabInv(s, k, i);
    var h := s.area[k][i];
    var g := Grab(s, k, i);
    SplitInv(g, h, k - 1);
    FlipHalves(h, k - 1);
    assert g.tags[Flip(h, k - 1)].kind == Limbo;
  }

  /** One reference less, in 32 bits. */
  function Dropped(refcount: nat): (r: nat)
    ensures if refcount == 0 then r == 0xffff_ffff else r == refcount - 1
  {
    if refcount == 0 then WORD32 - 1 else refcount - 1
  }

  /** The held block at `page` has order i, and halving it down to `order` leads to the state `goal`. */
  ghost predicate Splitting(st: State, page: nat, order: nat, i: nat, goal: State) {
    Inv(st) && HoldsOnly(st, page, i) && order <= i && SplitDown(st, page, order, i) == goal
  }

  class Allocator {
    const memMap: array<Page>
    const lists: ListMemory<Ptr>
    ghost var st: State
    ghost var cache: seq<seq<nat>>
    ghost var live: set<nat>

    /** The array and the link words represent the state `st` and the cache lists. */
    ghost predicate Backed()
      reads this, memMap, lists
    {
      memMap[..] == st.pages && Wired(lists.Words(), st.area, cache)
    }

    ghost predicate Valid()
      reads this, memMap, lists
    {
      Backed() && Inv(st) && Quiet(st) && SlabInv(st, cache, live)
    }

    /** mem_init over `blocks` blocks of 1024 pages, the kernel image ending at `kernelEnd`. */
    constructor MemInit(blocks: nat, kernelEnd: nat)
      requires kernelEnd < WORD64
      ensures Valid() && fresh(memMap) && fresh(lists) && memMap.Length == 1024 * blocks
      ensures st == Reserve(InitialState(blocks), FirstPage(0), PageLimit(0, kernelEnd))
      ensures kernelEnd + 4095 < 0x1_0000_0000_0000_0000 ==>
                forall y :: 0 <= y < memMap.Length ==> st.tags[y].kind == if 4096 * y < kernelEnd then Reserved
                    else Free
      ensures live == {} && forall c :: 0 <= c < CACHES ==> cache[c] == []
    {
      lists := new ListMemory<Ptr>();
      memMap := new Page[1024 * blocks];
      st := Initial(blocks);
      cache := NoLists(CACHES);
      live := {};
      new;
      InitHeads(lists);
      ghost var none: seq<nat> := [];
      assert NoLists(AREAS) == BlockLists(0) by {
        assert BlockLists(0)[MAX_ORDER] == none;
      }
      InitPages(blocks);
      assert BlockLists(blocks) == st.area;
      assert memMap[..] == st.pages;
      InitialInv(blocks);
      EmptyCaches(st, cache);
      ReserveMemory(0, kernelEnd);
    }

    /** The first n pages are as mem_init leaves them. */
    ghost predicate PagesReady(n: nat)
      reads memMap
    {
      n <= memMap.Length && forall j :: 0 <= j < n ==> memMap[j] == InitialPage(j)
    }

    /** The loop of mem_init over mem_map. */
    method InitPages(blocks: nat)
      requires memMap.Length == 1024 * blocks
      requires Wired(lists.Words(), BlockLists(0), cache) && cache == NoLists(CACHES)
      modifies memMap, lists
      ensures Wired(lists.Words(), BlockLists(blocks), cache) && PagesReady(1024 * blocks)
    {
      StartsAll(blocks, memMap.Length);
      var i := 0;
      while i < memMap.Length
        invariant 0 <= i <= memMap.Length
        invariant Wired(lists.Words(), BlockLists(Starts(i)), cache) && PagesReady(i)
      {
        InitPage(i);
        i := i + 1;
      }
    }

    method InitPage(i: nat)
      requires i < memMap.Length && Wired(lists.Words(), BlockLists(Starts(i)), cache) && PagesReady(i)
      modifies memMap, lists
      ensures Wired(lists.Words(), BlockLists(Starts(i + 1)), cache) && PagesReady(i + 1)
    {
      memMap[i] := memMap[i].(order := 0);
      memMap[i] := memMap[i].(used := 0);
      memMap[i] := memMap[i].(cacheidx := CACHE_UNALLOC);
      memMap[i] := memMap[i].(refcount := 0);
      StartsStep(i);
      if i % 1024 == 0 {
        memMap[i] := memMap[i].(order := MAX_ORDER);
      }
      LinkPage(i);
    }

    /** The list part of the loop body. */
    method LinkPage(i: nat)
      requires Wired(lists.Words(), BlockLists(Starts(i)), cache)
      modifies lists
      ensures Wired(lists.Words(), BlockLists(Starts(i + 1)), cache)
    {
      ghost var area := BlockLists(Starts(i));
      StartsStep(i);
      OffArea(area, cache, i);
      FamilyInit(lists.Words(), Heads(), Contents(area, cache), PageNode(i));
      lists.InitListHead(PageNode(i));
      if i % 1024 == 0 {
        BlockListsGrow(Starts(i));
        AreaAddTail(lists.Words(), area, cache, MAX_ORDER, i);
        lists.ListAddTail(PageNode(i), AreaHead(MAX_ORDER));
      }
    }

    function GetBuddy(pfn: nat, order: nat): nat {
      Flip(pfn, order)
    }

    method AllocPages(order: nat) returns (res: Option<nat>)
      requires Valid() && order < 0x8000_0000
      modifies this, memMap, lists
      ensures Valid() && cache == old(cache) && live == old(live)
      ensures (st, res) == Alloc(old(st), order)
    {
      var i := order;
      while i <= MAX_ORDER
        invariant order <= i && (order > MAX_ORDER || i <= MAX_ORDER + 1)
        invariant Valid() && st == old(st) && cache == old(cache) && live == old(live)
        invariant order <= MAX_ORDER ==> FirstOrder(st.area, i) == FirstOrder(st.area, order)
      {
        AreaNext(lists.Words(), st.area, cache, i);
        if !lists.ListEmpty(AreaHead(i)) {
          var page := TakeFromArea(order, i);
          SplitPage(page, order, i);
          AllocKeepsSlab(old(st), order, cache, live);
          AllocEffect(old(st), order);
          return Some(page);
        }
        i := i + 1;
      }
      return None;
    }

    /** The first half of the loop body of alloc_pages: unlink the block and mark it used. */
    method TakeFromArea(order: nat, i: nat) returns (page: nat)
      requires Backed() && Inv(st) && Quiet(st) && i <= MAX_ORDER && st.area[i] != []
      modifies this, memMap, lists
      ensures Backed() && cache == old(cache) && live == old(live)
      ensures page == old(st).area[i][0] && st == TakeFirst(old(st), order, i)
      ensures Inv(st) && HoldsOnly(st, page, i) && st.pages[page].order == order && st.pages[page].used == 1
    {
      TakeFirstEffect(st, order, i);
      AreaNext(lists.Words(), st.area, cache, i);
      page := lists.next[AreaHead(i)].pfn;
      GrabInv(st, i, 0);
      AreaRemove(lists.Words(), st.area, cache, i, 0);
      lists.ListDelInit(PageNode(page));
      memMap[page] := memMap[page].(order := order);
      memMap[page] := memMap[page].(used := 1);
      memMap[page] := memMap[page].(refcount := 1);
      st := TakeFirst(st, order, i);
    }

    /** The inner loop of alloc_pages: give the upper halves back until the order fits. */
    method SplitPage(page: nat, order: nat, start: nat)
      requires Backed() && Inv(st) && HoldsOnly(st, page, start) && order <= start <= MAX_ORDER
      requires page < |st.pages| && st.pages[page].order == order && st.pages[page].used == 1
      modifies this, memMap, lists
      ensures Backed() && cache == old(cache) && live == old(live)
      ensures page < |SplitDown(old(st), page, order, start).pages|
      ensures st == HandOut(SplitDown(old(st), page, order, start), page, order,
                SplitDown(old(st), page, order, start).pages[page], Allocated)
    {
      ghost var goal := SplitDown(st, page, order, start);
      FreeHalves(page, order, start, goal);
      st := HandOut(st, page, order, st.pages[page], Allocated);
    }

    /** The loop itself. */
    method FreeHalves(page: nat, order: nat, start: nat, ghost goal: State)
      requires Backed() && start <= MAX_ORDER && Splitting(st, page, order, start, goal)
      modifies this, memMap, lists
      ensures Backed() && cache == old(cache) && live == old(live)
      ensures st == goal && page < |st.pages|
    {
      var i := start;
      while i > order
        invariant order <= i <= start && Backed() && cache == old(cache) && live == old(live)
        invariant Splitting(st, page, order, i, goal)
      {
        i := i - 1;
        FreeHalf(page, i, order, goal);
      }
    }

    method FreeHalf(page: nat, k: nat, ghost order: nat, ghost goal: State)
      requires Backed() && order <= k && Splitting(st, page, order, k + 1, goal)
      modifies this, memMap, lists
      ensures Backed() && cache == old(cache) && live == old(live)
      ensures Splitting(st, page, order, k, goal)
    {
      SplitDownStep(st, page, order, k);
      FreeUpper(page, k);
    }

    method FreeUpper(page: nat, k: nat)
      requires Backed() && Inv(st) && HoldsOnly(st, page, k + 1)
      modifies this, memMap, lists
      ensures Backed() && cache == old(cache) && live == old(live)
      ensures st == FreeUpperHalf(old(st), page, k)
    {
      var buddy := GetBuddy(page, k);
      SplitStep(st, page, k);
      SplitInv(st, page, k);
      FlipHalves(page, k);
      NotListed(st, buddy);
      memMap[buddy] := memMap[buddy].(order := k);
      AreaAddFirst(lists.Words(), st.area, cache, k, buddy);
      lists.ListAdd(PageNode(buddy), AreaHead(k));
      st := FreeUpperHalf(st, page, k);
    }

    /** Take the page-aligned hull of [addr, addr + size) out of the free lists. */
    method ReserveMemory(addr: nat, size: nat)
      requires Valid() && addr < WORD64 && size < WORD64
      modifies this, memMap, lists
      ensures Valid() && cache == old(cache) && live == old(live)
      ensures st == Reserve(old(st), FirstPage(addr), PageLimit(addr, size))
      ensures ReservesBytes(old(st), st, addr, size)
    {
      ReservedBytes(st, addr, size);
      var start := addr / PAGE_SIZE * PAGE_SIZE;
      var end := (addr + size + PAGE_SIZE - 1) % WORD64 / PAGE_SIZE * PAGE_SIZE;
      ReserveAreas(start, end, FirstPage(addr), PageLimit(addr, size));
    }

    /** The outer loop of reserve_memory. */
    method ReserveAreas(start: nat, end: nat, ghost lo: nat, ghost hi: nat)
      requires Valid() && start == lo * PAGE_SIZE && end == hi * PAGE_SIZE
      modifies this, memMap, lists
      ensures Valid() && cache == old(cache) && live == old(live)
      ensures st == Reserve(old(st), lo, hi)
    {
      ghost var goal := Reserve(st, lo, hi);
      for order := MAX_ORDER + 1 downto 0
        invariant Valid() && cache == old(cache) && live == old(live)
        invariant goal == if order == 0 then st else ReserveDown(st, order - 1, lo, hi)
      {
        ReserveArea(order, start, end, lo, hi);
      }
    }

    /** One round of the outer loop of reserve_memory: list_for_each_safe over free_area[order]. */
    method ReserveArea(order: nat, start: nat, end: nat, ghost lo: nat, ghost hi: nat)
      requires Valid() && order <= MAX_ORDER && start == lo * PAGE_SIZE && end == hi * PAGE_SIZE
      modifies this, memMap, lists
      ensures Valid() && cache == old(cache) && live == old(live)
      ensures st == ReserveFrom(old(st), order, 0, lo, hi)
    {
      AreaNext(lists.Words(), st.area, cache, order);
      AreaCursor(lists.Words(), st.area, cache, order, 0);
      var pos := lists.next[AreaHead(order)];
      var tmp := lists.next[pos];
      ghost var i: nat := 0;
      while pos != AreaHead(order)
        invariant Valid() && cache == old(cache) && live == old(live) && i <= |st.area[order]|
        invariant pos == EntryAt(st.area[order], order, i)
        invariant i < |st.area[order]| ==> tmp == EntryAt(st.area[order], order, i + 1)
        invariant ReserveFrom(old(st), order, 0, lo, hi) == ReserveFrom(st, order, i, lo, hi)
        decreases |st.area[order]| - i
      {
        i := ReserveVisit(pos.pfn, order, start, end, i, lo, hi);
        AreaCursor(lists.Words(), st.area, cache, order, i);
        pos := tmp;
        tmp := lists.next[pos];
      }
    }

    /** The body of the inner loop of reserve_memory; `next` is where the cursor stands after it. */
    method ReserveVisit(curr: nat, order: nat, start: nat, end: nat, ghost i: nat, ghost lo: nat, ghost hi: nat)
        returns (ghost next: nat)
      requires Valid() && order <= MAX_ORDER && start == lo * PAGE_SIZE && end == hi * PAGE_SIZE
      requires i < |st.area[order]| && curr == st.area[order][i]
      modifies this, memMap, lists
      ensures Valid() && cache == old(cache) && live == old(live)
      ensures next <= |st.area[order]| && |st.area[order]| - next < |old(st).area[order]| - i
      ensures EntryAt(st.area[order], order, next) == EntryAt(old(st).area[order], order, i + 1)
      ensures ReserveFrom(old(st), order, i, lo, hi) == ReserveFrom(st, order, next, lo, hi)
    {
      var pageStart := curr * PAGE_SIZE;
      var pageEnd := pageStart + PAGE_SIZE * Pow2(order);
      if pageStart >= end || pageEnd <= start {
        assert Clear(curr, order, lo, hi);
        next := i + 1;
      } else {
        assert !Clear(curr, order, lo, hi);
        next := i;
        ReserveStepEffect(st, order, i, lo, hi);
        ReserveKeepsSlab(st, order, i, lo, hi, cache, live);
        if pageStart >= start && pageEnd <= end {
          assert Inside(curr, order, lo, hi);
          ReservePage(curr, order, i);
        } else {
          assert !Inside(curr, order, lo, hi);
          HalvePage(curr, order, i);
        }
      }
    }

    /** The body of reserve_memory for a block inside the range. */
    method ReservePage(curr: nat, order: nat, ghost i: nat)
      requires Backed() && Inv(st) && Quiet(st) && order <= MAX_ORDER && i < |st.area[order]|
                 && curr == st.area[order][i]
      modifies this, memMap, lists
      ensures Backed() && cache == old(cache) && live == old(live)
      ensures st == ReserveBlock(old(st), order, i)
    {
      GrabInv(st, order, i);
      AreaRemove(lists.Words(), st.area, cache, order, i);
      lists.ListDelInit(PageNode(curr));
      memMap[curr] := memMap[curr].(order := order);
      memMap[curr] := memMap[curr].(used := 1);
      st := ReserveBlock(st, order, i);
    }

    /** The body of reserve_memory for a block that straddles an end of the range. */
    method HalvePage(curr: nat, order: nat, ghost i: nat)
      requires Backed() && Inv(st) && Quiet(st) && 0 < order <= MAX_ORDER && i < |st.area[order]|
                 && curr == st.area[order][i]
      modifies this, memMap, lists
      ensures Backed() && cache == old(cache) && live == old(live)
      ensures st == HalveBlock(old(st), order, i)
    {
      var half := GetBuddy(curr, order - 1);
      HalfNodes(st, order, i);
      AreaRemove(lists.Words(), st.area, cache, order, i);
      lists.ListDelInit(PageNode(curr));
      memMap[curr] := memMap[curr].(order := order - 1);
      memMap[half] := memMap[half].(order := order - 1);
      ghost var area := Grab(st, order, i).area;
      AreaAddFirst(lists.Words(), area, cache, order - 1, curr);
      lists.ListAdd(PageNode(curr), AreaHead(order - 1));
      area := area[order - 1 := [curr] + area[order - 1]];
      AreaAddFirst(lists.Words(), area, cache, order - 1, half);
      lists.ListAdd(PageNode(half), AreaHead(order - 1));
      st := HalveBlock(st, order, i);
    }

    method FreePages(page: nat)
      requires Valid() && page < memMap.Length
      requires HeadOf(st.tags, page, memMap[page].order, Allocated) && memMap[page].cacheidx == CACHE_UNALLOC
      modifies this, memMap, lists
      ensures Valid() && cache == old(cache) && live == old(live)
      ensures st == FreeBlock(old(st), page)
    {
      FreeKeepsSlab(st, page, cache, live);
      FreeEffect(st, page, st.pages[page].order);
      var order := memMap[page].order;
      TakeBackEffect(st, page, order);
      st := TakeBack(st, page, order);
      Coalesce(page, order);
    }

    /** free_pages from its loop on. */
    method Coalesce(page: nat, start: nat)
      requires Backed() && Inv(st) && HoldsOnly(st, page, start) && start <= MAX_ORDER
      modifies this, memMap, lists
      ensures Backed() && cache == old(cache) && live == old(live)
      ensures st == MergeUp(old(st), page, start)
    {
      var current := page;
      var order := start;
      var merged := true;
      while merged && order < MAX_ORDER
        invariant order <= MAX_ORDER && Backed() && cache == old(cache) && live == old(live)
        invariant Inv(st) && HoldsOnly(st, current, order)
                    && MergeUp(st, current, order) == MergeUp(old(st), page, start)
        invariant !merged ==> order < MAX_ORDER && !BuddyLooksFree(st, current, order)
        decreases MAX_ORDER - order, merged
      {
        merged, current, order := MergeBuddy(current, order);
      }
      MergeUpStops(st, current, order);
      LinkFreed(current, order);
    }

    /** The body of the loop of free_pages; `merged` is false where it breaks. */
    method MergeBuddy(current: nat, order: nat) returns (merged: bool, current': nat, order': nat)
      requires Backed() && Inv(st) && HoldsOnly(st, current, order) && order < MAX_ORDER
      modifies this, lists
      ensures Backed() && cache == old(cache) && live == old(live)
      ensures Inv(st) && HoldsOnly(st, current', order')
      ensures merged ==> order' == order + 1
      ensures !merged ==> st == old(st) && current' == current && order' == order && !BuddyLooksFree(st, current, order)
      ensures MergeUp(st, current', order') == MergeUp(old(st), current, order)
    {
      current', order' := current, order;
      var buddy := GetBuddy(current, order);
      BuddyIsHead(st, current, order);
      if memMap[buddy].used != 0 || memMap[buddy].order != order {
        return false, current, order;
      }
      AbsorbEffect(st, current, order);
      assert buddy in st.area[order];
      AreaRemove(lists.Words(), st.area, cache, order, IndexOf(st.area[order], buddy));
      lists.ListDelInit(PageNode(buddy));
      if current > buddy {
        current' := buddy;
      }
      order' := order + 1;
      merged := true;
      st := Absorb(st, current, order);
    }

    /** The end of free_pages: clear the merged head's fields and link it. */
    method LinkFreed(current: nat, order: nat)
      requires Backed() && Inv(st) && HoldsOnly(st, current, order) && order <= MAX_ORDER
      modifies this, memMap, lists
      ensures Backed() && cache == old(cache) && live == old(live) && current < |old(st).pages|
      ensures st == Release(old(st), current, order, old(st).pages[current].(order := order, used := 0, refcount := 0))
    {
      NotListed(st, current);
      memMap[current] := memMap[current].(order := order);
      memMap[current] := memMap[current].(used := 0);
      memMap[current] := memMap[current].(refcount := 0);
      AreaAddFirst(lists.Words(), st.area, cache, order, current);
      lists.ListAdd(PageNode(current), AreaHead(order));
      st := Release(st, current, order, st.pages[current].(order := order, used := 0, refcount := 0));
    }

    /** get_page; the count is 32 bits wide. */
    method GetPage(page: nat)
      requires Valid() && page < memMap.Length
      modifies this, memMap
      ensures Valid() && cache == old(cache) && live == old(live)
      ensures st == SetPage(old(st), page,
                            old(st).pages[page].(refcount := (old(st).pages[page].refcount + 1) % WORD32))
    {
      ghost var to := st.pages[page].(refcount := (st.pages[page].refcount + 1) % WORD32);
      TouchPage(st, page, to);
      SlabKept(st, SetPage(st, page, to), cache, live);
      memMap[page] := memMap[page].(refcount := (memMap[page].refcount + 1) % WORD32);
      st := SetPage(st, page, to);
    }

    /** put_page: the page is freed when its count reaches zero. */
    method PutPage(page: nat)
      requires Valid() && page < memMap.Length
      requires memMap[page].refcount == 1 ==>
                 HeadOf(st.tags, page, memMap[page].order, Allocated) && memMap[page].cacheidx == CACHE_UNALLOC
      modifies this, memMap, lists
      ensures Valid() && cache == old(cache) && live == old(live)
      ensures var count := Dropped(old(st).pages[page].refcount);
              var s := SetPage(old(st), page, old(st).pages[page].(refcount := count));
              if count != 0 then st == s
              else
                && Inv(s) && Quiet(s) && page < |s.pages|
                && HeadOf(s.tags, page, s.pages[page].order, Allocated) && st == FreeBlock(s, page)
    {
      ghost var to := st.pages[page].(refcount := Dropped(st.pages[page].refcount));
      TouchPage(st, page, to);
      SlabKept(st, SetPage(st, page, to), cache, live);
      memMap[page] := memMap[page].(refcount := Dropped(memMap[page].refcount));
      st := SetPage(st, page, to);
      if memMap[page].refcount == 0 {
        FreePages(page);
      }
    }

    /** kmem_cache_alloc: hand out the first free slot of cache `index`, after cutting up a new
        page when there is none. */
    method KmemCacheAlloc(index: nat) returns (obj: nat)
      requires Valid() && index <= CACHE_MAX_INDEX
      requires cache[index] == [] ==> FirstOrder(st.area, 0) <= MAX_ORDER
      modifies this, memMap, lists
      ensures Valid() && Slot(st, obj, index)
      ensures obj !in old(live) && live == old(live) + {obj}
      ensures old(cache[index]) != [] ==> st == old(st) && obj == old(cache[index][0])
      ensures old(cache[index]) == [] ==> CacheGrown(old(st), st, index)
      ensures forall c :: 0 <= c < CACHES && c != index ==> cache[c] == old(cache[c])
    {
      CacheNext(lists.Words(), st.area, cache, index);
      if lists.ListEmpty(CacheHead(index)) {
        RefillCache(index);
      }
      CacheNext(lists.Words(), st.area, cache, index);
      obj := lists.next[CacheHead(index)].addr;
      SlabTake(st, index, cache, live);
      CacheRemoveFirst(lists.Words(), st.area, cache, index);
      lists.ListDelInit(ObjectNode(obj));
      cache, live := cache[index := cache[index][1..]], live + {obj};
    }

    /** The part of kmem_cache_alloc that fills an empty cache from a new page. */
    method RefillCache(index: nat)
      requires Valid() && index <= CACHE_MAX_INDEX && cache[index] == [] && FirstOrder(st.area, 0) <= MAX_ORDER
      modifies this, memMap, lists
      ensures Valid() && live == old(live) && cache[index] != []
      ensures CacheGrown(old(st), st, index)
      ensures forall c :: 0 <= c < CACHES && c != index ==> cache[c] == old(cache[c])
    {
      AllocEffect(st, 0);
      var res := AllocPages(0);
      var page := res.value;
      NewPageFresh(old(st), st, page, cache, live);
      AdoptPage(page, index);
    }

    method AdoptPage(page: nat, index: nat)
      requires Valid() && index <= CACHE_MAX_INDEX && cache[index] == []
      requires page < |st.pages| && st.tags[page] == Tag(0, Allocated) && st.pages[page].cacheidx == CACHE_UNALLOC
      requires forall c, a :: 0 <= c < CACHES && a in cache[c] ==> a / PAGE_SIZE != page
      modifies this, memMap, lists
      ensures Valid() && live == old(live) && cache[index] != []
      ensures st == SetPage(old(st), page, old(st).pages[page].(cacheidx := index))
      ensures forall c :: 0 <= c < CACHES && c != index ==> cache[c] == old(cache[c])
    {
      memMap[page] := memMap[page].(cacheidx := index);
      ghost var to := st.pages[page].(cacheidx := index);
      TouchPage(st, page, to);
      st := SetPage(st, page, to);
      CutPage(page, index);
      SlabRefill(old(st), page, index, old(cache), cache[index], live);
      SlotsOfPage(page, index);
      assert page * PAGE_SIZE in cache[index];
    }

    /** The loop that links every slot of a page on its cache. */
    method CutPage(page: nat, index: nat)
      requires Backed() && index <= CACHE_MAX_INDEX && cache[index] == []
      requires forall c, a :: 0 <= c < CACHES && a in cache[c] ==> a / PAGE_SIZE != page
      modifies this, lists
      ensures Backed() && st == old(st) && live == old(live)
      ensures cache == old(cache)[index := cache[index]] && Distinct(cache[index])
      ensures forall a: nat :: a in cache[index] <==> a / PAGE_SIZE == page && Aligned(a, index + 5)
    {
      var pageAddr := page * PAGE_SIZE;
      var cacheSize := CacheSize(index);
      PageAligned(page, index);
      var i := 0;
      while i < PAGE_SIZE
        invariant 0 <= i && Aligned(pageAddr + i, index + 5)
        invariant Backed() && st == old(st) && live == old(live)
        invariant cache == old(cache)[index := cache[index]] && Distinct(cache[index])
        invariant forall a: nat :: a in cache[index] <==>
                    a / PAGE_SIZE == page && a < pageAddr + i && Aligned(a, index + 5)
      {
        AlignedStep(pageAddr + i, index + 5);
        LinkSlot(pageAddr + i, index);
        i := i + cacheSize;
      }
    }

    /** The body of that loop. */
    method LinkSlot(obj: nat, index: nat)
      requires Backed() && index <= CACHE_MAX_INDEX && forall c :: 0 <= c < CACHES ==> obj !in cache[c]
      requires Distinct(cache[index])
      modifies this, lists
      ensures Backed() && st == old(st) && live == old(live)
      ensures cache == old(cache)[index := old(cache)[index] + [obj]] && Distinct(cache[index])
    {
      CacheInit(lists.Words(), st.area, cache, obj);
      lists.InitListHead(ObjectNode(obj));
      CacheAddTail(lists.Words(), st.area, cache, index, obj);
      lists.ListAddTail(ObjectNode(obj), CacheHead(index));
      cache := cache[index := cache[index] + [obj]];
    }

    /** kmem_cache_free: the slot goes back to the cache its page belongs to. */
    method KmemCacheFree(ptr: nat)
      requires Valid() && ptr in live && ptr / PAGE_SIZE < memMap.Length
      modifies this, lists
      ensures Valid() && st == old(st) && live == old(live) - {ptr}
      ensures var c := CacheOf(st, ptr); c < CACHES && cache == old(cache)[c := old(cache)[c] + [ptr]]
    {
      SlabGive(st, ptr, cache, live);
      var c := memMap[ptr / PAGE_SIZE].cacheidx;
      CacheAddTail(lists.Words(), st.area, cache, c, ptr);
      CacheNext(lists.Words(), st.area, cache, c);
      lists.ListAddTail(ObjectNode(ptr), CacheHead(c));
      cache, live := cache[c := cache[c] + [ptr]], live - {ptr};
    }

    /** kmalloc: page runs above 2048 bytes, slots of the smallest fitting cache below. */
    method Kmalloc(size: nat) returns (res: Option<nat>)
      requires Valid() && size <= PAGE_SIZE * 1024
      requires forall k: nat :: OrderFor(size, k) ==> k <= MAX_ORDER && FirstOrder(st.area, k) <= MAX_ORDER
      requires forall c: nat :: ClassFor(size, c) ==> cache[c] != [] || FirstOrder(st.area, 0) <= MAX_ORDER
      modifies this, memMap, lists
      ensures Valid() && (res.None? <==> size == 0)
                && (size == 0 ==> st == old(st) && live == old(live) && cache == old(cache))
      ensures size > 2048 ==> RunServed(old(st), st, size, res.value) && live == old(live) && cache == old(cache)
      ensures 0 < size <= 2048 ==> SlotServed(old(st), st, size, res.value)
      ensures 0 < size <= 2048 ==> res.value !in old(live) && live == old(live) + {res.value}
    {
      if size == 0 {
        return None;
      }
      PowTwelve();
      if size > CacheSize(CACHE_MAX_INDEX) {
        var order := LeastOrder(size);
        AllocEffect(st, order);
        var page := AllocPages(order);
        RunIsServed(old(st), st, size, order, page.value);
        return Some(page.value * PAGE_SIZE);
      } else {
        var index := LeastClass(size);
        var obj := KmemCacheAlloc(index);
        return Some(obj);
      }
    }

    /** kfree: a pointer into an ordinary page is ignored unless it is a page address. */
    method Kfree(ptr: nat)
      requires Valid() && ptr / PAGE_SIZE < memMap.Length
      requires ptr in live || memMap[ptr / PAGE_SIZE].cacheidx == CACHE_UNALLOC
      requires memMap[ptr / PAGE_SIZE].cacheidx == CACHE_UNALLOC && ptr % PAGE_SIZE == 0 ==>
                 HeadOf(st.tags, ptr / PAGE_SIZE, memMap[ptr / PAGE_SIZE].order, Allocated)
      modifies this, memMap, lists
      ensures Valid()
      ensures ptr in old(live) ==> st == old(st) && live == old(live) - {ptr}
      ensures ptr in old(live) ==> CacheOf(st, ptr) < CACHES
      ensures ptr in old(live) ==> cache == old(cache)[CacheOf(st, ptr) := old(cache)[CacheOf(st, ptr)] + [ptr]]
      ensures ptr !in old(live) ==> cache == old(cache) && live == old(live)
      ensures ptr !in old(live) ==> st == if ptr % PAGE_SIZE == 0 then FreeBlock(old(st), ptr / PAGE_SIZE) else old(st)
    {
      var page := ptr / PAGE_SIZE;
      if ptr in live {
        assert Slot(st, ptr, CacheOf(st, ptr));
      }
      if memMap[page].cacheidx == CACHE_UNALLOC {
        if ptr % PAGE_SIZE != 0 {
          return;
        }
        FreePages(page);
      } else {
        KmemCacheFree(ptr);
      }
    }
  }

  /** The loops by which kmalloc finds the order and the cache index. */
  method LeastOrder(size: nat) returns (order: nat)
    requires 2048 < size <= PAGE_SIZE * 1024
    ensures OrderFor(size, order) && order <= MAX_ORDER
  {
    PowTen();
    order := 0;
    while PAGE_SIZE * Pow2(order) < size
      invariant order <= MAX_ORDER && (order > 0 ==> PAGE_SIZE * Pow2(order - 1) < size)
      decreases MAX_ORDER - order
    {
      order := order + 1;
    }
  }

  method LeastClass(size: nat) returns (index: nat)
    requires 0 < size <= 2048
    ensures ClassFor(size, index)
  {
    PowTwelve();
    index := 0;
    while CacheSize(index) < size
      invariant index <= CACHE_MAX_INDEX && (index > 0 ==> CacheSize(index - 1) < size)
      decreases CACHE_MAX_INDEX - index
    {
      index := index + 1;
    }
  }

  /** The least order whose run holds `size` bytes, for a size served by whole pages. */
  predicate OrderFor(size: nat, k: nat) {
    size > 2048 && size <= PAGE_SIZE * Pow2(k) && (k > 0 ==> PAGE_SIZE * Pow2(k - 1) < size)
  }

  /** The smallest cache whose slots hold `size` bytes. */
  predicate ClassFor(size: nat, c: nat) {
    0 < size <= 2048 && c <= CACHE_MAX_INDEX && size <= CacheSize(c) && (c > 0 ==> CacheSize(c - 1) < size)
  }

  /** The address a starts the run that alloc_pages gives for the least fitting order. */
  ghost predicate RunServed(s: State, r: State, size: nat, a: nat)
    requires Inv(s) && Quiet(s)
  {
    exists k: nat :: OrderFor(size, k) && k <= MAX_ORDER && a % PAGE_SIZE == 0
        && Alloc(s, k) == (r, Some(a / PAGE_SIZE))
  }

  lemma RunIsServed(s: State, r: State, size: nat, k: nat, p: nat)
    requires Inv(s) && Quiet(s) && OrderFor(size, k) && k <= MAX_ORDER && Alloc(s, k) == (r, Some(p))
    ensures RunServed(s, r, size, p * PAGE_SIZE)
  {
    assert p * PAGE_SIZE / PAGE_SIZE == p && p * PAGE_SIZE % PAGE_SIZE == 0;
  }

  /** The address a is a slot of the smallest fitting cache. */
  ghost predicate SlotServed(s: State, r: State, size: nat, a: nat)
    requires Inv(s) && Quiet(s)
  {
    exists c: nat :: ClassFor(size, c) && Slot(r, a, c) && (r == s || CacheGrown(s, r, c))
  }

  /** A free page of the state s has become a page of cache c in the state r. */
  ghost predicate CacheGrown(s: State, r: State, c: nat)
    requires Inv(s) && Quiet(s)
  {
    var (m, res) := Alloc(s, 0);
    res.Some? && res.value < |m.pages| && r == SetPage(m, res.value, m.pages[res.value].(cacheidx := c))
  }

  lemma NewPageFresh(s: State, r: State, p: nat, cache: seq<seq<nat>>, live: set<nat>)
    requires Inv(s) && Quiet(s) && SlabInv(s, cache, live) && (r, Some(p)) == Alloc(s, 0)
    ensures p < |r.pages| && r.tags[p] == Tag(0, Allocated) && r.pages[p].cacheidx == CACHE_UNALLOC
    ensures forall c, a :: 0 <= c < CACHES && a in cache[c] ==> a / PAGE_SIZE != p
  {
    AllocEffect(s, 0);
    assert Pow2(0) == 1;
    assert s.tags[p].kind == Free;
    assert CachePage(s, p) || s.pages[p].cacheidx == CACHE_UNALLOC;
    forall c, a: nat | 0 <= c < CACHES && a in cache[c]
      ensures a / PAGE_SIZE != p
    {
      assert Slot(s, a, c);
    }
  }

  lemma SlotsOfPage(page: nat, index: nat)
    requires index <= CACHE_MAX_INDEX
    ensures page * PAGE_SIZE / PAGE_SIZE == page && Aligned(page * PAGE_SIZE, index + 5)
  {
    PageAligned(page, index);
  }

  ghost predicate BuddyLooksFree(s: State, h: nat, k: nat) {
    var b := Flip(h, k);
    b < |s.pages| && s.pages[b].used == 0 && s.pages[b].order == k
  }

  lemma MergeUpStops(s: State, h: nat, k: nat)
    requires Inv(s) && HoldsOnly(s, h, k) && k <= MAX_ORDER
    requires k < MAX_ORDER ==> !BuddyLooksFree(s, h, k)
    ensures MergeUp(s, h, k) == Release(s, h, k, s.pages[h].(order := k, used := 0, refcount := 0))
  {
    if k < MAX_ORDER {
      BuddyIsHead(s, h, k);
    }
  }

  lemma NotListed(s: State, x: nat)
    requires Inv(s) && x < |s.tags| && s.tags[x].kind != Free
    ensures forall j :: 0 <= j < AREAS ==> x !in s.area[j]
  {
  }

  lemma AllocKeepsSlab(s: State, order: nat, cache: seq<seq<nat>>, live: set<nat>)
    requires Inv(s) && Quiet(s) && SlabInv(s, cache, live) && order <= MAX_ORDER
    ensures SlabInv(Alloc(s, order).0, cache, live)
  {
    AllocEffect(s, order);
    var (r, res) := Alloc(s, order);
    if res.Some? {
      RunInMemoryOfHead(s, r, res.value, order);
      SlabKept(s, r, cache, live);
    }
  }

  lemma RunInMemoryOfHead(s: State, r: State, p: nat, order: nat)
    requires Inv(s) && Inv(r) && order <= MAX_ORDER && p < |s.tags| && Aligned(p, order)
    ensures forall y: nat :: SameBlock(p, y, order) <==> p <= y < p + Pow2(order)
  {
    RunInMemory(p, order, |s.tags|);
  }

  /** The freed page is no cache page, so no page of its block is. */
  lemma FreeKeepsSlab(s: State, h: nat, cache: seq<seq<nat>>, live: set<nat>)
    requires Inv(s) && Quiet(s) && SlabInv(s, cache, live)
    requires h < |s.pages| && HeadOf(s.tags, h, s.pages[h].order, Allocated) && s.pages[h].cacheidx == CACHE_UNALLOC
    ensures SlabInv(FreeBlock(s, h), cache, live)
  {
    var k := s.pages[h].order;
    FreeEffect(s, h, k);
    forall f: nat | f < |s.pages| && CachePage(s, f)
      ensures !SameBlock(h, f, k)
    {
      if SameBlock(h, f, k) {
        BlockTag(s, h, f);
        OneHead(h, f, 0);
      }
    }
    SlabKept(s, FreeBlock(s, h), cache, live);
  }
}
