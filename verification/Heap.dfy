/** What kmalloc and kfree of src/mm.c promise their callers, over every run of requests. */
module Heap {
  import opened Common
  import opened Blocks
  import opened Buddy
  import opened Slab
  import opened Mm

  /** The allocator, and what its callers know: the addresses they hold and the sizes they asked for. */
  datatype HeapState = HeapState(st: Buddy.State, cache: seq<seq<nat>>, live: set<nat>, sizes: map<nat, nat>)

  /** The address a serves a request of n bytes: above 2048 bytes it is a page run of the least order
      that fits, otherwise a slot of the smallest cache that fits. */
  predicate Serves(s: Buddy.State, live: set<nat>, a: nat, n: nat) {
    && a / PAGE_SIZE < |s.pages| == |s.tags|
    && if n > 2048 then RunServes(s, a, n) else SlotServes(s, live, a, n)
  }

  predicate RunServes(s: Buddy.State, a: nat, n: nat)
    requires a / PAGE_SIZE < |s.pages| == |s.tags|
  {
    var f := a / PAGE_SIZE;
    && a % PAGE_SIZE == 0 && s.pages[f].cacheidx == CACHE_UNALLOC
    && HeadOf(s.tags, f, s.tags[f].ord, Allocated) && OrderFor(n, s.tags[f].ord)
  }

  predicate SlotServes(s: Buddy.State, live: set<nat>, a: nat, n: nat)
    requires a / PAGE_SIZE < |s.pages| == |s.tags|
  {
    a in live && Slot(s, a, CacheOf(s, a)) && ClassFor(n, CacheOf(s, a))
  }

  ghost predicate Sound(h: HeapState) {
    Inv(h.st) && Quiet(h.st) && SlabInv(h.st, h.cache, h.live)
  }

  /** Every address held serves its request. */
  ghost predicate AllServed(h: HeapState) {
    Sound(h) && forall a :: a in h.sizes ==> Serves(h.st, h.live, a, h.sizes[a])
  }

  // --- what this means for the callers

  ghost function RegionOf(h: HeapState, a: nat): Region
    requires a in h.sizes
  {
    if h.sizes[a] > 2048 then Run(a / PAGE_SIZE) else LiveSlot(a)
  }

  lemma OwnedRegion(h: HeapState, a: nat)
    requires AllServed(h) && a in h.sizes
    ensures Owned(h.st, h.cache, h.live, RegionOf(h, a)) && Start(RegionOf(h, a)) == a
    ensures h.sizes[a] <= Size(h.st, h.cache, h.live, RegionOf(h, a))
  {
    assert Serves(h.st, h.live, a, h.sizes[a]);
  }

  /** The bytes asked for in two requests do not overlap. */
  lemma RequestsApart(h: HeapState, a: nat, b: nat)
    requires AllServed(h) && a in h.sizes && b in h.sizes && a != b
    ensures a + h.sizes[a] <= b || b + h.sizes[b] <= a
  {
    OwnedRegion(h, a);
    OwnedRegion(h, b);
    RegionsApart(h.st, h.cache, h.live, RegionOf(h, a), RegionOf(h, b));
  }

  /** Whatever is held can be given back to kfree. */
  ghost predicate Freeable(s: Buddy.State, live: set<nat>, a: nat) {
    && a / PAGE_SIZE < |s.pages| == |s.tags|
    && (a in live || s.pages[a / PAGE_SIZE].cacheidx == CACHE_UNALLOC)
    && (s.pages[a / PAGE_SIZE].cacheidx == CACHE_UNALLOC && a % PAGE_SIZE == 0 ==>
          HeadOf(s.tags, a / PAGE_SIZE, s.pages[a / PAGE_SIZE].order, Allocated))
  }

  lemma HeldIsFreeable(h: HeapState, a: nat)
    requires AllServed(h) && a in h.sizes
    ensures Freeable(h.st, h.live, a) && (a in h.live <==> h.sizes[a] <= 2048)
  {
    assert Serves(h.st, h.live, a, h.sizes[a]);
    if h.sizes[a] > 2048 {
      FreeEffect(h.st, a / PAGE_SIZE, h.st.tags[a / PAGE_SIZE].ord);
    }
  }

  // --- one request

  /** The contract of kmalloc. */
  ghost predicate Mallocs(h: HeapState, n: nat, res: Option<nat>, r: HeapState)
    requires Sound(h)
  {
    && Sound(r) && (res.None? <==> n == 0)
    && (n == 0 ==> r == h)
    && (n > 2048 ==> RunServed(h.st, r.st, n, res.value) && r.live == h.live)
    && (0 < n <= 2048 ==>
          SlotServed(h.st, r.st, n, res.value) && res.value !in h.live && r.live == h.live + {res.value})
    && (n > 0 ==> r.sizes == h.sizes[res.value := n])
  }

  /** The contract of kfree, for an address that is held. */
  ghost predicate Frees(h: HeapState, a: nat, r: HeapState)
    requires Sound(h)
  {
    && Sound(r) && a in h.sizes && r.sizes == h.sizes - {a}
    && if a in h.live then r.st == h.st && r.live == h.live - {a}
       else
         && a / PAGE_SIZE < |h.st.pages| && HeadOf(h.st.tags, a / PAGE_SIZE, h.st.pages[a / PAGE_SIZE].order, Allocated)
         && r.st == FreeBlock(h.st, a / PAGE_SIZE) && r.live == h.live
  }

  /** Nothing about page f changes. */
  predicate SamePage(s: Buddy.State, r: Buddy.State, f: nat) {
    && |r.pages| == |s.pages| == |r.tags| == |s.tags| && f < |s.pages|
    && r.pages[f] == s.pages[f] && r.tags[f] == s.tags[f]
  }

  lemma StillServes(s: Buddy.State, r: Buddy.State, live: set<nat>, live': set<nat>, a: nat, n: nat)
    requires Serves(s, live, a, n) && SamePage(s, r, a / PAGE_SIZE) && (a in live ==> a in live')
    ensures Serves(r, live', a, n)
  {
  }

  /** The page of an address held is allocated. */
  lemma HeldPage(h: HeapState, a: nat)
    requires AllServed(h) && a in h.sizes
    ensures a / PAGE_SIZE < |h.st.tags| && h.st.tags[a / PAGE_SIZE].kind == Allocated
  {
    assert Serves(h.st, h.live, a, h.sizes[a]);
    if h.sizes[a] <= 2048 {
      assert CachePage(h.st, a / PAGE_SIZE);
    }
  }

  /** alloc_pages changes no allocated page, and gives a page run that serves its size. */
  lemma RunGiven(s: Buddy.State, cache: seq<seq<nat>>, live: set<nat>, k: nat, r: Buddy.State, p: nat)
    requires Inv(s) && Quiet(s) && SlabInv(s, cache, live) && k <= MAX_ORDER && Alloc(s, k) == (r, Option.Some(p))
    ensures forall f :: 0 <= f < |s.tags| && s.tags[f].kind == Allocated ==> SamePage(s, r, f)
    ensures p < |s.tags| && s.tags[p].kind == Free && HeadOf(r.tags, p, k, Allocated)
    ensures p < |r.pages| && r.pages[p].cacheidx == CACHE_UNALLOC
  {
    AllocEffect(s, k);
    forall f | 0 <= f < |s.tags| && s.tags[f].kind == Allocated
      ensures SamePage(s, r, f)
    {
      BlockIsRun(p, f, k);
    }
    assert Pow2(k) >= 1;
    assert CachePage(s, p) || s.pages[p].cacheidx == CACHE_UNALLOC;
  }

  /** A request served by a page run. */
  lemma RunMalloced(h: HeapState, n: nat, a: nat, r: HeapState)
    requires AllServed(h) && n > 2048 && Mallocs(h, n, Some(a), r)
    ensures a !in h.sizes && AllServed(r)
  {
    var k: nat :| OrderFor(n, k) && k <= MAX_ORDER && a % PAGE_SIZE == 0
        && Alloc(h.st, k) == (r.st, Some(a / PAGE_SIZE));
    RunGiven(h.st, h.cache, h.live, k, r.st, a / PAGE_SIZE);
    if a in h.sizes {
      HeldPage(h, a);
      assert false;
    }
    forall b | b in h.sizes
      ensures Serves(r.st, r.live, b, h.sizes[b])
    {
      HeldPage(h, b);
      StillServes(h.st, r.st, h.live, r.live, b, h.sizes[b]);
    }
  }

  /** A slot cut from a new page, or taken from the list, leaves all other pages alone. */
  lemma SlotGiven(h: HeapState, n: nat, a: nat, r: HeapState)
    requires AllServed(h) && 0 < n <= 2048 && Mallocs(h, n, Some(a), r)
    ensures Serves(r.st, r.live, a, n)
    ensures forall f :: 0 <= f < |h.st.tags| && h.st.tags[f].kind == Allocated ==> SamePage(h.st, r.st, f)
  {
    var c: nat :| ClassFor(n, c) && Slot(r.st, a, c) && (r.st == h.st || CacheGrown(h.st, r.st, c));
    if r.st != h.st {
      var (m, page) := Alloc(h.st, 0);
      RunGiven(h.st, h.cache, h.live, 0, m, page.value);
    }
  }

  lemma SlotMalloced(h: HeapState, n: nat, a: nat, r: HeapState)
    requires AllServed(h) && 0 < n <= 2048 && Mallocs(h, n, Some(a), r)
    ensures a !in h.sizes && AllServed(r)
  {
    SlotGiven(h, n, a, r);
    if a in h.sizes {
      HeldPage(h, a);
      assert false;
    }
    forall b | b in h.sizes
      ensures Serves(r.st, r.live, b, h.sizes[b])
    {
      HeldPage(h, b);
      StillServes(h.st, r.st, h.live, r.live, b, h.sizes[b]);
    }
  }

  /** kmalloc serves the request, gives an address nobody holds, and every other address held still
      serves its own request. */
  lemma MallocServes(h: HeapState, n: nat, res: Option<nat>, r: HeapState)
    requires AllServed(h) && Mallocs(h, n, res, r)
    ensures AllServed(r) && (n > 0 ==> res.value !in h.sizes && Serves(r.st, r.live, res.value, n))
  {
    if n > 2048 {
      RunMalloced(h, n, res.value, r);
    } else if n > 0 {
      SlotMalloced(h, n, res.value, r);
    }
    assert n > 0 ==> res.value in r.sizes;
  }

  /** Freeing one page run changes no page that another address held lies in. */
  lemma RunFreed(h: HeapState, a: nat, b: nat)
    requires AllServed(h) && a in h.sizes && b in h.sizes && a != b && h.sizes[a] > 2048
    ensures Freeable(h.st, h.live, a) && SamePage(h.st, FreeBlock(h.st, a / PAGE_SIZE), b / PAGE_SIZE)
  {
    HeldIsFreeable(h, a);
    HeldPage(h, b);
    assert Serves(h.st, h.live, a, h.sizes[a]) && Serves(h.st, h.live, b, h.sizes[b]);
    var f, g := a / PAGE_SIZE, b / PAGE_SIZE;
    var k := h.st.pages[f].order;
    FreeEffect(h.st, f, k);
    if SameBlock(f, g, k) {
      BlockTag(h.st, f, g);
      OneHead(f, g, if h.sizes[b] > 2048 then k else 0);
      assert false;
    }
  }

  /** kfree takes the address from those held, and every other one still serves its request. */
  lemma FreeServes(h: HeapState, a: nat, r: HeapState)
    requires AllServed(h) && Frees(h, a, r)
    ensures AllServed(r)
  {
    HeldIsFreeable(h, a);
    forall b | b in r.sizes
      ensures Serves(r.st, r.live, b, r.sizes[b])
    {
      assert Serves(h.st, h.live, b, h.sizes[b]);
      if h.sizes[a] > 2048 {
        RunFreed(h, a, b);
      }
    }
  }

  // --- runs

  datatype Request = Malloc(size: nat) | Release(a: nat)

  /** The answers of the allocator lead from each state to the next. */
  ghost predicate IsRun(trace: seq<HeapState>, requests: seq<Request>) {
    |trace| == |requests| + 1 && forall i :: 0 <= i < |requests| ==> Answers(trace[i], requests[i], trace[i + 1])
  }

  ghost predicate Answers(h: HeapState, request: Request, r: HeapState) {
    Sound(h) ==>
      match request
      case Malloc(n) => exists res :: Mallocs(h, n, res, r)
      case Release(a) => Frees(h, a, r)
  }

  lemma AnswerServes(h: HeapState, request: Request, r: HeapState)
    requires AllServed(h) && Answers(h, request, r)
    ensures AllServed(r)
    ensures forall b :: b in h.sizes && request != Release(b) ==> b in r.sizes && r.sizes[b] == h.sizes[b]
  {
    match request
    case Malloc(n) =>
      var res :| Mallocs(h, n, res, r);
      MallocServes(h, n, res, r);
    case Release(a) =>
      FreeServes(h, a, r);
  }

  /** At every moment of every run each address held serves the request it was given for. */
  lemma {:induction false} RunServesAll(trace: seq<HeapState>, requests: seq<Request>, i: nat)
    requires IsRun(trace, requests) && i <= |requests| && AllServed(trace[0])
    ensures AllServed(trace[i])
  {
    if i > 0 {
      RunServesAll(trace, requests, i - 1);
      RunAnswer(trace, requests, i - 1);
    }
  }

  lemma RunAnswer(trace: seq<HeapState>, requests: seq<Request>, i: nat)
    requires IsRun(trace, requests) && i < |requests| && AllServed(trace[i])
    ensures AllServed(trace[i + 1])
    ensures forall b :: b in trace[i].sizes && requests[i] != Release(b) ==>
              b in trace[i + 1].sizes && trace[i + 1].sizes[b] == trace[i].sizes[b]
  {
    AnswerServes(trace[i], requests[i], trace[i + 1]);
  }

  /** At every moment of every run no two requests overlap. */
  lemma RunKeepsApart(trace: seq<HeapState>, requests: seq<Request>, i: nat, a: nat, b: nat)
    requires IsRun(trace, requests) && i <= |requests| && AllServed(trace[0])
    requires a in trace[i].sizes && b in trace[i].sizes && a != b
    ensures a + trace[i].sizes[a] <= b || b + trace[i].sizes[b] <= a
  {
    RunServesAll(trace, requests, i);
    RequestsApart(trace[i], a, b);
  }

  /** What was given stays held, for the size asked, until it is freed. */
  lemma {:induction false} HeldUntilFreed(trace: seq<HeapState>, requests: seq<Request>, i: nat, j: nat, a: nat)
    requires IsRun(trace, requests) && i <= j <= |requests| && AllServed(trace[0])
    requires a in trace[i].sizes && forall k :: i <= k < j ==> requests[k] != Release(a)
    ensures a in trace[j].sizes && trace[j].sizes[a] == trace[i].sizes[a]
    decreases j - i
  {
    if i < j {
      HeldUntilFreed(trace, requests, i, j - 1, a);
      RunServesAll(trace, requests, j - 1);
      RunAnswer(trace, requests, j - 1);
    }
  }

  // --- the code

  ghost function View(mm: Allocator, sizes: map<nat, nat>): HeapState
    reads mm
  {
    HeapState(mm.st, mm.cache, mm.live, sizes)
  }

  /** A call of kmalloc by a caller who keeps `sizes`. */
  method CallKmalloc(mm: Allocator, n: nat, ghost sizes: map<nat, nat>)
      returns (res: Option<nat>, ghost sizes': map<nat, nat>)
    requires mm.Valid() && AllServed(View(mm, sizes)) && n <= PAGE_SIZE * 1024
    requires forall k: nat :: OrderFor(n, k) ==> k <= MAX_ORDER && FirstOrder(mm.st.area, k) <= MAX_ORDER
    requires forall c: nat :: ClassFor(n, c) ==> mm.cache[c] != [] || FirstOrder(mm.st.area, 0) <= MAX_ORDER
    modifies mm, mm.memMap, mm.lists
    ensures mm.Valid() && Mallocs(old(View(mm, sizes)), n, res, View(mm, sizes')) && AllServed(View(mm, sizes'))
    ensures n > 0 ==> res.Some? && res.value !in sizes && sizes' == sizes[res.value := n]
    ensures n == 0 ==> res.None? && sizes' == sizes
  {
    ghost var h := View(mm, sizes);
    res := mm.Kmalloc(n);
    sizes' := if res.Some? then sizes[res.value := n] else sizes;
    MallocServes(h, n, res, View(mm, sizes'));
  }

  /** A call of kfree for an address the caller holds. */
  method CallKfree(mm: Allocator, a: nat, ghost sizes: map<nat, nat>) returns (ghost sizes': map<nat, nat>)
    requires mm.Valid() && AllServed(View(mm, sizes)) && a in sizes
    modifies mm, mm.memMap, mm.lists
    ensures mm.Valid() && Frees(old(View(mm, sizes)), a, View(mm, sizes')) && AllServed(View(mm, sizes'))
    ensures sizes' == sizes - {a}
  {
    ghost var h := View(mm, sizes);
    HeldIsFreeable(h, a);
    assert Serves(h.st, h.live, a, h.sizes[a]);
    mm.Kfree(a);
    sizes' := sizes - {a};
    FreeServes(h, a, View(mm, sizes'));
  }
}
