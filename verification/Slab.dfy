/** The object caches of src/mm.c as facts about addresses.

    Cache c cuts a page into slots of 32 << c bytes.  An address is a slot of cache c when its
    page belongs to the cache and its c + 5 low bits are zero. */
module Slab {
  import opened Blocks
  import opened Lists
  import opened Buddy
  import opened Common

  const CACHE_MAX_INDEX := 6

  function CacheSize(c: nat): nat {
    Pow2(c + 5)
  }

  function CacheOf(s: State, a: nat): nat
    requires a / PAGE_SIZE < |s.pages|
  {
    s.pages[a / PAGE_SIZE].cacheidx
  }

  /** a is the address of a slot of cache c. */
  predicate Slot(s: State, a: nat, c: nat) {
    c <= CACHE_MAX_INDEX && a / PAGE_SIZE < |s.pages| && CacheOf(s, a) == c && Aligned(a, c + 5)
  }

  /** Every slot is either live or linked exactly once on its own cache's list, and these are
      the only addresses that are live or linked. */
  ghost predicate SlabInv(s: State, cache: seq<seq<nat>>, live: set<nat>) {
    && |cache| == CACHE_MAX_INDEX + 1
    && |s.pages| == |s.tags|
    && (forall f :: 0 <= f < |s.pages| ==> CachePage(s, f) || s.pages[f].cacheidx == CACHE_UNALLOC)
    && (forall c :: 0 <= c <= CACHE_MAX_INDEX ==> Distinct(cache[c]))
    && (forall c, a: nat :: 0 <= c <= CACHE_MAX_INDEX ==> (a in cache[c] <==> Slot(s, a, c) && a !in live))
    && (forall a :: a in live ==> a / PAGE_SIZE < |s.pages| && Slot(s, a, CacheOf(s, a)))
  }

  /** The page is cut into slots; it stays allocated for ever. */
  predicate CachePage(s: State, f: nat)
    requires |s.pages| == |s.tags|
  {
    f < |s.pages| && s.pages[f].cacheidx <= CACHE_MAX_INDEX && s.tags[f] == Tag(0, Allocated)
  }

  // --- arithmetic of slots

  lemma {:induction false} AlignedStep(a: nat, k: nat)
    requires Aligned(a, k)
    ensures Aligned(a + Pow2(k), k)
    ensures forall b: nat :: a < b < a + Pow2(k) ==> !Aligned(b, k)
  {
    if k > 0 {
      AlignedStep(a / 2, k - 1);
      forall b: nat | a < b < a + Pow2(k)
        ensures !Aligned(b, k)
      {
        if b % 2 == 0 {
          assert a / 2 < b / 2 < a / 2 + Pow2(k - 1);
        }
      }
    }
  }

  lemma PowTwelve()
    ensures Pow2(12) == 4096 && Pow2(5) == 32 && Pow2(11) == 2048
  {
    assert Pow2(6) == 64;
  }

  lemma Twice(f: nat, p: nat)
    ensures f * (2 * p) == 2 * (f * p)
  {
  }

  lemma {:induction false} AlignedMultiple(f: nat, k: nat)
    ensures Aligned(f * Pow2(k), k)
  {
    if k > 0 {
      AlignedMultiple(f, k - 1);
      Twice(f, Pow2(k - 1));
    }
  }

  /** A page address has its 12 low bits clear, so it is a slot address of any cache. */
  lemma PageAligned(f: nat, c: nat)
    requires c <= CACHE_MAX_INDEX
    ensures Aligned(f * PAGE_SIZE, c + 5)
  {
    PowTwelve();
    AlignedMultiple(f, 12);
    AlignedLower(f * PAGE_SIZE, 12, c + 5);
  }

  /** A slot lies within its page. */
  lemma SlotInPage(a: nat, c: nat)
    requires c <= CACHE_MAX_INDEX && Aligned(a, c + 5)
    ensures a / PAGE_SIZE * PAGE_SIZE <= a && a + CacheSize(c) <= a / PAGE_SIZE * PAGE_SIZE + PAGE_SIZE
    ensures CacheSize(c) >= 32
  {
    var base := a / PAGE_SIZE * PAGE_SIZE;
    PowTwelve();
    AlignedMultiple(a / PAGE_SIZE, 12);
    BlockIsRun(base, a, 12);
    var last := a + CacheSize(c) - 1;
    BlockIsRun(a, last, c + 5);
    Nested(a, last, c + 5, 12);
    BlockIsRun(base, last, 12);
    assert Pow2(c + 5) >= 32 by { PowGrows(5, c + 5); }
  }

  lemma {:induction false} PowGrows(j: nat, k: nat)
    requires j <= k
    ensures Pow2(j) <= Pow2(k)
    ensures j < k ==> 2 * Pow2(j) <= Pow2(k)
    decreases k - j
  {
    if j < k {
      PowGrows(j, k - 1);
    }
  }

  /** Two slots of one cache do not overlap. */
  lemma SlotsApart(a: nat, b: nat, c: nat)
    requires Aligned(a, c + 5) && Aligned(b, c + 5) && a != b
    ensures a + CacheSize(c) <= b || b + CacheSize(c) <= a
  {
    AlignedStep(a, c + 5);
    AlignedStep(b, c + 5);
  }

  // --- who owns which bytes

  /** A run of bytes some caller holds, or that a free object keeps its link words in. */
  datatype Region = Run(h: nat) | LiveSlot(a: nat) | FreeSlot(a: nat)

  ghost predicate Owned(s: State, cache: seq<seq<nat>>, live: set<nat>, g: Region)
    requires SlabInv(s, cache, live)
  {
    match g
    case Run(h) => IsHead(s.tags, h) && s.tags[h].kind == Allocated && !CachePage(s, h)
    case LiveSlot(a) => a in live
    case FreeSlot(a) => exists c :: 0 <= c <= CACHE_MAX_INDEX && a in cache[c]
  }

  ghost function Start(g: Region): nat {
    if g.Run? then g.h * PAGE_SIZE else g.a
  }

  ghost function Size(s: State, cache: seq<seq<nat>>, live: set<nat>, g: Region): nat
    requires SlabInv(s, cache, live) && Owned(s, cache, live, g)
  {
    if g.Run? then Pow2(s.tags[g.h].ord) * PAGE_SIZE
    else
      OwnedSlot(s, cache, live, g);
      CacheSize(CacheOf(s, g.a))
  }

  lemma OwnedSlot(s: State, cache: seq<seq<nat>>, live: set<nat>, g: Region)
    requires SlabInv(s, cache, live) && Owned(s, cache, live, g) && !g.Run?
    ensures g.a / PAGE_SIZE < |s.pages| && Slot(s, g.a, CacheOf(s, g.a)) && CachePage(s, g.a / PAGE_SIZE)
    ensures g.LiveSlot? <==> g.a in live
  {
    if g.FreeSlot? {
      var c :| 0 <= c <= CACHE_MAX_INDEX && g.a in cache[c];
      assert Slot(s, g.a, c);
    }
  }

  /** No two of these regions share a byte, so no live allocation overlaps another or a free
      object's link words. */
  lemma RegionsApart(s: State, cache: seq<seq<nat>>, live: set<nat>, g: Region, h: Region)
    requires Inv(s) && SlabInv(s, cache, live)
    requires Owned(s, cache, live, g) && Owned(s, cache, live, h) && g != h
    ensures Start(g) + Size(s, cache, live, g) <= Start(h) || Start(h) + Size(s, cache, live, h) <= Start(g)
  {
    match (g, h)
    case (Run(x), Run(y)) =>
      RunsApart(s, x, y);
    case (Run(x), _) =>
      OwnedSlot(s, cache, live, h);
      RunSlotApart(s, x, h.a);
    case (_, Run(y)) =>
      OwnedSlot(s, cache, live, g);
      RunSlotApart(s, y, g.a);
    case (_, _) =>
      SlotRegionsApart(s, cache, live, g, h);
  }

  lemma SlotRegionsApart(s: State, cache: seq<seq<nat>>, live: set<nat>, g: Region, h: Region)
    requires SlabInv(s, cache, live) && !g.Run? && !h.Run?
    requires Owned(s, cache, live, g) && Owned(s, cache, live, h) && g != h
    ensures g.a / PAGE_SIZE < |s.pages| && h.a / PAGE_SIZE < |s.pages|
    ensures g.a + CacheSize(CacheOf(s, g.a)) <= h.a || h.a + CacheSize(CacheOf(s, h.a)) <= g.a
  {
    OwnedSlot(s, cache, live, g);
    OwnedSlot(s, cache, live, h);
    SlotInPage(g.a, CacheOf(s, g.a));
    SlotInPage(h.a, CacheOf(s, h.a));
    if g.a / PAGE_SIZE == h.a / PAGE_SIZE {
      SlotsApart(g.a, h.a, CacheOf(s, g.a));
    }
  }

  lemma RunsApart(s: State, x: nat, y: nat)
    requires Inv(s) && IsHead(s.tags, x) && IsHead(s.tags, y) && x != y
    ensures x + Pow2(s.tags[x].ord) <= y || y + Pow2(s.tags[y].ord) <= x
  {
    var k := s.tags[x].ord;
    var j := s.tags[y].ord;
    RunInMemory(x, k, |s.tags|);
    RunInMemory(y, j, |s.tags|);
    if SameBlock(x, y, k) {
      assert s.tags[y] == s.tags[x];
      OneHead(x, y, k);
    } else if SameBlock(y, x, j) {
      assert s.tags[x] == s.tags[y];
      OneHead(y, x, j);
    }
  }

  lemma RunSlotApart(s: State, x: nat, a: nat)
    requires Inv(s) && IsHead(s.tags, x) && !CachePage(s, x)
    requires a / PAGE_SIZE < |s.pages| && Slot(s, a, CacheOf(s, a)) && CachePage(s, a / PAGE_SIZE)
    ensures (x + Pow2(s.tags[x].ord)) * PAGE_SIZE <= a || a + CacheSize(CacheOf(s, a)) <= x * PAGE_SIZE
  {
    SlotInPage(a, CacheOf(s, a));
    RunsApart(s, x, a / PAGE_SIZE);
    assert Pow2(0) == 1;
  }

  // --- what keeps the caches in order

  /** Page allocation and release never touch a cache page. */
  lemma SlabKept(s: State, r: State, cache: seq<seq<nat>>, live: set<nat>)
    requires SlabInv(s, cache, live)
    requires |r.pages| == |s.pages| == |r.tags|
    requires forall f :: 0 <= f < |s.pages| ==> r.pages[f].cacheidx == s.pages[f].cacheidx
    requires forall f :: 0 <= f < |s.pages| && CachePage(s, f) ==> r.tags[f] == s.tags[f]
    ensures SlabInv(r, cache, live)
  {
    forall f | 0 <= f < |r.pages|
      ensures CachePage(r, f) || r.pages[f].cacheidx == CACHE_UNALLOC
    {
      assert CachePage(s, f) || s.pages[f].cacheidx == CACHE_UNALLOC;
    }
    forall c, a: nat | 0 <= c <= CACHE_MAX_INDEX
      ensures a in cache[c] <==> Slot(r, a, c) && a !in live
    {
      assert Slot(r, a, c) == Slot(s, a, c);
    }
    forall a | a in live
      ensures a / PAGE_SIZE < |r.pages| && Slot(r, a, CacheOf(r, a))
    {
      assert Slot(s, a, CacheOf(s, a));
    }
  }

  /** Rewriting fields other than order and used keeps the allocator's invariant. */
  lemma TouchPage(s: State, h: nat, page: Page)
    requires Inv(s) && Quiet(s) && h < |s.pages|
    requires page.order == s.pages[h].order && page.used == s.pages[h].used
    ensures Inv(SetPage(s, h, page)) && Quiet(SetPage(s, h, page))
    ensures FullyCoalesced(s) ==> FullyCoalesced(SetPage(s, h, page))
  {
    var r := SetPage(s, h, page);
    if FullyCoalesced(s) {
      forall x: nat, k: nat
        ensures !Matched(r, x, k)
      {
        assert !Matched(s, x, k);
      }
    }
  }

  /** Cutting a fresh page f into the slots of the empty cache c. */
  lemma SlabRefill(s: State, f: nat, c: nat, cache: seq<seq<nat>>, slots: seq<nat>, live: set<nat>)
    requires SlabInv(s, cache, live) && c <= CACHE_MAX_INDEX && cache[c] == []
    requires f < |s.pages| && s.pages[f].cacheidx == CACHE_UNALLOC && s.tags[f] == Tag(0, Allocated)
    requires Distinct(slots)
    requires forall a: nat :: a in slots <==> a / PAGE_SIZE == f && Aligned(a, c + 5)
    ensures SlabInv(SetPage(s, f, s.pages[f].(cacheidx := c)), cache[c := slots], live)
  {
    var r := SetPage(s, f, s.pages[f].(cacheidx := c));
    forall g | 0 <= g < |r.pages|
      ensures CachePage(r, g) || r.pages[g].cacheidx == CACHE_UNALLOC
    {
      assert CachePage(s, g) || s.pages[g].cacheidx == CACHE_UNALLOC;
    }
    forall a | a in live
      ensures a / PAGE_SIZE != f && Slot(r, a, CacheOf(r, a))
    {
      assert Slot(s, a, CacheOf(s, a));
    }
    forall d, a: nat | 0 <= d <= CACHE_MAX_INDEX
      ensures a in cache[c := slots][d] <==> Slot(r, a, d) && a !in live
    {
      assert a in cache[d] <==> Slot(s, a, d) && a !in live;
    }
  }

  /** Handing out the first free slot. */
  lemma SlabTake(s: State, c: nat, cache: seq<seq<nat>>, live: set<nat>)
    requires SlabInv(s, cache, live) && c <= CACHE_MAX_INDEX && cache[c] != []
    ensures var a := cache[c][0];
            a !in live && Slot(s, a, c) && SlabInv(s, cache[c := cache[c][1..]], live + {a})
  {
    var a := cache[c][0];
    assert a in cache[c];
    var cache' := cache[c := cache[c][1..]];
    forall d, b: nat | 0 <= d <= CACHE_MAX_INDEX
      ensures b in cache'[d] <==> Slot(s, b, d) && b !in live + {a}
    {
      assert b in cache[d] <==> Slot(s, b, d) && b !in live;
    }
  }

  lemma SlabGive(s: State, a: nat, cache: seq<seq<nat>>, live: set<nat>)
    requires SlabInv(s, cache, live) && a in live
    ensures a / PAGE_SIZE < |s.pages| && CacheOf(s, a) <= CACHE_MAX_INDEX
    ensures forall d :: 0 <= d <= CACHE_MAX_INDEX ==> a !in cache[d]
    ensures var c := CacheOf(s, a); SlabInv(s, cache[c := cache[c] + [a]], live - {a})
  {
    assert Slot(s, a, CacheOf(s, a));
    var c := CacheOf(s, a);
    var cache' := cache[c := cache[c] + [a]];
    forall d, b: nat | 0 <= d <= CACHE_MAX_INDEX
      ensures b in cache'[d] <==> Slot(s, b, d) && b !in live - {a}
    {
      assert b in cache[d] <==> Slot(s, b, d) && b !in live;
    }
  }
}
