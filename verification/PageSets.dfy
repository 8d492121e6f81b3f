/** The allocator of src/mm.c seen as a plain set of free page numbers. */
module PageSets {
  import opened Blocks
  import opened Buddy
  import opened Common
  import opened Lists

  ghost function PagesOf(s: State, kind: Kind): set<nat> {
    set y: nat | y < |s.tags| && s.tags[y].kind == kind
  }

  predicate From(y: nat, p: nat) {
    p <= y
  }

  function Run(p: nat, n: nat): set<nat> {
    set y: nat | y < p + n && From(y, p)
  }

  /** The pages of `run` go from one kind to another, and no others. */
  ghost predicate Moves(s: State, r: State, run: set<nat>, source: Kind, target: Kind) {
    && |r.tags| == |s.tags| && run <= PagesOf(s, source)
    && PagesOf(r, source) == PagesOf(s, source) - run
    && PagesOf(r, target) == PagesOf(s, target) + run
    && forall kind :: kind != source && kind != target ==> PagesOf(r, kind) == PagesOf(s, kind)
  }

  lemma KindsMove(s: State, r: State, run: set<nat>, source: Kind, target: Kind)
    requires |r.tags| == |s.tags| && source != target
    requires forall y :: y in run ==> y < |s.tags| && s.tags[y].kind == source
    requires forall y: nat :: y < |s.tags| ==> r.tags[y].kind == if y in run then target else s.tags[y].kind
    ensures Moves(s, r, run, source, target)
  {
    assert PagesOf(r, source) == PagesOf(s, source) - run;
    assert PagesOf(r, target) == PagesOf(s, target) + run;
    forall kind | kind != source && kind != target
      ensures PagesOf(r, kind) == PagesOf(s, kind)
    {
    }
  }

  /** alloc_pages moves one aligned run from the free pages to the allocated ones. */
  lemma AllocMoves(s: State, r: State, order: nat, p: nat)
    requires Inv(s) && Quiet(s) && Alloc(s, order) == (r, Some(p))
    ensures Moves(s, r, Run(p, Pow2(order)), Free, Allocated)
  {
    AllocEffect(s, order);
    AllocationMoves(s, r, order, p);
  }

  lemma AllocationMoves(s: State, r: State, order: nat, p: nat)
    requires Inv(s) && Inv(r) && order <= MAX_ORDER && Allocates(s, r, order, p)
    ensures Moves(s, r, Run(p, Pow2(order)), Free, Allocated)
  {
    RunInMemory(p, order, |s.tags|);
    KindsMove(s, r, Run(p, Pow2(order)), Free, Allocated);
  }

  /** free_pages moves the run back. */
  lemma FreeMoves(s: State, h: nat, order: nat)
    requires Inv(s) && Quiet(s) && HeadOf(s.tags, h, order, Allocated)
    ensures s.pages[h].order == order
    ensures Moves(s, FreeBlock(s, h), Run(h, Pow2(order)), Allocated, Free)
  {
    FreeEffect(s, h, order);
    RunInMemory(h, order, |s.tags|);
    KindsMove(s, FreeBlock(s, h), Run(h, Pow2(order)), Allocated, Free);
  }

  /** reserve_memory moves exactly the free pages of its range to the reserved ones. */
  lemma ReserveMoves(s: State, lo: nat, hi: nat)
    requires Inv(s) && Quiet(s)
    ensures Moves(s, Reserve(s, lo, hi), PagesOf(s, Free) * Run(lo, if lo < hi then hi - lo else 0), Free, Reserved)
  {
    ReserveEffect(s, lo, hi);
    ReservationMoves(s, Reserve(s, lo, hi), lo, hi, PagesOf(s, Free) * Run(lo, if lo < hi then hi - lo else 0));
  }

  lemma ReservationMoves(s: State, r: State, lo: nat, hi: nat, run: set<nat>)
    requires Reserves(s, r, lo, hi) && run == PagesOf(s, Free) * Run(lo, if lo < hi then hi - lo else 0)
    requires forall y: nat :: y < |s.tags| && s.tags[y].kind == Free ==>
               r.tags[y].kind == if lo <= y < hi then Reserved else Free
    ensures Moves(s, r, run, Free, Reserved)
  {
    KindsMove(s, r, run, Free, Reserved);
  }

  lemma {:induction false} RunSize(p: nat, n: nat)
    ensures |Run(p, n)| == n
  {
    if n > 0 {
      RunSize(p, n - 1);
      assert Run(p, n) == Run(p, n - 1) + {p + n - 1};
    } else {
      assert Run(p, n) == {};
    }
  }

  // --- the free lists

  /** Page y lies in a block of order k that `a` lists. */
  ghost predicate Holds(a: seq<nat>, k: nat, y: nat) {
    exists h :: h in a && h <= y < h + Pow2(k)
  }

  /** The pages of the blocks of order k listed in `a`. */
  ghost function Covered(a: seq<nat>, k: nat): set<nat> {
    if a == [] then {} else Run(a[0], Pow2(k)) + Covered(a[1..], k)
  }

  lemma {:induction false} CoveredMembers(a: seq<nat>, k: nat)
    ensures forall y: nat :: y in Covered(a, k) <==> Holds(a, k, y)
  {
    if a != [] {
      CoveredMembers(a[1..], k);
      forall y: nat
        ensures Holds(a, k, y) <==> a[0] <= y < a[0] + Pow2(k) || Holds(a[1..], k, y)
      {
        HoldsCons(a, k, y);
      }
    }
  }

  lemma HoldsCons(a: seq<nat>, k: nat, y: nat)
    requires a != []
    ensures Holds(a, k, y) <==> a[0] <= y < a[0] + Pow2(k) || Holds(a[1..], k, y)
  {
    assert forall h :: h in a[1..] ==> h in a;
    if a[0] <= y < a[0] + Pow2(k) {
      assert a[0] in a;
    } else if Holds(a, k, y) {
      var h :| h in a && h <= y < h + Pow2(k);
      assert h in a[1..];
    }
  }

  lemma {:induction false} CoveredSize(a: seq<nat>, k: nat)
    requires Distinct(a) && forall h :: h in a ==> Aligned(h, k)
    ensures |Covered(a, k)| == |a| * Pow2(k)
  {
    if a != [] {
      CoveredSize(a[1..], k);
      RunSize(a[0], Pow2(k));
      CoveredApart(a, k);
      UnionSize(Run(a[0], Pow2(k)), Covered(a[1..], k));
      OneMore(|a[1..]|, Pow2(k));
    }
  }

  lemma UnionSize(a: set<nat>, b: set<nat>)
    requires a !! b
    ensures |a + b| == |a| + |b|
  {
  }

  lemma OneMore(n: nat, p: nat)
    ensures (n + 1) * p == p + n * p
  {
  }

  lemma CoveredApart(a: seq<nat>, k: nat)
    requires a != [] && Distinct(a) && forall h :: h in a ==> Aligned(h, k)
    ensures Run(a[0], Pow2(k)) !! Covered(a[1..], k)
  {
    CoveredMembers(a[1..], k);
    forall y: nat | y in Covered(a[1..], k)
      ensures y !in Run(a[0], Pow2(k))
    {
      var h :| h in a[1..] && h <= y < h + Pow2(k);
      OtherBlock(a[0], h, y, k);
    }
  }

  lemma OtherBlock(g: nat, h: nat, y: nat, k: nat)
    requires Aligned(g, k) && Aligned(h, k) && g != h && h <= y < h + Pow2(k)
    ensures !(g <= y < g + Pow2(k))
  {
    BlockIsRun(g, y, k);
    BlockIsRun(h, y, k);
    if SameBlock(g, y, k) {
      OneHead(g, h, k);
    }
  }

  /** The number of pages in the listed blocks of order k and above. */
  function ListedPages(area: seq<seq<nat>>, k: nat): nat
    requires |area| == MAX_ORDER + 1
    decreases MAX_ORDER + 1 - k
  {
    if k > MAX_ORDER then 0 else |area[k]| * Pow2(k) + ListedPages(area, k + 1)
  }

  /** The free pages that belong to blocks of order k and above. */
  ghost function FreeFrom(s: State, k: nat): set<nat> {
    set y: nat | y < |s.tags| && s.tags[y].kind == Free && s.tags[y].ord >= k
  }

  /** A page is free exactly if it lies in a block that a free list holds. */
  lemma FreeIsListed(s: State, y: nat, k: nat)
    requires Inv(s) && k <= MAX_ORDER
    ensures Holds(s.area[k], k, y) <==> y < |s.tags| && s.tags[y] == Tag(k, Free)
  {
    if Holds(s.area[k], k, y) {
      var h :| h in s.area[k] && h <= y < h + Pow2(k);
      BlockIsRun(h, y, k);
      BlockTag(s, h, y);
    }
    if y < |s.tags| && s.tags[y] == Tag(k, Free) {
      var h := Base(y, k);
      BaseIsHead(y, k);
      BlockIsRun(h, y, k);
      BlockTag(s, y, h);
      assert h in s.area[k];
    }
  }

  lemma FreeFromSplit(s: State, k: nat)
    requires Inv(s) && k <= MAX_ORDER
    ensures FreeFrom(s, k) == Covered(s.area[k], k) + FreeFrom(s, k + 1)
    ensures Covered(s.area[k], k) !! FreeFrom(s, k + 1)
  {
    CoveredMembers(s.area[k], k);
    forall y: nat
      ensures y in Covered(s.area[k], k) <==> y < |s.tags| && s.tags[y] == Tag(k, Free)
    {
      FreeIsListed(s, y, k);
    }
  }

  lemma ListSize(s: State, k: nat)
    requires Inv(s) && k <= MAX_ORDER
    ensures |Covered(s.area[k], k)| == |s.area[k]| * Pow2(k)
  {
    forall h | h in s.area[k]
      ensures Aligned(h, k)
    {
      assert FreeHead(s.tags, h, k);
    }
    CoveredSize(s.area[k], k);
  }

  lemma FreeFromAdds(s: State, k: nat)
    requires Inv(s) && k <= MAX_ORDER
    ensures |FreeFrom(s, k)| == |s.area[k]| * Pow2(k) + |FreeFrom(s, k + 1)|
  {
    FreeFromSplit(s, k);
    ListSize(s, k);
    UnionSize(Covered(s.area[k], k), FreeFrom(s, k + 1));
  }

  lemma {:induction false} FreeFromSize(s: State, k: nat)
    requires Inv(s) && k <= MAX_ORDER + 1
    ensures |FreeFrom(s, k)| == ListedPages(s.area, k)
    decreases MAX_ORDER + 1 - k
  {
    if k <= MAX_ORDER {
      FreeFromSize(s, k + 1);
      FreeFromAdds(s, k);
    } else {
      assert FreeFrom(s, k) == {};
    }
  }

  /** The free pages are those of the listed blocks, each counted once. */
  lemma FreeIsOnLists(s: State)
    requires Inv(s)
    ensures |PagesOf(s, Free)| == ListedPages(s.area, 0)
    ensures forall y: nat :: y in PagesOf(s, Free) <==> exists k :: 0 <= k <= MAX_ORDER && Holds(s.area[k], k, y)
  {
    FreeFromSize(s, 0);
    assert FreeFrom(s, 0) == PagesOf(s, Free);
    forall y: nat
      ensures y in PagesOf(s, Free) <==> exists k :: 0 <= k <= MAX_ORDER && Holds(s.area[k], k, y)
    {
      forall k: nat | k <= MAX_ORDER
        ensures Holds(s.area[k], k, y) <==> y < |s.tags| && s.tags[y] == Tag(k, Free)
      {
        FreeIsListed(s, y, k);
      }
      if y in PagesOf(s, Free) {
        assert Holds(s.area[s.tags[y].ord], s.tags[y].ord, y);
      }
    }
  }

  lemma KindsAddUp(s: State)
    requires Quiet(s)
    ensures |PagesOf(s, Free)| + |PagesOf(s, Allocated)| + |PagesOf(s, Reserved)| == |s.tags|
  {
    var f, a, e := PagesOf(s, Free), PagesOf(s, Allocated), PagesOf(s, Reserved);
    assert f + a + e == Run(0, |s.tags|);
    RunSize(0, |s.tags|);
    assert |f + a| == |f| + |a|;
    assert |f + a + e| == |f + a| + |e|;
  }

  /** No page of mem_map is ever lost: those in the listed blocks, those allocated and those reserved
      add up to all. */
  lemma Conservation(s: State)
    requires Inv(s) && Quiet(s)
    ensures ListedPages(s.area, 0) + |PagesOf(s, Allocated)| + |PagesOf(s, Reserved)| == |s.pages|
  {
    FreeIsOnLists(s);
    KindsAddUp(s);
  }

  /** While a page is free, a single page can be allocated. */
  lemma FreePageServes(s: State)
    requires Inv(s) && Quiet(s) && PagesOf(s, Free) != {}
    ensures FirstOrder(s.area, 0) <= MAX_ORDER
  {
    var y :| y in PagesOf(s, Free);
    var k := s.tags[y].ord;
    BaseIsHead(y, k);
    assert s.tags[Base(y, k)] == s.tags[y];
    assert FreeHead(s.tags, Base(y, k), k);
    assert Base(y, k) in s.area[k];
  }
}
