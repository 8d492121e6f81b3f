/** The buddy allocator of src/mm.c as a function on its state.

    `pages` is the array mem_map, `area[k]` the page frames linked on free_area[k], and `tags`
    records, for every page, the order and the owner of the block it belongs to.  `tags` is the
    block partition; it is proof state and no operation reads it. */
module Buddy {
  import opened Blocks
  import opened Common
  import opened Lists

  const MAX_ORDER := 10
  const CACHE_UNALLOC := 0xFFFF_FFFF

  /** The mutable fields of struct page; its list node lives in the list memory. */
  datatype Page = Page(order: nat, used: nat, cacheidx: nat, refcount: nat)

  /** Who holds a block: a free list, a caller, reserve_memory, or the operation now running. */
  datatype Kind = Free | Allocated | Reserved | Limbo
  datatype Tag = Tag(ord: nat, kind: Kind)

  datatype State = State(pages: seq<Page>, area: seq<seq<nat>>, tags: seq<Tag>)

  // --- the block partition

  /** Every page agrees with all pages of its block about the block. */
  ghost predicate Uniform(tags: seq<Tag>) {
    forall x, y :: 0 <= x < |tags| && 0 <= y < |tags| && SameBlock(x, y, tags[x].ord) ==> tags[y] == tags[x]
  }

  predicate IsHead(tags: seq<Tag>, x: nat) {
    x < |tags| && Aligned(x, tags[x].ord)
  }

  predicate FreeHead(tags: seq<Tag>, x: nat, k: nat) {
    IsHead(tags, x) && tags[x] == Tag(k, Free)
  }

  predicate HeadOf(tags: seq<Tag>, x: nat, k: nat, kind: Kind) {
    x < |tags| && tags[x] == Tag(k, kind) && Aligned(x, k)
  }

  ghost predicate Shape(s: State) {
    && |s.pages| == |s.tags| && |s.tags| % 1024 == 0
    && |s.area| == MAX_ORDER + 1
    && forall x :: 0 <= x < |s.tags| ==> s.tags[x].ord <= MAX_ORDER
  }

  /** Only the head page of a block has meaningful fields. */
  ghost predicate FieldsAgree(s: State)
    requires |s.pages| == |s.tags|
  {
    forall x :: 0 <= x < |s.tags| && IsHead(s.tags, x) && s.tags[x].kind != Limbo ==>
      && s.pages[x].order == s.tags[x].ord
      && (s.tags[x].kind != Free ==> s.pages[x].used == 1)
  }

  /** free_area[k] holds the heads of the free blocks of order k, each once. */
  ghost predicate Listed(s: State)
    requires |s.area| == MAX_ORDER + 1
  {
    && (forall k :: 0 <= k <= MAX_ORDER ==> Distinct(s.area[k]))
    && (forall k, x: nat :: 0 <= k <= MAX_ORDER ==> (x in s.area[k] <==> FreeHead(s.tags, x, k)))
  }

  ghost predicate Inv(s: State) {
    Shape(s) && Uniform(s.tags) && FieldsAgree(s) && Listed(s)
  }

  lemma BlockTag(s: State, h: nat, y: nat)
    requires Inv(s) && h < |s.tags| && SameBlock(h, y, s.tags[h].ord)
    ensures y < |s.tags| && s.tags[y] == s.tags[h]
  {
    WithinMemory(h, y, s.tags[h].ord, |s.tags|);
  }

  /** Give all pages of a block of order j the same tag. */
  function Retag(tags: seq<Tag>, h: nat, j: nat, t: Tag): (r: seq<Tag>)
    ensures |r| == |tags|
    ensures forall y :: 0 <= y < |tags| ==> r[y] == if SameBlock(h, y, j) then t else tags[y]
  {
    seq(|tags|, y requires 0 <= y < |tags| => if SameBlock(h, y, j) then t else tags[y])
  }

  lemma RetagUniform(tags: seq<Tag>, h: nat, j: nat, t: Tag)
    requires Uniform(tags) && t.ord <= j
    requires forall y :: 0 <= y < |tags| && SameBlock(h, y, j) ==> tags[y].ord <= j
    ensures Uniform(Retag(tags, h, j, t))
  {
    var r := Retag(tags, h, j, t);
    forall x, y | 0 <= x < |r| && 0 <= y < |r| && SameBlock(x, y, r[x].ord)
      ensures r[y] == r[x]
    {
      if SameBlock(h, x, j) {
        Nested(x, y, t.ord, j);
      } else {
        assert tags[y] == tags[x];
        if SameBlock(h, y, j) {
          Nested(x, y, tags[x].ord, j);
        }
      }
    }
  }

  /** Retagging a block that was uniform of order k moves only that block. */
  lemma RetagBlock(s: State, h: nat, k: nat, t: Tag)
    requires Inv(s) && h < |s.tags| && s.tags[h].ord == k && t.ord <= k
    ensures Uniform(Retag(s.tags, h, k, t))
    ensures forall y :: 0 <= y < |s.tags| && SameBlock(h, y, k) ==> s.tags[y] == s.tags[h]
  {
    forall y | 0 <= y < |s.tags| && SameBlock(h, y, k)
      ensures s.tags[y] == s.tags[h]
    {
      BlockTag(s, h, y);
    }
    RetagUniform(s.tags, h, k, t);
  }

  // --- the elementary steps

  function RemoveAt(a: seq<nat>, i: nat): seq<nat>
    requires i < |a|
  {
    a[..i] + a[i + 1..]
  }

  /** list_del_init of the i-th free block of order k: the running operation now holds it. */
  function Grab(s: State, k: nat, i: nat): (r: State)
    requires k < |s.area| && i < |s.area[k]|
  {
    State(s.pages, s.area[k := RemoveAt(s.area[k], i)], Retag(s.tags, s.area[k][i], k, Tag(k, Limbo)))
  }

  /** list_add of a held block to free_area[k] after writing its order. */
  function Release(s: State, h: nat, k: nat, page: Page): State
    requires k < |s.area| && h < |s.pages|
  {
    State(s.pages[h := page], s.area[k := [h] + s.area[k]], Retag(s.tags, h, k, Tag(k, Free)))
  }

  /** A held block of order k + 1 seen as two held blocks of order k. */
  function Split(s: State, h: nat, k: nat): State {
    s.(tags := Retag(s.tags, h, k + 1, Tag(k, Limbo)))
  }

  /** Two held buddies of order k seen as one held block. */
  function Join(s: State, h: nat, k: nat): State {
    s.(tags := Retag(s.tags, h, k + 1, Tag(k + 1, Limbo)))
  }

  /** A held block leaves the allocator. */
  function HandOut(s: State, h: nat, k: nat, page: Page, kind: Kind): State
    requires h < |s.pages|
  {
    State(s.pages[h := page], s.area, Retag(s.tags, h, k, Tag(k, kind)))
  }

  /** An allocated block comes back. */
  function TakeBack(s: State, h: nat, k: nat): State {
    s.(tags := Retag(s.tags, h, k, Tag(k, Limbo)))
  }

  lemma GrabInv(s: State, k: nat, i: nat)
    requires Inv(s) && k <= MAX_ORDER && i < |s.area[k]|
    ensures var h := s.area[k][i]; var r := Grab(s, k, i);
            Inv(r) && HeadOf(s.tags, h, k, Free) && HeadOf(r.tags, h, k, Limbo)
  {
    var h := s.area[k][i];
    var r := Grab(s, k, i);
    assert h in s.area[k];
    RetagBlock(s, h, k, Tag(k, Limbo));
    forall j, x: nat | 0 <= j <= MAX_ORDER
      ensures x in r.area[j] <==> FreeHead(r.tags, x, j)
    {
      assert x in s.area[j] <==> FreeHead(s.tags, x, j);
      if x < |s.tags| && SameBlock(h, x, k) {
        if Aligned(x, k) {
          OneHead(h, x, k);
        }
      }
    }
  }

  lemma ReleaseInv(s: State, h: nat, k: nat, page: Page)
    requires Inv(s) && HeadOf(s.tags, h, k, Limbo) && page.order == k
    ensures k <= MAX_ORDER && Inv(Release(s, h, k, page)) && HeadOf(Release(s, h, k, page).tags, h, k, Free)
  {
    var r := Release(s, h, k, page);
    RetagBlock(s, h, k, Tag(k, Free));
    assert !FreeHead(s.tags, h, k);
    assert h !in s.area[k];
    forall j, x: nat | 0 <= j <= MAX_ORDER
      ensures x in r.area[j] <==> FreeHead(r.tags, x, j)
    {
      assert x in s.area[j] <==> FreeHead(s.tags, x, j);
      if x < |s.tags| && SameBlock(h, x, k) && Aligned(x, k) {
        OneHead(h, x, k);
      }
    }
    FieldsAfter(s, r, h, k);
  }

  /** Writing the head's fields and retagging its block keeps the fields of all heads right. */
  lemma FieldsAfter(s: State, r: State, h: nat, k: nat)
    requires Inv(s) && |r.pages| == |s.pages| && |r.tags| == |s.tags|
    requires h < |s.tags| && s.tags[h].ord == r.tags[h].ord == k && Aligned(h, k)
    requires r.tags == Retag(s.tags, h, k, r.tags[h])
    requires forall x :: 0 <= x < |s.pages| && x != h ==> r.pages[x] == s.pages[x]
    requires r.pages[h].order == k && (r.tags[h].kind != Free ==> r.pages[h].used == 1)
    ensures FieldsAgree(r)
  {
    forall x | 0 <= x < |r.tags| && IsHead(r.tags, x) && r.tags[x].kind != Limbo
      ensures r.pages[x].order == r.tags[x].ord && (r.tags[x].kind != Free ==> r.pages[x].used == 1)
    {
      if SameBlock(h, x, k) {
        OneHead(h, x, k);
      }
    }
  }

  lemma SplitInv(s: State, h: nat, k: nat)
    requires Inv(s) && HeadOf(s.tags, h, k + 1, Limbo)
    ensures Flip(h, k) == h + Pow2(k) && Flip(h, k) < |s.tags|
    ensures var r := Split(s, h, k);
            Inv(r) && HeadOf(r.tags, h, k, Limbo) && HeadOf(r.tags, Flip(h, k), k, Limbo)
  {
    var r := Split(s, h, k);
    RetagBlock(s, h, k + 1, Tag(k, Limbo));
    FlipUp(h, k);
    AlignedLower(h, k + 1, k);
    FlipHalves(h, k);
    WithinMemory(h, Flip(h, k), k + 1, |s.tags|);
    forall j, x: nat | 0 <= j <= MAX_ORDER
      ensures x in r.area[j] <==> FreeHead(r.tags, x, j)
    {
      assert x in s.area[j] <==> FreeHead(s.tags, x, j);
    }
  }

  lemma JoinInv(s: State, h: nat, k: nat)
    requires Inv(s) && HeadOf(s.tags, h, k, Limbo) && HeadOf(s.tags, Flip(h, k), k, Limbo) && k < MAX_ORDER
    ensures var r := Join(s, h, k);
            var low := if h > Flip(h, k) then Flip(h, k) else h;
            && Inv(r) && HeadOf(r.tags, low, k + 1, Limbo)
            && SameBlock(h, low, k + 1)
  {
    var r := Join(s, h, k);
    FlipAligned(h, k);
    FlipHalves(h, k);
    forall y | 0 <= y < |s.tags| && SameBlock(h, y, k + 1)
      ensures s.tags[y] == Tag(k, Limbo)
    {
      FlipCovers(h, y, k);
      if SameBlock(h, y, k) {
        BlockTag(s, h, y);
      } else {
        BlockTag(s, Flip(h, k), y);
      }
    }
    RetagUniform(s.tags, h, k + 1, Tag(k + 1, Limbo));
    forall j, x: nat | 0 <= j <= MAX_ORDER
      ensures x in r.area[j] <==> FreeHead(r.tags, x, j)
    {
      assert x in s.area[j] <==> FreeHead(s.tags, x, j);
    }
  }

  lemma HandOutInv(s: State, h: nat, k: nat, page: Page, kind: Kind)
    requires Inv(s) && HeadOf(s.tags, h, k, Limbo) && page.order == k && page.used == 1
    requires kind == Allocated || kind == Reserved
    ensures Inv(HandOut(s, h, k, page, kind)) && HeadOf(HandOut(s, h, k, page, kind).tags, h, k, kind)
  {
    var r := HandOut(s, h, k, page, kind);
    RetagBlock(s, h, k, Tag(k, kind));
    forall j, x: nat | 0 <= j <= MAX_ORDER
      ensures x in r.area[j] <==> FreeHead(r.tags, x, j)
    {
      assert x in s.area[j] <==> FreeHead(s.tags, x, j);
    }
    FieldsAfter(s, r, h, k);
  }

  lemma TakeBackInv(s: State, h: nat, k: nat)
    requires Inv(s) && HeadOf(s.tags, h, k, Allocated)
    ensures Inv(TakeBack(s, h, k)) && HeadOf(TakeBack(s, h, k).tags, h, k, Limbo)
  {
    var r := TakeBack(s, h, k);
    RetagBlock(s, h, k, Tag(k, Limbo));
    forall j, x: nat | 0 <= j <= MAX_ORDER
      ensures x in r.area[j] <==> FreeHead(r.tags, x, j)
    {
      assert x in s.area[j] <==> FreeHead(s.tags, x, j);
    }
  }

  // --- what an operation leaves alone

  /** Outside the block of order k around h, no page changes hands and held pages keep everything. */
  ghost predicate SameOutside(s: State, r: State, h: nat, k: nat) {
    && |r.pages| == |s.pages| == |r.tags| == |s.tags|
    && (forall y :: 0 <= y < |s.pages| ==> r.pages[y].cacheidx == s.pages[y].cacheidx)
    && forall y :: 0 <= y < |s.tags| && !SameBlock(h, y, k) ==>
         && r.tags[y].kind == s.tags[y].kind
         && (s.tags[y].kind != Free ==> r.tags[y] == s.tags[y] && r.pages[y] == s.pages[y])
  }

  ghost predicate AllOfKind(s: State, h: nat, k: nat, kind: Kind) {
    forall y :: 0 <= y < |s.tags| && SameBlock(h, y, k) ==> s.tags[y].kind == kind
  }

  /** No operation is under way. */
  ghost predicate Quiet(s: State) {
    forall y :: 0 <= y < |s.tags| ==> s.tags[y].kind != Limbo
  }

  /** The running operation holds just the block of order k headed by h. */
  ghost predicate HoldsOnly(s: State, h: nat, k: nat) {
    HeadOf(s.tags, h, k, Limbo) && forall y :: 0 <= y < |s.tags| && s.tags[y].kind == Limbo ==> SameBlock(h, y, k)
  }

  // --- coalescing

  /** Two buddies of order k that are both free and both carry used == 0. */
  ghost predicate Matched(s: State, x: nat, k: nat)
    requires |s.pages| == |s.tags|
  {
    && k < MAX_ORDER
    && FreeHead(s.tags, x, k) && FreeHead(s.tags, Flip(x, k), k)
    && s.pages[x].used == 0 && s.pages[Flip(x, k)].used == 0
  }

  /** The block of order k around x meets the frame numbers lo, .., hi - 1. */
  predicate Meets(x: nat, k: nat, lo: nat, hi: nat) {
    Base(x, k) < hi && lo < Base(x, k) + Pow2(k)
  }

  /** Wherever two free buddies carry used == 0 they have been merged. */
  ghost predicate FullyCoalesced(s: State)
    requires |s.pages| == |s.tags|
  {
    forall x: nat, k: nat :: !Matched(s, x, k)
  }

  /** Unmerged unused buddies occur only across the range [lo, hi). */
  ghost predicate Coalesced(s: State, lo: nat, hi: nat)
    requires |s.pages| == |s.tags|
  {
    forall x: nat, k: nat :: Matched(s, x, k) ==> Meets(x, k + 1, lo, hi)
  }

  lemma EmptyRange(s: State)
    requires |s.pages| == |s.tags|
    ensures Coalesced(s, 0, 0) <==> FullyCoalesced(s)
  {
    if Coalesced(s, 0, 0) {
      forall x: nat, k: nat
        ensures !Matched(s, x, k)
      {
        assert !Meets(x, k + 1, 0, 0);
      }
    }
  }

  lemma ReleaseCoalesced(s: State, h: nat, k: nat, page: Page, lo: nat, hi: nat)
    requires Inv(s) && HeadOf(s.tags, h, k, Limbo) && Coalesced(s, lo, hi)
    requires k < MAX_ORDER && FreeHead(s.tags, Flip(h, k), k) && page.used == 0 ==>
               s.pages[Flip(h, k)].used != 0 || Meets(h, k + 1, lo, hi)
    ensures k <= MAX_ORDER && Coalesced(Release(s, h, k, page), lo, hi)
  {
    var r := Release(s, h, k, page);
    forall x: nat, j: nat | Matched(r, x, j)
      ensures Meets(x, j + 1, lo, hi)
    {
      FlipHalves(x, j);
      FlipHalves(h, k);
      var y := Flip(x, j);
      if SameBlock(h, x, k) {
        OneHead(h, x, k);
      } else if SameBlock(h, y, k) {
        OneHead(h, y, k);
        BaseOfBlock(h, x, k + 1);
      } else {
        assert Matched(s, x, j);
      }
    }
  }

  lemma {:induction false} BaseOfBlock(x: nat, y: nat, k: nat)
    requires SameBlock(x, y, k)
    ensures Base(x, k) == Base(y, k)
  {
    BaseIsHead(x, k);
    BaseIsHead(y, k);
    OneHead(Base(x, k), Base(y, k), k);
  }

  // --- alloc_pages

  /** The first order from `order` on with a free block, or MAX_ORDER + 1. */
  function FirstOrder(area: seq<seq<nat>>, order: nat): (i: nat)
    requires |area| == MAX_ORDER + 1 && order <= MAX_ORDER + 1
    ensures order <= i <= MAX_ORDER + 1
    ensures i <= MAX_ORDER ==> area[i] != []
    ensures forall j :: order <= j < i ==> area[j] == []
    decreases MAX_ORDER + 1 - order
  {
    if order == MAX_ORDER + 1 || area[order] != [] then order else FirstOrder(area, order + 1)
  }

  /** Halve the held block at p from order i down to `order`, freeing each upper half. */
  ghost function SplitDown(s: State, p: nat, order: nat, i: nat): (r: State)
    requires Inv(s) && HoldsOnly(s, p, i) && order <= i
    ensures Inv(r) && HoldsOnly(r, p, order)
    decreases i
  {
    if i == order then s
    else
      SplitStep(s, p, i - 1);
      SplitDown(FreeUpperHalf(s, p, i - 1), p, order, i - 1)
  }

  lemma SplitDownStep(s: State, p: nat, order: nat, i: nat)
    requires Inv(s) && HoldsOnly(s, p, i + 1) && order <= i
    ensures Inv(FreeUpperHalf(s, p, i)) && HoldsOnly(FreeUpperHalf(s, p, i), p, i)
    ensures SplitDown(s, p, order, i + 1) == SplitDown(FreeUpperHalf(s, p, i), p, order, i)
  {
    SplitStep(s, p, i);
  }

  ghost function FreeUpperHalf(s: State, p: nat, k: nat): State
    requires Inv(s) && HoldsOnly(s, p, k + 1)
  {
    SplitInv(s, p, k);
    assert k + 1 <= MAX_ORDER;
    var b := Flip(p, k);
    Release(Split(s, p, k), b, k, s.pages[b].(order := k))
  }

  lemma SplitStep(s: State, p: nat, k: nat)
    requires Inv(s) && HoldsOnly(s, p, k + 1)
    ensures var r := FreeUpperHalf(s, p, k);
            && Inv(r) && HoldsOnly(r, p, k)
            && SameOutside(s, r, p, k + 1)
            && AllOfKind(r, Flip(p, k), k, Free)
            && p < |s.pages| && r.pages[p] == s.pages[p]
            && k < MAX_ORDER && r.area == s.area[k := [Flip(p, k)] + s.area[k]]
            && forall lo, hi :: Coalesced(s, lo, hi) ==> Coalesced(r, lo, hi)
  {
    SplitInv(s, p, k);
    FlipHalves(p, k);
    var m := Split(s, p, k);
    var b := Flip(p, k);
    var page := s.pages[b].(order := k);
    ReleaseInv(m, b, k, page);
    var r := Release(m, b, k, page);
    forall y | 0 <= y < |s.tags|
      ensures SameBlock(b, y, k) ==> SameBlock(p, y, k + 1)
      ensures SameBlock(p, y, k + 1) && !SameBlock(p, y, k) ==> SameBlock(b, y, k)
    {
      if SameBlock(b, y, k) {
        Nested(b, y, k, k + 1);
      }
      if SameBlock(p, y, k + 1) {
        FlipCovers(p, y, k);
      }
    }
    forall lo: nat, hi: nat | Coalesced(s, lo, hi)
      ensures Coalesced(r, lo, hi)
    {
      forall x: nat, j: nat | Matched(m, x, j)
        ensures Matched(s, x, j)
      {
      }
      ReleaseCoalesced(m, b, k, page, lo, hi);
    }
  }

  lemma {:induction false} SplitDownEffect(s: State, p: nat, order: nat, i: nat)
    requires Inv(s) && HoldsOnly(s, p, i) && order <= i
    ensures var r := SplitDown(s, p, order, i);
            && SameOutside(s, r, p, i)
            && (forall y :: 0 <= y < |s.tags| && SameBlock(p, y, i) && !SameBlock(p, y, order) ==>
                r.tags[y].kind == Free)
            && p < |s.pages| && r.pages[p] == s.pages[p]
            && |r.area| == |s.area|
            && (forall j :: 0 <= j < |s.area| ==>
                  r.area[j] == if order <= j < i then [Flip(p, j)] + s.area[j] else s.area[j])
            && forall lo, hi :: Coalesced(s, lo, hi) ==> Coalesced(r, lo, hi)
    decreases i
  {
    if i > order {
      SplitStep(s, p, i - 1);
      var m := FreeUpperHalf(s, p, i - 1);
      SplitDownEffect(m, p, order, i - 1);
      forall y | 0 <= y < |s.tags|
        ensures SameBlock(p, y, i - 1) ==> SameBlock(p, y, i)
        ensures SameBlock(p, y, i) && !SameBlock(p, y, i - 1) ==> SameBlock(Flip(p, i - 1), y, i - 1)
      {
        if SameBlock(p, y, i - 1) {
          Nested(p, y, i - 1, i);
        }
        if SameBlock(p, y, i) {
          FlipCovers(p, y, i - 1);
        }
      }
    }
  }

  lemma GrabEffect(s: State, k: nat, i: nat)
    requires Inv(s) && Quiet(s) && k <= MAX_ORDER && i < |s.area[k]|
    ensures var h := s.area[k][i]; var r := Grab(s, k, i);
            && Inv(r) && HoldsOnly(r, h, k) && HeadOf(s.tags, h, k, Free)
            && AllOfKind(s, h, k, Free) && SameOutside(s, r, h, k)
            && forall lo, hi :: Coalesced(s, lo, hi) ==> Coalesced(r, lo, hi)
  {
    GrabInv(s, k, i);
    var h := s.area[k][i];
    var r := Grab(s, k, i);
    forall y | 0 <= y < |s.tags| && SameBlock(h, y, k)
      ensures s.tags[y].kind == Free
    {
      BlockTag(s, h, y);
    }
    forall lo: nat, hi: nat | Coalesced(s, lo, hi)
      ensures Coalesced(r, lo, hi)
    {
      forall x: nat, j: nat | Matched(r, x, j)
        ensures Matched(s, x, j)
      {
      }
    }
  }

  /** Write the fields of the held block's head page. */
  function SetPage(s: State, h: nat, page: Page): State
    requires h < |s.pages|
  {
    s.(pages := s.pages[h := page])
  }

  lemma SetPageEffect(s: State, h: nat, k: nat, page: Page)
    requires Inv(s) && HoldsOnly(s, h, k) && page.cacheidx == s.pages[h].cacheidx
    ensures var r := SetPage(s, h, page);
            && Inv(r) && HoldsOnly(r, h, k) && SameOutside(s, r, h, k)
            && forall lo, hi :: Coalesced(s, lo, hi) ==> Coalesced(r, lo, hi)
  {
    var r := SetPage(s, h, page);
    forall lo: nat, hi: nat | Coalesced(s, lo, hi)
      ensures Coalesced(r, lo, hi)
    {
      forall x: nat, j: nat | Matched(r, x, j)
        ensures Matched(s, x, j)
      {
      }
    }
  }

  lemma HandOutEffect(s: State, h: nat, k: nat, kind: Kind)
    requires Inv(s) && HoldsOnly(s, h, k) && s.pages[h].order == k && s.pages[h].used == 1
    requires kind == Allocated || kind == Reserved
    ensures var r := HandOut(s, h, k, s.pages[h], kind);
            && Inv(r) && Quiet(r) && HeadOf(r.tags, h, k, kind)
            && AllOfKind(r, h, k, kind) && SameOutside(s, r, h, k)
            && r.pages == s.pages
            && forall lo, hi :: Coalesced(s, lo, hi) ==> Coalesced(r, lo, hi)
  {
    HandOutInv(s, h, k, s.pages[h], kind);
    var r := HandOut(s, h, k, s.pages[h], kind);
    assert r.pages == s.pages;
    forall lo: nat, hi: nat | Coalesced(s, lo, hi)
      ensures Coalesced(r, lo, hi)
    {
      forall x: nat, j: nat | Matched(r, x, j)
        ensures Matched(s, x, j)
      {
      }
    }
  }

  /** The first block of the first non-empty list, marked as in use by the caller. */
  ghost function TakeFirst(s: State, order: nat, i: nat): State
    requires Inv(s) && i <= MAX_ORDER && s.area[i] != []
  {
    GrabInv(s, i, 0);
    var p := s.area[i][0];
    SetPage(Grab(s, i, 0), p, s.pages[p].(order := order, used := 1, refcount := 1))
  }

  lemma TakeFirstEffect(s: State, order: nat, i: nat)
    requires Inv(s) && Quiet(s) && i <= MAX_ORDER && s.area[i] != []
    ensures var p := s.area[i][0]; var r := TakeFirst(s, order, i);
            && Inv(r) && HoldsOnly(r, p, i) && HeadOf(s.tags, p, i, Free)
            && AllOfKind(s, p, i, Free) && SameOutside(s, r, p, i)
            && r.area == s.area[i := s.area[i][1..]]
            && r.pages[p] == s.pages[p].(order := order, used := 1, refcount := 1)
            && forall lo, hi :: Coalesced(s, lo, hi) ==> Coalesced(r, lo, hi)
  {
    GrabEffect(s, i, 0);
    var p := s.area[i][0];
    var g := Grab(s, i, 0);
    SetPageEffect(g, p, i, s.pages[p].(order := order, used := 1, refcount := 1));
    assert RemoveAt(s.area[i], 0) == s.area[i][1..];
  }

  ghost function Alloc(s: State, order: nat): (State, Option<nat>)
    requires Inv(s) && Quiet(s)
  {
    if order > MAX_ORDER || FirstOrder(s.area, order) > MAX_ORDER then (s, None)
    else
      var i := FirstOrder(s.area, order);
      var p := s.area[i][0];
      TakeFirstEffect(s, order, i);
      var m := SplitDown(TakeFirst(s, order, i), p, order, i);
      (HandOut(m, p, order, m.pages[p], Allocated), Some(p))
  }

  lemma AllocRun(s: State, order: nat)
    requires Inv(s) && Quiet(s) && order <= MAX_ORDER && FirstOrder(s.area, order) <= MAX_ORDER
    ensures var (r, res) := Alloc(s, order);
            && Inv(r) && Quiet(r) && (Coalesced(s, 0, 0) ==> Coalesced(r, 0, 0))
            && res.Some? && Allocates(s, r, order, res.value)
  {
    var i := FirstOrder(s.area, order);
    var p := s.area[i][0];
    TakeFirstEffect(s, order, i);
    var t := TakeFirst(s, order, i);
    SplitDownEffect(t, p, order, i);
    var m := SplitDown(t, p, order, i);
    HandOutEffect(m, p, order, Allocated);
    var r := HandOut(m, p, order, m.pages[p], Allocated);
    forall y | 0 <= y < |s.tags| && SameBlock(p, y, order)
      ensures r.tags[y] == Tag(order, Allocated)
    {
      BlockTag(r, p, y);
    }
    RunGiven(s, t, m, r, order, i, p);
  }

  /** Taking the first block, splitting it and handing out the lowest part, put together. */
  lemma RunGiven(s: State, t: State, m: State, r: State, order: nat, i: nat, p: nat)
    requires |s.area| == |t.area| == |m.area| == |r.area| == MAX_ORDER + 1
    requires order <= i <= MAX_ORDER && i == FirstOrder(s.area, order) && s.area[i] != [] && p == s.area[i][0]
    requires |s.tags| % 1024 == 0 && HeadOf(s.tags, p, i, Free) && AllOfKind(s, p, i, Free)
    requires SameOutside(s, t, p, i) && SameOutside(t, m, p, i) && SameOutside(m, r, p, order)
    requires t.area == s.area[i := s.area[i][1..]] && r.area == m.area
    requires forall j :: 0 <= j <= MAX_ORDER ==>
               m.area[j] == if order <= j < i then [Flip(p, j)] + t.area[j] else t.area[j]
    requires t.pages[p] == s.pages[p].(order := order, used := 1, refcount := 1)
    requires m.pages[p] == t.pages[p] && r.pages == m.pages
    requires forall y :: 0 <= y < |s.tags| && SameBlock(p, y, i) && !SameBlock(p, y, order) ==> m.tags[y].kind == Free
    requires forall y :: 0 <= y < |s.tags| && SameBlock(p, y, order) ==> r.tags[y] == Tag(order, Allocated)
    ensures Allocates(s, r, order, p)
  {
    AlignedLower(p, i, order);
    RunInMemory(p, order, |s.tags|);
    forall y: nat | y < |s.tags| && SameBlock(p, y, order)
      ensures SameBlock(p, y, i)
    {
      Nested(p, y, order, i);
    }
  }

  /** alloc_pages hands out an aligned run of 2^order pages that was free, and only that run;
      it refuses only when no free block is large enough. */
  lemma AllocEffect(s: State, order: nat)
    requires Inv(s) && Quiet(s)
    ensures var (r, res) := Alloc(s, order);
            && Inv(r) && Quiet(r)
            && (FullyCoalesced(s) ==> FullyCoalesced(r))
            && (res.None? <==> forall h: nat, k: nat :: order <= k ==> !FreeHead(s.tags, h, k))
            && (res.None? ==> r == s)
            && (res.Some? ==> order <= MAX_ORDER && Allocates(s, r, order, res.value))
  {
    if order > MAX_ORDER || FirstOrder(s.area, order) > MAX_ORDER {
      forall h: nat, k: nat | order <= k
        ensures !FreeHead(s.tags, h, k)
      {
        if k <= MAX_ORDER {
          assert s.area[k] == [];
          assert h !in s.area[k];
        }
      }
    } else {
      AllocRun(s, order);
      EmptyRange(s);
      EmptyRange(Alloc(s, order).0);
      var i := FirstOrder(s.area, order);
      assert s.area[i][0] in s.area[i];
      assert FreeHead(s.tags, s.area[i][0], i);
    }
  }

  /** The step from s to r gives the run of 2^order pages at p to the caller. */
  ghost predicate Allocates(s: State, r: State, order: nat, p: nat)
    requires |s.area| == |r.area| == MAX_ORDER + 1 && order <= MAX_ORDER
  {
    && Aligned(p, order) && p + Pow2(order) <= |s.tags| == |s.pages|
    && SameOutside(s, r, p, order)
    && (forall y :: p <= y < p + Pow2(order) ==> s.tags[y].kind == Free && r.tags[y] == Tag(order, Allocated))
    && r.pages[p] == s.pages[p].(order := order, used := 1, refcount := 1)
    && var i := FirstOrder(s.area, order);
       && i <= MAX_ORDER && p == s.area[i][0]
       && forall j :: 0 <= j <= MAX_ORDER ==>
            r.area[j] == if j == i then s.area[i][1..]
                         else if order <= j < i then [Flip(p, j)] else s.area[j]
  }

  // --- free_pages

  /** A buddy that looks free is a free head of the same order, so it is on free_area[k];
      and whatever it looks like, it heads its block. */
  lemma BuddyIsHead(s: State, h: nat, k: nat)
    requires Inv(s) && HoldsOnly(s, h, k) && k < MAX_ORDER
    ensures var b := Flip(h, k);
            && b < |s.tags| && IsHead(s.tags, b) && s.tags[b].ord <= k && s.tags[b].kind != Limbo
            && (s.pages[b].used == 0 && s.pages[b].order == k <==> FreeHead(s.tags, b, k) && s.pages[b].used == 0)
  {
    var b := Flip(h, k);
    FlipHalves(h, k);
    WithinMemory(h, b, k + 1, |s.tags|);
    if s.tags[b].ord > k {
      Nested(b, h, k + 1, s.tags[b].ord);
      assert false;
    }
    AlignedLower(b, k, s.tags[b].ord);
  }

  /** Merge the held block at h with its buddy. */
  ghost function Absorb(s: State, h: nat, k: nat): State
    requires Inv(s) && HoldsOnly(s, h, k) && k < MAX_ORDER && FreeHead(s.tags, Flip(h, k), k)
  {
    assert Flip(h, k) in s.area[k];
    Join(Grab(s, k, IndexOf(s.area[k], Flip(h, k))), h, k)
  }

  function Lower(h: nat, k: nat): nat {
    if h > Flip(h, k) then Flip(h, k) else h
  }

  lemma AbsorbEffect(s: State, h: nat, k: nat)
    requires Inv(s) && HoldsOnly(s, h, k) && k < MAX_ORDER && FreeHead(s.tags, Flip(h, k), k)
    ensures var r := Absorb(s, h, k);
            && Inv(r) && HoldsOnly(r, Lower(h, k), k + 1) && SameBlock(h, Lower(h, k), k + 1)
            && r.pages == s.pages && SameOutside(s, r, h, k + 1)
            && (forall y :: 0 <= y < |s.tags| && SameBlock(h, y, k + 1) && !SameBlock(h, y, k) ==>
                s.tags[y].kind == Free)
            && forall lo, hi :: Coalesced(s, lo, hi) ==> Coalesced(r, lo, hi)
  {
    var b := Flip(h, k);
    FlipHalves(h, k);
    assert b in s.area[k];
    var i := IndexOf(s.area[k], b);
    GrabInv(s, k, i);
    var g := Grab(s, k, i);
    JoinInv(g, h, k);
    var r := Join(g, h, k);
    forall y | 0 <= y < |s.tags|
      ensures SameBlock(h, y, k + 1) && !SameBlock(h, y, k) ==> s.tags[y].kind == Free
      ensures SameBlock(h, y, k) || SameBlock(b, y, k) ==> SameBlock(h, y, k + 1)
    {
      if SameBlock(h, y, k) {
        Nested(h, y, k, k + 1);
      }
      if SameBlock(b, y, k) {
        Nested(b, y, k, k + 1);
        BlockTag(s, b, y);
      }
      if SameBlock(h, y, k + 1) {
        FlipCovers(h, y, k);
      }
    }
    forall lo: nat, hi: nat | Coalesced(s, lo, hi)
      ensures Coalesced(r, lo, hi)
    {
      forall x: nat, j: nat | Matched(r, x, j)
        ensures Matched(s, x, j)
      {
      }
    }
  }

  /** The loop of free_pages: merge upwards while the buddy is free and unused, then link the block. */
  ghost function MergeUp(s: State, h: nat, k: nat): State
    requires Inv(s) && HoldsOnly(s, h, k) && k <= MAX_ORDER
    decreases MAX_ORDER - k
  {
    if k < MAX_ORDER && (BuddyIsHead(s, h, k); s.pages[Flip(h, k)].used == 0 && s.pages[Flip(h, k)].order == k) then
      AbsorbEffect(s, h, k);
      MergeUp(Absorb(s, h, k), Lower(h, k), k + 1)
    else
      Release(s, h, k, s.pages[h].(order := k, used := 0, refcount := 0))
  }

  /** What freeing the held block of order k around h achieves. */
  ghost predicate Frees(s: State, r: State, h: nat, k: nat) {
    && Inv(r) && Quiet(r) && SameOutside(s, r, h, k) && AllOfKind(r, h, k, Free)
    && forall lo, hi :: Coalesced(s, lo, hi) ==> Coalesced(r, lo, hi)
  }

  lemma {:induction false} MergeUpEffect(s: State, h: nat, k: nat)
    requires Inv(s) && HoldsOnly(s, h, k) && k <= MAX_ORDER
    ensures Frees(s, MergeUp(s, h, k), h, k)
    decreases MAX_ORDER - k
  {
    if k < MAX_ORDER {
      BuddyIsHead(s, h, k);
    }
    if k < MAX_ORDER && s.pages[Flip(h, k)].used == 0 && s.pages[Flip(h, k)].order == k {
      AbsorbEffect(s, h, k);
      var m := Absorb(s, h, k);
      MergeUpEffect(m, Lower(h, k), k + 1);
      FreesMore(s, m, MergeUp(m, Lower(h, k), k + 1), h, k);
    } else {
      ReleaseFrees(s, h, k);
    }
  }

  lemma FreesMore(s: State, m: State, r: State, h: nat, k: nat)
    requires |s.pages| == |s.tags| && k < MAX_ORDER
    requires Frees(m, r, Lower(h, k), k + 1) && SameBlock(h, Lower(h, k), k + 1)
    requires m.pages == s.pages && SameOutside(s, m, h, k + 1)
    requires forall y :: 0 <= y < |s.tags| && SameBlock(h, y, k + 1) && !SameBlock(h, y, k) ==> s.tags[y].kind == Free
    requires forall lo, hi :: Coalesced(s, lo, hi) ==> Coalesced(m, lo, hi)
    ensures Frees(s, r, h, k)
  {
    forall y | 0 <= y < |s.tags| && SameBlock(h, y, k)
      ensures SameBlock(h, y, k + 1)
    {
      Nested(h, y, k, k + 1);
    }
  }

  lemma ReleaseFrees(s: State, h: nat, k: nat)
    requires Inv(s) && HoldsOnly(s, h, k) && k <= MAX_ORDER
    requires k < MAX_ORDER ==>
               Flip(h, k) < |s.pages| && !(s.pages[Flip(h, k)].used == 0 && s.pages[Flip(h, k)].order == k)
    ensures Frees(s, Release(s, h, k, s.pages[h].(order := k, used := 0, refcount := 0)), h, k)
  {
    var page := s.pages[h].(order := k, used := 0, refcount := 0);
    ReleaseInv(s, h, k, page);
    forall lo: nat, hi: nat | Coalesced(s, lo, hi)
      ensures Coalesced(Release(s, h, k, page), lo, hi)
    {
      ReleaseCoalesced(s, h, k, page, lo, hi);
    }
  }

  lemma TakeBackEffect(s: State, h: nat, k: nat)
    requires Inv(s) && Quiet(s) && HeadOf(s.tags, h, k, Allocated)
    ensures var r := TakeBack(s, h, k);
            && Inv(r) && HoldsOnly(r, h, k) && SameOutside(s, r, h, k)
            && forall lo, hi :: Coalesced(s, lo, hi) ==> Coalesced(r, lo, hi)
  {
    TakeBackInv(s, h, k);
    var r := TakeBack(s, h, k);
    forall lo: nat, hi: nat | Coalesced(s, lo, hi)
      ensures Coalesced(r, lo, hi)
    {
      forall x: nat, j: nat | Matched(r, x, j)
        ensures Matched(s, x, j)
      {
      }
    }
  }

  /** free_pages, which finds the block's order in its head page. */
  ghost function FreeBlock(s: State, h: nat): State
    requires Inv(s) && Quiet(s) && h < |s.pages| && HeadOf(s.tags, h, s.pages[h].order, Allocated)
  {
    TakeBackEffect(s, h, s.pages[h].order);
    MergeUp(TakeBack(s, h, s.pages[h].order), h, s.pages[h].order)
  }

  /** free_pages frees exactly the run that was allocated at h, whatever merges happen. */
  lemma FreeEffect(s: State, h: nat, order: nat)
    requires Inv(s) && Quiet(s) && HeadOf(s.tags, h, order, Allocated)
    ensures h + Pow2(order) <= |s.tags| && s.pages[h].order == order
    ensures var r := FreeBlock(s, h);
            && Inv(r) && Quiet(r) && SameOutside(s, r, h, order)
            && (FullyCoalesced(s) ==> FullyCoalesced(r))
            && (forall y :: h <= y < h + Pow2(order) ==> s.tags[y] == Tag(order, Allocated) && r.tags[y].kind == Free)
  {
    TakeBackEffect(s, h, order);
    var m := TakeBack(s, h, order);
    MergeUpEffect(m, h, order);
    FreesRun(s, m, FreeBlock(s, h), h, order);
  }

  lemma FreesRun(s: State, m: State, r: State, h: nat, order: nat)
    requires Inv(s) && HeadOf(s.tags, h, order, Allocated)
    requires SameOutside(s, m, h, order) && Frees(m, r, h, order)
    requires forall lo, hi :: Coalesced(s, lo, hi) ==> Coalesced(m, lo, hi)
    ensures h + Pow2(order) <= |s.tags| && SameOutside(s, r, h, order) && (FullyCoalesced(s) ==> FullyCoalesced(r))
    ensures forall y :: h <= y < h + Pow2(order) ==> s.tags[y] == Tag(order, Allocated) && r.tags[y].kind == Free
  {
    EmptyRange(s);
    EmptyRange(r);
    assert Coalesced(s, 0, 0) ==> Coalesced(m, 0, 0);
    RunInMemory(h, order, |s.tags|);
    forall y | h <= y < h + Pow2(order)
      ensures SameBlock(h, y, order) && s.tags[y] == Tag(order, Allocated)
    {
      BlockTag(s, h, y);
    }
  }

  /** The run freed at h is now part of the block of order j headed by g, which is first on its free
      list; only the fields of this head were written, and it could not be merged any further. */
  ghost predicate FreedInto(s: State, r: State, h: nat, g: nat, j: nat) {
    && g < |s.pages| && j <= MAX_ORDER && |r.area| == MAX_ORDER + 1
    && Aligned(g, j) && SameBlock(h, g, j)
    && r.pages == s.pages[g := s.pages[g].(order := j, used := 0, refcount := 0)]
    && r.area[j] != [] && r.area[j][0] == g
    && (j < MAX_ORDER ==>
          Flip(g, j) < |s.pages| && (s.pages[Flip(g, j)].used != 0 || s.pages[Flip(g, j)].order != j))
  }

  lemma {:induction false} MergedHead(s: State, h: nat, k: nat) returns (g: nat, j: nat)
    requires Inv(s) && HoldsOnly(s, h, k) && k <= MAX_ORDER
    ensures k <= j && FreedInto(s, MergeUp(s, h, k), h, g, j)
    decreases MAX_ORDER - k
  {
    if k < MAX_ORDER {
      BuddyIsHead(s, h, k);
    }
    if k < MAX_ORDER && s.pages[Flip(h, k)].used == 0 && s.pages[Flip(h, k)].order == k {
      AbsorbEffect(s, h, k);
      var m := Absorb(s, h, k);
      g, j := MergedHead(m, Lower(h, k), k + 1);
      FreedIntoLarger(s, m, MergeUp(m, Lower(h, k), k + 1), h, k, g, j);
    } else {
      g, j := h, k;
      FreedIntoItself(s, h, k);
    }
  }

  lemma FreedIntoItself(s: State, h: nat, k: nat)
    requires Inv(s) && HeadOf(s.tags, h, k, Limbo) && k <= MAX_ORDER
    requires k < MAX_ORDER ==>
               Flip(h, k) < |s.pages| && (s.pages[Flip(h, k)].used != 0 || s.pages[Flip(h, k)].order != k)
    ensures FreedInto(s, Release(s, h, k, s.pages[h].(order := k, used := 0, refcount := 0)), h, h, k)
  {
  }

  lemma FreedIntoLarger(s: State, m: State, r: State, h: nat, k: nat, g: nat, j: nat)
    requires m.pages == s.pages && FreedInto(m, r, Lower(h, k), g, j) && k < j && SameBlock(h, Lower(h, k), k + 1)
    ensures FreedInto(s, r, h, g, j)
  {
    Nested(h, Lower(h, k), k + 1, j);
  }

  /** free_pages writes the head of the merged block and no other page. */
  lemma FreedHead(s: State, h: nat, order: nat) returns (g: nat, j: nat)
    requires Inv(s) && Quiet(s) && HeadOf(s.tags, h, order, Allocated)
    ensures s.pages[h].order == order && order <= j && FreedInto(s, FreeBlock(s, h), h, g, j)
  {
    TakeBackEffect(s, h, order);
    g, j := MergedHead(TakeBack(s, h, order), h, order);
  }

  // --- reserve_memory, over the page range [lo, hi)

  predicate Inside(h: nat, k: nat, lo: nat, hi: nat) {
    lo <= h && h + Pow2(k) <= hi
  }

  predicate Clear(h: nat, k: nat, lo: nat, hi: nat) {
    h >= hi || h + Pow2(k) <= lo
  }

  /** What reserve_memory does with a free block wholly inside the range. */
  ghost function ReserveBlock(s: State, k: nat, i: nat): State
    requires Inv(s) && Quiet(s) && k <= MAX_ORDER && i < |s.area[k]|
  {
    GrabInv(s, k, i);
    var h := s.area[k][i];
    var page := s.pages[h].(order := k, used := 1);
    HandOut(SetPage(Grab(s, k, i), h, page), h, k, page, Reserved)
  }

  /** What it does with a free block that straddles an end of the range. */
  ghost function HalveBlock(s: State, k: nat, i: nat): State
    requires Inv(s) && Quiet(s) && 0 < k <= MAX_ORDER && i < |s.area[k]|
  {
    GrabInv(s, k, i);
    var h := s.area[k][i];
    var g := Grab(s, k, i);
    SplitInv(g, h, k - 1);
    var half := Flip(h, k - 1);
    var m := Release(Split(g, h, k - 1), h, k - 1, s.pages[h].(order := k - 1));
    Release(m, half, k - 1, m.pages[half].(order := k - 1))
  }

  lemma ReserveBlockEffect(s: State, k: nat, i: nat, lo: nat, hi: nat)
    requires Inv(s) && Quiet(s) && k <= MAX_ORDER && i < |s.area[k]|
    ensures var h := s.area[k][i]; var r := ReserveBlock(s, k, i);
            && Inv(r) && Quiet(r) && (Coalesced(s, lo, hi) ==> Coalesced(r, lo, hi)) && SameOutside(s, r, h, k)
            && AllOfKind(s, h, k, Free) && AllOfKind(r, h, k, Reserved)
            && HeadOf(s.tags, h, k, Free)
            && r.area == s.area[k := RemoveAt(s.area[k], i)]
  {
    GrabEffect(s, k, i);
    var h := s.area[k][i];
    var page := s.pages[h].(order := k, used := 1);
    SetPageEffect(Grab(s, k, i), h, k, page);
    HandOutEffect(SetPage(Grab(s, k, i), h, page), h, k, Reserved);
  }

  /** The pages of the block now form two free blocks; of the fields only two orders changed. */
  lemma HalveBlockShape(s: State, k: nat, i: nat)
    requires Inv(s) && Quiet(s) && 0 < k <= MAX_ORDER && i < |s.area[k]|
    ensures HeadOf(s.tags, s.area[k][i], k, Free)
    ensures var h := s.area[k][i]; var r := HalveBlock(s, k, i);
            && |r.pages| == |s.pages| == |r.tags| == |s.tags|
            && (forall y :: 0 <= y < |s.tags| ==> r.tags[y] == if SameBlock(h, y, k) then Tag(k - 1, Free)
                else s.tags[y])
            && (forall y :: 0 <= y < |s.pages| ==>
                  r.pages[y] == if y == h || y == Flip(h, k - 1) then s.pages[y].(order := k - 1) else s.pages[y])
            && r.area == s.area[k := RemoveAt(s.area[k], i)][k - 1 := [Flip(h, k - 1), h] + s.area[k - 1]]
  {
    GrabInv(s, k, i);
    var h := s.area[k][i];
    SplitInv(Grab(s, k, i), h, k - 1);
    forall y: nat
      ensures SameBlock(h, y, k) <==> SameBlock(h, y, k - 1) || SameBlock(Flip(h, k - 1), y, k - 1)
    {
      HalvesCover(h, y, k - 1);
    }
    assert [Flip(h, k - 1)] + ([h] + s.area[k - 1]) == [Flip(h, k - 1), h] + s.area[k - 1];
  }

  lemma HalveBlockInv(s: State, k: nat, i: nat)
    requires Inv(s) && Quiet(s) && 0 < k <= MAX_ORDER && i < |s.area[k]|
    ensures Inv(HalveBlock(s, k, i))
  {
    GrabInv(s, k, i);
    var h := s.area[k][i];
    var g := Grab(s, k, i);
    SplitInv(g, h, k - 1);
    FlipHalves(h, k - 1);
    var page := s.pages[h].(order := k - 1);
    ReleaseInv(Split(g, h, k - 1), h, k - 1, page);
    var m := Release(Split(g, h, k - 1), h, k - 1, page);
    var half := Flip(h, k - 1);
    ReleaseInv(m, half, k - 1, m.pages[half].(order := k - 1));
  }

  lemma HalveBlockCoalesced(s: State, k: nat, i: nat, lo: nat, hi: nat)
    requires Inv(s) && Quiet(s) && 0 < k <= MAX_ORDER && i < |s.area[k]|
    requires !Clear(s.area[k][i], k, lo, hi) && Coalesced(s, lo, hi)
    ensures |HalveBlock(s, k, i).pages| == |HalveBlock(s, k, i).tags| && Coalesced(HalveBlock(s, k, i), lo, hi)
  {
    HalveBlockShape(s, k, i);
    var h, r := s.area[k][i], HalveBlock(s, k, i);
    forall x: nat, j: nat | Matched(r, x, j)
      ensures Meets(x, j + 1, lo, hi)
    {
      FlipHalves(x, j);
      if SameBlock(h, x, k) || SameBlock(h, Flip(x, j), k) {
        BaseOfBlock(h, x, k);
        BaseIsHead(h, k);
        OneHead(h, Base(h, k), k);
      } else {
        assert Matched(s, x, j);
      }
    }
  }

  lemma HalveBlockEffect(s: State, k: nat, i: nat, lo: nat, hi: nat)
    requires Inv(s) && Quiet(s) && 0 < k <= MAX_ORDER && i < |s.area[k]|
    requires !Clear(s.area[k][i], k, lo, hi)
    ensures var h := s.area[k][i]; var r := HalveBlock(s, k, i);
            && Inv(r) && Quiet(r) && (Coalesced(s, lo, hi) ==> Coalesced(r, lo, hi)) && SameOutside(s, r, h, k)
            && AllOfKind(s, h, k, Free) && AllOfKind(r, h, k, Free)
            && r.area == s.area[k := RemoveAt(s.area[k], i)][k - 1 := [Flip(h, k - 1), h] + s.area[k - 1]]
  {
    HalveBlockShape(s, k, i);
    HalveBlockInv(s, k, i);
    HalveBlockKinds(s, HalveBlock(s, k, i), s.area[k][i], k);
    if Coalesced(s, lo, hi) {
      HalveBlockCoalesced(s, k, i, lo, hi);
    }
  }

  lemma HalveBlockKinds(s: State, r: State, h: nat, k: nat)
    requires Inv(s) && Quiet(s) && 0 < k && HeadOf(s.tags, h, k, Free)
    requires |r.pages| == |s.pages| == |r.tags| == |s.tags|
    requires forall y :: 0 <= y < |s.tags| ==> r.tags[y] == if SameBlock(h, y, k) then Tag(k - 1, Free) else s.tags[y]
    requires forall y :: 0 <= y < |s.pages| ==>
               r.pages[y] == if y == h || y == Flip(h, k - 1) then s.pages[y].(order := k - 1) else s.pages[y]
    ensures Quiet(r) && SameOutside(s, r, h, k) && AllOfKind(s, h, k, Free) && AllOfKind(r, h, k, Free)
  {
    FlipHalves(h, k - 1);
    forall y | 0 <= y < |s.tags| && SameBlock(h, y, k)
      ensures s.tags[y].kind == Free
    {
      BlockTag(s, h, y);
    }
  }

  /** The range reservation so far: pages change from free to reserved, inside the range only. */
  ghost predicate Reserves(s: State, r: State, lo: nat, hi: nat) {
    && |r.pages| == |s.pages| == |r.tags| == |s.tags|
    && (forall y :: 0 <= y < |s.pages| ==> r.pages[y].cacheidx == s.pages[y].cacheidx)
    && (forall y :: 0 <= y < |s.tags| && s.tags[y].kind != Free ==> r.tags[y] == s.tags[y] && r.pages[y] == s.pages[y])
    && (forall y :: 0 <= y < |s.tags| && s.tags[y].kind == Free ==>
          r.tags[y].kind == Free || (r.tags[y].kind == Reserved && lo <= y < hi))
  }

  /** One pass of list_for_each_safe over free_area[k], standing at its i-th entry. */
  ghost function ReserveFrom(s: State, k: nat, i: nat, lo: nat, hi: nat): (r: State)
    requires Inv(s) && Quiet(s) && k <= MAX_ORDER && i <= |s.area[k]|
    ensures Inv(r) && Quiet(r) && Reserves(s, r, lo, hi) && (Coalesced(s, lo, hi) ==> Coalesced(r, lo, hi))
    decreases |s.area[k]| - i
  {
    if i == |s.area[k]| then s
    else if Clear(s.area[k][i], k, lo, hi) then ReserveFrom(s, k, i + 1, lo, hi)
    else
      ReserveStepEffect(s, k, i, lo, hi);
      if Inside(s.area[k][i], k, lo, hi) then ReserveFrom(ReserveBlock(s, k, i), k, i, lo, hi)
      else ReserveFrom(HalveBlock(s, k, i), k, i, lo, hi)
  }

  lemma ReserveStepEffect(s: State, k: nat, i: nat, lo: nat, hi: nat)
    requires Inv(s) && Quiet(s) && k <= MAX_ORDER && i < |s.area[k]|
    requires !Clear(s.area[k][i], k, lo, hi)
    ensures !Inside(s.area[k][i], k, lo, hi) ==> 0 < k
    ensures var r := if Inside(s.area[k][i], k, lo, hi) then ReserveBlock(s, k, i) else HalveBlock(s, k, i);
            && Inv(r) && Quiet(r) && Reserves(s, r, lo, hi) && (Coalesced(s, lo, hi) ==> Coalesced(r, lo, hi))
            && r.area[k] == RemoveAt(s.area[k], i)
            && forall j :: k < j <= MAX_ORDER ==> r.area[j] == s.area[j]
  {
    var h := s.area[k][i];
    assert k == 0 ==> Pow2(k) == 1;
    if Inside(h, k, lo, hi) {
      ReserveBlockEffect(s, k, i, lo, hi);
      forall y: nat | SameBlock(h, y, k)
        ensures lo <= y < hi
      {
        BlockIsRun(h, y, k);
      }
    } else {
      HalveBlockEffect(s, k, i, lo, hi);
    }
  }

  lemma {:induction false} ReserveFromEffect(s: State, k: nat, i: nat, lo: nat, hi: nat)
    requires Inv(s) && Quiet(s) && k <= MAX_ORDER && i <= |s.area[k]|
    requires forall j :: 0 <= j < i ==> Clear(s.area[k][j], k, lo, hi)
    ensures var r := ReserveFrom(s, k, i, lo, hi);
            && (forall x :: x in r.area[k] ==> Clear(x, k, lo, hi))
            && forall j :: k < j <= MAX_ORDER ==> r.area[j] == s.area[j]
    decreases |s.area[k]| - i
  {
    if i < |s.area[k]| {
      if Clear(s.area[k][i], k, lo, hi) {
        ReserveFromEffect(s, k, i + 1, lo, hi);
      } else {
        ReserveStepEffect(s, k, i, lo, hi);
        ReserveFromEffect(if Inside(s.area[k][i], k, lo, hi) then ReserveBlock(s, k, i)
            else HalveBlock(s, k, i), k, i, lo, hi);
      }
    }
  }

  // --- empty ranges

  /** The empty range, whose ends are hi <= lo, cuts the free memory at page m: it lies inside one free
      block or between two, m is where halving that block of order j + 1 would cut it, and both halves
      carry used == 0. */
  ghost predicate CutAt(s: State, m: nat, j: nat, lo: nat, hi: nat)
    requires |s.pages| == |s.tags|
  {
    && j < MAX_ORDER && m < |s.tags| && Aligned(m, j) && Flip(m, j) < m
    && Flip(m, j) < hi <= m <= lo < m + Pow2(j)
    && HalfUnused(s, m, j) && HalfUnused(s, Flip(m, j), j)
  }

  /** Page x starts a half of order j, or lies within a larger free block, and carries used == 0. */
  ghost predicate HalfUnused(s: State, x: nat, j: nat)
    requires |s.pages| == |s.tags| && x < |s.tags|
  {
    s.tags[x].kind == Free && s.tags[x].ord >= j && s.pages[x].used == 0
  }

  /** Halving a block that straddles the empty range neither makes nor removes a cut. */
  lemma CutStays(s: State, k: nat, i: nat, m: nat, j: nat, lo: nat, hi: nat)
    requires Inv(s) && Quiet(s) && 0 < k <= MAX_ORDER && i < |s.area[k]| && hi <= lo
    requires !Clear(s.area[k][i], k, lo, hi)
    ensures |HalveBlock(s, k, i).pages| == |HalveBlock(s, k, i).tags|
    ensures CutAt(HalveBlock(s, k, i), m, j, lo, hi) <==> CutAt(s, m, j, lo, hi)
  {
    HalveBlockShape(s, k, i);
    if j < MAX_ORDER && m < |s.tags| && Aligned(m, j) && Flip(m, j) < m && Flip(m, j) < hi <= m <= lo < m + Pow2(j) {
      HalfStays(s, HalveBlock(s, k, i), s.area[k][i], k, m, m, j, lo, hi);
      HalfStays(s, HalveBlock(s, k, i), s.area[k][i], k, Flip(m, j), m, j, lo, hi);
    }
  }

  lemma HalfStays(s: State, r: State, h: nat, k: nat, x: nat, m: nat, j: nat, lo: nat, hi: nat)
    requires Inv(s) && 0 < k && HeadOf(s.tags, h, k, Free) && h < hi && lo < h + Pow2(k)
    requires |r.pages| == |s.pages| == |r.tags| == |s.tags|
    requires forall y :: 0 <= y < |s.tags| ==> r.tags[y] == if SameBlock(h, y, k) then Tag(k - 1, Free) else s.tags[y]
    requires forall y :: 0 <= y < |s.pages| ==>
               r.pages[y] == if y == h || y == Flip(h, k - 1) then s.pages[y].(order := k - 1) else s.pages[y]
    requires m < |s.tags| && Aligned(m, j) && Flip(m, j) < hi <= m <= lo < m + Pow2(j) && (x == m || x == Flip(m, j))
    ensures HalfUnused(r, x, j) <==> HalfUnused(s, x, j)
  {
    UpperHalf(m, j);
    if SameBlock(h, x, k) {
      BlockTag(s, h, x);
      if k == j {
        FlipHalves(m, j);
        OneHead(h, x, k);
      }
    }
  }

  lemma {:induction false} CutStaysFrom(s: State, k: nat, i: nat, m: nat, j: nat, lo: nat, hi: nat)
    requires Inv(s) && Quiet(s) && k <= MAX_ORDER && i <= |s.area[k]| && hi <= lo
    ensures CutAt(ReserveFrom(s, k, i, lo, hi), m, j, lo, hi) <==> CutAt(s, m, j, lo, hi)
    decreases |s.area[k]| - i
  {
    if i < |s.area[k]| {
      if Clear(s.area[k][i], k, lo, hi) {
        CutStaysFrom(s, k, i + 1, m, j, lo, hi);
      } else {
        ReserveStepEffect(s, k, i, lo, hi);
        CutStays(s, k, i, m, j, lo, hi);
        CutStaysFrom(HalveBlock(s, k, i), k, i, m, j, lo, hi);
      }
    }
  }

  /** The outer loop of reserve_memory, from order k down to 0. */
  ghost function ReserveDown(s: State, k: nat, lo: nat, hi: nat): State
    requires Inv(s) && Quiet(s) && k <= MAX_ORDER
    decreases k
  {
    var m := ReserveFrom(s, k, 0, lo, hi);
    if k == 0 then m else ReserveDown(m, k - 1, lo, hi)
  }

  /** The free blocks of order k and above are clear of the range. */
  ghost predicate ClearFrom(s: State, k: nat, lo: nat, hi: nat)
    requires |s.area| == MAX_ORDER + 1
  {
    forall j, x :: k <= j <= MAX_ORDER && x in s.area[j] ==> Clear(x, j, lo, hi)
  }

  ghost predicate SameCuts(s: State, r: State, lo: nat, hi: nat)
    requires |s.pages| == |s.tags| && |r.pages| == |r.tags|
  {
    forall m, j :: CutAt(r, m, j, lo, hi) <==> CutAt(s, m, j, lo, hi)
  }

  /** The first pass leads to p, from which the others go on; no block of its order meets the range then. */
  lemma FirstPassClears(s: State, k: nat, lo: nat, hi: nat) returns (p: State)
    requires Inv(s) && Quiet(s) && k <= MAX_ORDER && ClearFrom(s, k + 1, lo, hi)
    ensures Inv(p) && Quiet(p) && ClearFrom(p, k, lo, hi)
    ensures k == 0 ==> ReserveDown(s, k, lo, hi) == p
    ensures k > 0 ==> ReserveDown(s, k, lo, hi) == ReserveDown(p, k - 1, lo, hi)
  {
    p := ReserveFrom(s, k, 0, lo, hi);
    ReserveFromEffect(s, k, 0, lo, hi);
  }

  lemma FirstPassCuts(s: State, k: nat, lo: nat, hi: nat) returns (p: State)
    requires Inv(s) && Quiet(s) && k <= MAX_ORDER && hi <= lo
    ensures Inv(p) && Quiet(p) && SameCuts(s, p, lo, hi)
    ensures k == 0 ==> ReserveDown(s, k, lo, hi) == p
    ensures k > 0 ==> ReserveDown(s, k, lo, hi) == ReserveDown(p, k - 1, lo, hi)
  {
    p := ReserveFrom(s, k, 0, lo, hi);
    forall m, j
      ensures CutAt(p, m, j, lo, hi) <==> CutAt(s, m, j, lo, hi)
    {
      CutStaysFrom(s, k, 0, m, j, lo, hi);
    }
  }

  lemma {:induction false} ReserveDownKeeps(s: State, k: nat, lo: nat, hi: nat)
    requires Inv(s) && Quiet(s) && k <= MAX_ORDER
    ensures var r := ReserveDown(s, k, lo, hi);
            Inv(r) && Quiet(r) && Reserves(s, r, lo, hi) && (Coalesced(s, lo, hi) ==> Coalesced(r, lo, hi))
    decreases k
  {
    if k > 0 {
      ReserveDownKeeps(ReserveFrom(s, k, 0, lo, hi), k - 1, lo, hi);
    }
  }

  /** In the end every free block is clear of the range. */
  lemma {:induction false} ReserveDownClears(s: State, k: nat, lo: nat, hi: nat) returns (r: State)
    requires Inv(s) && Quiet(s) && k <= MAX_ORDER && ClearFrom(s, k + 1, lo, hi)
    ensures r == ReserveDown(s, k, lo, hi) && Inv(r) && ClearFrom(r, 0, lo, hi)
    decreases k
  {
    var p := FirstPassClears(s, k, lo, hi);
    if k > 0 {
      r := ReserveDownClears(p, k - 1, lo, hi);
    } else {
      r := p;
    }
  }

  /** An empty range has made no cut and removed none. */
  lemma {:induction false} ReserveDownCuts(s: State, k: nat, lo: nat, hi: nat) returns (r: State)
    requires Inv(s) && Quiet(s) && k <= MAX_ORDER && hi <= lo
    ensures r == ReserveDown(s, k, lo, hi) && Inv(r) && SameCuts(s, r, lo, hi)
    decreases k
  {
    var p := FirstPassCuts(s, k, lo, hi);
    if k > 0 {
      r := ReserveDownCuts(p, k - 1, lo, hi);
      SameCutsTrans(s, p, r, lo, hi);
    } else {
      r := p;
    }
  }

  lemma SameCutsTrans(s: State, m: State, r: State, lo: nat, hi: nat)
    requires |s.pages| == |s.tags| && |m.pages| == |m.tags| && |r.pages| == |r.tags|
    requires SameCuts(s, m, lo, hi) && SameCuts(m, r, lo, hi)
    ensures SameCuts(s, r, lo, hi)
  {
  }

  ghost function Reserve(s: State, lo: nat, hi: nat): State
    requires Inv(s) && Quiet(s)
  {
    ReserveDown(s, MAX_ORDER, lo, hi)
  }

  /** reserve_memory removes from the free pages exactly those of the range.  It leaves a coalesced
      allocator coalesced unless the range is empty; CoalescedUnlessCut decides that case. */
  lemma ReserveEffect(s: State, lo: nat, hi: nat)
    requires Inv(s) && Quiet(s)
    ensures var r := Reserve(s, lo, hi);
            && Inv(r) && Quiet(r) && Reserves(s, r, lo, hi)
            && (lo < hi && FullyCoalesced(s) ==> FullyCoalesced(r))
            && forall y: nat :: y < |s.tags| && s.tags[y].kind == Free ==>
                 r.tags[y].kind == if lo <= y < hi then Reserved else Free
  {
    ReserveDownKeeps(s, MAX_ORDER, lo, hi);
    var r := ReserveDownClears(s, MAX_ORDER, lo, hi);
    forall y: nat | y < |r.tags| && r.tags[y].kind == Free
      ensures !(lo <= y < hi)
    {
      FreeBlockClear(r, y, lo, hi);
    }
    if lo < hi && FullyCoalesced(s) {
      NothingMatched(r, lo, hi);
    }
  }

  lemma FreeBlockClear(r: State, y: nat, lo: nat, hi: nat)
    requires Inv(r) && y < |r.tags| && r.tags[y].kind == Free
    requires ClearFrom(r, 0, lo, hi)
    ensures !(lo <= y < hi)
  {
    var k := r.tags[y].ord;
    var h := Base(y, k);
    BaseIsHead(y, k);
    BlockIsRun(h, y, k);
    assert r.tags[h] == r.tags[y];
    assert FreeHead(r.tags, h, k);
    assert h in r.area[k];
  }

  /** Once no free block meets the range, no unmerged pair is left. */
  lemma NothingMatched(r: State, lo: nat, hi: nat)
    requires Inv(r) && Coalesced(r, lo, hi) && lo < hi
    requires ClearFrom(r, 0, lo, hi)
    ensures FullyCoalesced(r)
  {
    forall x: nat, k: nat
      ensures !Matched(r, x, k)
    {
      if k < MAX_ORDER && FreeHead(r.tags, x, k) && FreeHead(r.tags, Flip(x, k), k) {
        assert x in r.area[k] && Flip(x, k) in r.area[k];
        var low := Lower(x, k);
        FlipAligned(x, k);
        FlipHalves(x, k);
        BaseIsHead(x, k + 1);
        OneHead(low, Base(x, k + 1), k + 1);
        FlipUp(low, k);
        assert !Meets(x, k + 1, lo, hi);
      }
    }
  }

  /** When every free block is clear of the empty range, a cut is a pair of unmerged halves. */
  lemma CutIsMatched(r: State, m: nat, j: nat, lo: nat, hi: nat)
    requires Inv(r) && CutAt(r, m, j, lo, hi)
    requires ClearFrom(r, 0, lo, hi)
    ensures Matched(r, m, j)
  {
    UpperHalf(m, j);
    FlipHalves(m, j);
    HalfIsHead(r, m, m, j, lo, hi);
    HalfIsHead(r, Flip(m, j), m, j, lo, hi);
  }

  lemma HalfIsHead(r: State, x: nat, m: nat, j: nat, lo: nat, hi: nat)
    requires Inv(r) && CutAt(r, m, j, lo, hi) && (x == m || x == Flip(m, j))
    requires ClearFrom(r, 0, lo, hi)
    ensures r.tags[x].ord == j
  {
    var o := r.tags[x].ord;
    if o > j {
      FreeBlockListed(r, x);
      LargerBlock(x, m, j, o);
      assert false;
    }
  }

  /** The block of a free page is listed. */
  lemma FreeBlockListed(r: State, y: nat)
    requires Inv(r) && y < |r.tags| && r.tags[y].kind == Free
    ensures r.tags[y].ord <= MAX_ORDER && Base(y, r.tags[y].ord) in r.area[r.tags[y].ord]
  {
    BaseIsHead(y, r.tags[y].ord);
    BlockTag(r, y, Base(y, r.tags[y].ord));
  }

  /** An unmerged pair across an empty range that all free blocks are clear of is a cut. */
  lemma MatchedIsCut(r: State, x: nat, k: nat, lo: nat, hi: nat) returns (m: nat)
    requires Inv(r) && Coalesced(r, lo, hi) && Matched(r, x, k) && hi <= lo
    requires ClearFrom(r, 0, lo, hi)
    ensures CutAt(r, m, k, lo, hi)
  {
    assert x in r.area[k] && Flip(x, k) in r.area[k];
    FlipHalves(x, k);
    m := if x > Flip(x, k) then x else Flip(x, k);
    UpperHalf(m, k);
    FlipHalves(m, k);
    BaseIsHead(x, k + 1);
    OneHead(Flip(m, k), Base(x, k + 1), k + 1);
  }

  lemma ClearedUnlessCut(r: State, lo: nat, hi: nat)
    requires Inv(r) && Coalesced(r, lo, hi) && ClearFrom(r, 0, lo, hi) && hi <= lo
    ensures FullyCoalesced(r) <==> forall m, j :: !CutAt(r, m, j, lo, hi)
  {
    forall m, j
      ensures CutAt(r, m, j, lo, hi) ==> Matched(r, m, j)
    {
      if CutAt(r, m, j, lo, hi) {
        CutIsMatched(r, m, j, lo, hi);
      }
    }
    forall x: nat, k: nat | Matched(r, x, k)
      ensures exists m :: CutAt(r, m, k, lo, hi)
    {
      var m := MatchedIsCut(r, x, k, lo, hi);
    }
  }

  /** Reserving an empty range, which takes no page, leaves a coalesced allocator coalesced if and only
      if the range makes no cut; a range that is not empty always does. */
  lemma CoalescedUnlessCut(s: State, lo: nat, hi: nat)
    requires Inv(s) && Quiet(s) && FullyCoalesced(s)
    ensures var r := Reserve(s, lo, hi);
            |r.pages| == |r.tags| && (FullyCoalesced(r) <==> forall m, j :: !CutAt(s, m, j, lo, hi))
  {
    if hi <= lo {
      ReserveDownKeeps(s, MAX_ORDER, lo, hi);
      var r := ReserveDownClears(s, MAX_ORDER, lo, hi);
      var c := ReserveDownCuts(s, MAX_ORDER, lo, hi);
      assert Coalesced(s, lo, hi);
      ClearedUnlessCut(r, lo, hi);
    } else {
      ReserveEffect(s, lo, hi);
    }
  }

  // --- mem_init and whole runs

  /** The state mem_init builds: one free block of the highest order every 1024 pages. */
  function InitialPage(i: nat): Page {
    Page(if i % 1024 == 0 then MAX_ORDER else 0, 0, CACHE_UNALLOC, 0)
  }

  function Initial(blocks: nat): State {
    var none: seq<nat> := [];
    State(seq(1024 * blocks, i requires i >= 0 => InitialPage(i)),
          seq(MAX_ORDER, i => none) + [seq(blocks, b requires b >= 0 => 1024 * b)],
          seq(1024 * blocks, i => Tag(MAX_ORDER, Free)))
  }

  lemma {:induction false} AlignedTen(x: nat)
    ensures Aligned(x, 10) <==> x % 1024 == 0
  {
    BaseIsHead(x, 10);
    ShiftTen(x);
    ShiftTen(Base(x, 10));
    BlockIsRun(Base(x, 10), x, 10);
    PowTen();
    if x % 1024 == 0 {
      BlockIsRun(Base(x, 10), Base(x, 10) + 1023, 10);
      ShiftTen(Base(x, 10) + 1023);
    }
    if Aligned(x, 10) {
      BlockIsRun(x, x + 1023, 10);
      ShiftTen(x + 1023);
    }
  }

  lemma PowTen()
    ensures Pow2(10) == 1024
  {
    assert Pow2(5) == 32;
  }

  /** The fields of mem_map, and the free lists, as mem_init leaves them. */
  lemma InitialFields(blocks: nat, i: nat)
    requires i < 1024 * blocks
    ensures |Initial(blocks).pages| == 1024 * blocks
    ensures Initial(blocks).pages[i] == Page(if i % 1024 == 0 then 10 else 0, 0, 0xffff_ffff, 0)
    ensures i in Initial(blocks).area[10] <==> i % 1024 == 0
  {
    if i % 1024 == 0 {
      assert Initial(blocks).area[10][i / 1024] == i;
    }
  }

  lemma InitialInv(blocks: nat)
    ensures Inv(Initial(blocks)) && Quiet(Initial(blocks)) && FullyCoalesced(Initial(blocks))
  {
    var s := Initial(blocks);
    forall x: nat | x < |s.tags|
      ensures IsHead(s.tags, x) <==> x % 1024 == 0
    {
      AlignedTen(x);
    }
    forall k, x: nat | 0 <= k <= MAX_ORDER
      ensures x in s.area[k] <==> FreeHead(s.tags, x, k)
    {
      if k == MAX_ORDER && x < |s.tags| && x % 1024 == 0 {
        assert s.area[k][x / 1024] == x;
      }
    }
  }

  datatype Op = AllocPages(order: nat) | FreePages(pfn: nat) | ReserveRange(lo: nat, hi: nat)

  /** Only blocks that were allocated are freed. */
  predicate Permitted(s: State, op: Op) {
    match op
    case AllocPages(_) => true
    case FreePages(p) => IsHead(s.tags, p) && s.tags[p].kind == Allocated
    case ReserveRange(_, _) => true
  }

  ghost function Step(s: State, op: Op): State
    requires Inv(s) && Quiet(s) && Permitted(s, op)
  {
    match op
    case AllocPages(order) => Alloc(s, order).0
    case FreePages(p) => FreeBlock(s, p)
    case ReserveRange(lo, hi) => Reserve(s, lo, hi)
  }

  lemma StepInv(s: State, op: Op)
    requires Inv(s) && Quiet(s) && Permitted(s, op)
    ensures Inv(Step(s, op)) && Quiet(Step(s, op))
    ensures FullyCoalesced(s) ==> (FullyCoalesced(Step(s, op)) <==> !Cuts(s, op))
  {
    match op
    case AllocPages(order) => AllocEffect(s, order);
    case FreePages(p) => FreeEffect(s, p, s.tags[p].ord);
    case ReserveRange(lo, hi) =>
      ReserveEffect(s, lo, hi);
      if FullyCoalesced(s) {
        CoalescedUnlessCut(s, lo, hi);
      }
  }

  /** The operation reserves an empty range that cuts the free memory. */
  ghost predicate Cuts(s: State, op: Op)
    requires |s.pages| == |s.tags|
  {
    op.ReserveRange? && exists m, j :: CutAt(s, m, j, op.lo, op.hi)
  }

  /** `trace` is a run from mem_init's free memory through the operations `ops`. */
  ghost predicate IsRun(blocks: nat, trace: seq<State>, ops: seq<Op>) {
    && |trace| == |ops| + 1
    && trace[0] == Initial(blocks)
    && forall i :: 0 <= i < |ops| ==> Leads(trace[i], ops[i], trace[i + 1])
  }

  ghost predicate Leads(s: State, op: Op, r: State) {
    Inv(s) && Quiet(s) ==> Permitted(s, op) && r == Step(s, op)
  }

  /** Every reachable state is partitioned into blocks. */
  lemma {:induction false} RunInv(blocks: nat, trace: seq<State>, ops: seq<Op>, i: nat)
    requires IsRun(blocks, trace, ops) && i <= |ops|
    ensures Inv(trace[i]) && Quiet(trace[i])
  {
    if i == 0 {
      InitialInv(blocks);
    } else {
      RunInv(blocks, trace, ops, i - 1);
      assert Leads(trace[i - 1], ops[i - 1], trace[i - 1 + 1]);
      StepInv(trace[i - 1], ops[i - 1]);
    }
  }

  ghost predicate CoalescedUpTo(trace: seq<State>, i: nat)
    requires i < |trace|
  {
    forall j :: 0 <= j <= i ==> |trace[j].pages| == |trace[j].tags| && FullyCoalesced(trace[j])
  }

  ghost predicate CutBefore(trace: seq<State>, ops: seq<Op>, i: nat)
    requires i <= |ops| && |trace| == |ops| + 1
  {
    exists j :: 0 <= j < i && |trace[j].pages| == |trace[j].tags| && Cuts(trace[j], ops[j])
  }

  /** A run stays coalesced exactly as long as it reserves no empty range that cuts the free memory. */
  lemma {:induction false} RunCoalesced(blocks: nat, trace: seq<State>, ops: seq<Op>, i: nat)
    requires IsRun(blocks, trace, ops) && i <= |ops|
    ensures CoalescedUpTo(trace, i) <==> !CutBefore(trace, ops, i)
  {
    RunInv(blocks, trace, ops, i);
    if i == 0 {
      InitialInv(blocks);
    } else {
      RunCoalesced(blocks, trace, ops, i - 1);
      RunInv(blocks, trace, ops, i - 1);
      assert Leads(trace[i - 1], ops[i - 1], trace[i - 1 + 1]);
      StepInv(trace[i - 1], ops[i - 1]);
      UpToStep(trace, ops, i);
    }
  }

  lemma UpToStep(trace: seq<State>, ops: seq<Op>, i: nat)
    requires 0 < i <= |ops| && |trace| == |ops| + 1
    requires |trace[i - 1].pages| == |trace[i - 1].tags| && |trace[i].pages| == |trace[i].tags|
    ensures CoalescedUpTo(trace, i) <==> CoalescedUpTo(trace, i - 1) && FullyCoalesced(trace[i])
    ensures CutBefore(trace, ops, i) <==> CutBefore(trace, ops, i - 1) || Cuts(trace[i - 1], ops[i - 1])
  {
  }

  /** Reserving the empty range at the middle of the first block splits the block, reserves nothing and
      leaves its two unused halves unmerged. */
  lemma EmptyReserveSplits()
    ensures var s := Initial(1);
            && Inv(s) && Quiet(s) && FullyCoalesced(s) && CutAt(s, 512, 9, 512, 512)
            && var r := Reserve(s, 512, 512); |r.pages| == |r.tags| && !FullyCoalesced(r)
  {
    InitialInv(1);
    PowTen();
    AlignedTen(0);
    FlipUp(0, 9);
    FlipHalves(0, 9);
    AlignedLower(0, 10, 9);
    assert Pow2(9) == 512 && Flip(0, 9) == 512;
    assert CutAt(Initial(1), 512, 9, 512, 512);
    CoalescedUnlessCut(Initial(1), 512, 512);
  }
}
