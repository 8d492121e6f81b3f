/** The facts behind dup_mmap and copy_page_range: two trees over one set of frames. */
module ForkFacts {
  import opened Common
  import opened Sv39
  import opened Cow

  // --- the count of a frame fits in 32 bits

  /** The word a leaf entry lives in. */
  function LeafWord(s: Vm, o: (nat, nat)): nat
    requires o.0 < |s.space.pgd|
  {
    SlotFrame(s.space, o.0, 0, o.1) * WORDS + o.1 % WORDS
  }

  lemma LeafWordsDiffer(s: Vm, o: (nat, nat), u: (nat, nat))
    requires VmInv(s) && o != u && o.0 < |s.space.pgd| && u.0 < |s.space.pgd|
    requires o.1 < Bound(0) && u.1 < Bound(0) && Leaf(s, o.0, o.1) != 0 && Leaf(s, u.0, u.1) != 0
    ensures LeafWord(s, o) != LeafWord(s, u) && LeafWord(s, o) < |s.space.mem| * WORDS
  {
    LeafWordBound(s, o);
    LeafWordBound(s, u);
    var t, r := SlotFrame(s.space, o.0, 0, o.1), SlotFrame(s.space, u.0, 0, u.1);
    assert t == r ==> o.0 == u.0 && o.1 / WORDS == u.1 / WORDS;
    WordsDiffer(t, o.1 % WORDS, r, u.1 % WORDS);
  }

  lemma WordsDiffer(t: nat, i: nat, r: nat, j: nat)
    requires i < WORDS && j < WORDS && (t != r || i != j)
    ensures t * WORDS + i != r * WORDS + j
  {
  }

  lemma LeafWordBound(s: Vm, o: (nat, nat))
    requires VmInv(s) && o.0 < |s.space.pgd| && o.1 < Bound(0) && Leaf(s, o.0, o.1) != 0
    ensures LeafWord(s, o) < |s.space.mem| * WORDS
    ensures SlotFrame(s.space, o.0, 0, o.1) < |s.space.mem| == |s.space.role|
    ensures s.space.role[SlotFrame(s.space, o.0, 0, o.1)] == Table(0, o.0, o.1 / WORDS)
  {
    SlotRole(s.space, o.0, 0, o.1);
  }

  lemma {:induction false} BoundedSet(a: set<nat>, n: nat)
    requires forall x :: x in a ==> x < n
    ensures |a| <= n
  {
    if n == 0 {
      assert a == {};
    } else {
      BoundedSet(a - {n - 1}, n - 1);
    }
  }

  lemma {:induction false} InjectiveBound<T>(o: set<T>, f: T -> nat, n: nat)
    requires forall x :: x in o ==> f(x) < n
    requires forall x, y :: x in o && y in o && x != y ==> f(x) != f(y)
    ensures |o| <= n
  {
    var image := set x | x in o :: f(x);
    ImageSize(o, f);
    BoundedSet(image, n);
  }

  lemma {:induction false} ImageSize<T>(o: set<T>, f: T -> nat)
    requires forall x, y :: x in o && y in o && x != y ==> f(x) != f(y)
    ensures |set x | x in o :: f(x)| == |o|
    decreases |o|
  {
    if o != {} {
      var y :| y in o;
      var rest := o - {y};
      ImageSize(rest, f);
      assert (set x | x in o :: f(x)) == (set x | x in rest :: f(x)) + {f(y)};
    } else {
      assert (set x | x in o :: f(x)) == {};
    }
  }

  /** No frame is mapped by more leaves than there are words of memory: distinct owners have
      their entries in distinct words. */
  lemma CountBound(s: Vm, d: nat)
    requires VmInv(s) && d < |s.space.role| && s.space.role[d].Data?
    ensures s.refs[d] <= |s.space.mem| * WORDS
  {
    var o := s.space.role[d].owners;
    var f := (x: (nat, nat)) => if x.0 < |s.space.pgd| then LeafWord(s, x) else 0;
    forall x, y | x in o && y in o && x != y
      ensures f(x) < |s.space.mem| * WORDS && f(x) != f(y)
    {
      assert MapsTo(s, x, d) && MapsTo(s, y, d);
      LeafWordsDiffer(s, x, y);
    }
    forall x | x in o
      ensures f(x) < |s.space.mem| * WORDS
    {
      assert MapsTo(s, x, d);
      LeafWordBound(s, x);
    }
    InjectiveBound(o, f, |s.space.mem| * WORDS);
  }

  // --- a child tree growing inside its parent's

  /** The child has areas like the parent's, no entry the parent lacks, and no leaf of its own. */
  ghost predicate Forking(s: Vm, parent: nat, child: nat) {
    && parent != child && parent < |s.space.pgd| && child < |s.space.pgd|
    && |s.vmas| == |s.space.pgd| && s.vmas[child] == s.vmas[parent]
    && (forall l, x :: 0 <= l <= 2 && 0 <= x < Bound(l) && Walk(s.space, child, l, x) != 0 ==>
        Walk(s.space, parent, l, x) != 0)
    && (forall v :: 0 <= v < Bound(0) && Leaf(s, child, v) != 0 ==> Leaf(s, child, v) == Leaf(s, parent, v))
  }

  /** Page v needs no more copying. */
  predicate PageCopied(s: Vm, parent: nat, child: nat, v: nat)
    requires parent < |s.space.pgd| && child < |s.space.pgd|
  {
    Leaf(s, parent, v) != 0 ==> Leaf(s, child, v) != 0
  }

  /** A step of the copy of the pages lo, .., hi - 1: nothing seen by the others changes, copied pages
      stay copied, and outside these pages no leaf of any tree changes. */
  ghost predicate CopyStep(backing: nat -> nat, s: Vm, r: Vm, parent: nat, child: nat, lo: nat, hi: nat)
    requires Forking(s, parent, child) && Forking(r, parent, child)
  {
    && r.vmas == s.vmas && r.space.pgd == s.space.pgd && |r.space.mem| == |s.space.mem|
    && (forall q, u :: 0 <= q < |s.space.pgd| && q != child && 0 <= u < Bound(0) ==>
          PageView(backing, r, q, u) == PageView(backing, s, q, u))
    && (forall u :: 0 <= u < Bound(0) && PageCopied(s, parent, child, u) ==> PageCopied(r, parent, child, u))
    && LeavesKept(s, r, parent, child, lo, hi)
  }

  /** A leaf changes only within the range, and then it is the parent's and loses its write bit, or
      it is the child's and was absent. */
  ghost predicate LeavesKept(s: Vm, r: Vm, parent: nat, child: nat, lo: nat, hi: nat)
    requires |r.space.pgd| == |s.space.pgd|
  {
    forall q, u :: 0 <= q < |s.space.pgd| && 0 <= u < Bound(0) ==>
        LeafKept(Leaf(s, q, u), Leaf(r, q, u), q, u, parent, child, lo, hi)
  }

  predicate LeafKept(before: nat, after: nat, q: nat, u: nat, parent: nat, child: nat, lo: nat, hi: nat) {
    || after == before
    || (lo <= u < hi && q == parent && after == ClearWrite(before))
    || (lo <= u < hi && q == child && before == 0)
  }

  lemma LeavesKeptTrans(s: Vm, m: Vm, r: Vm, parent: nat, child: nat, lo: nat, hi: nat)
    requires |s.space.pgd| == |m.space.pgd| == |r.space.pgd| && parent != child
    requires LeavesKept(s, m, parent, child, lo, hi) && LeavesKept(m, r, parent, child, lo, hi)
    ensures LeavesKept(s, r, parent, child, lo, hi)
  {
    forall q, u | 0 <= q < |s.space.pgd| && 0 <= u < Bound(0)
      ensures LeafKept(Leaf(s, q, u), Leaf(r, q, u), q, u, parent, child, lo, hi)
    {
      assert LeafKept(Leaf(s, q, u), Leaf(m, q, u), q, u, parent, child, lo, hi);
      assert LeafKept(Leaf(m, q, u), Leaf(r, q, u), q, u, parent, child, lo, hi);
      ClearBits(Leaf(s, q, u));
    }
  }

  lemma CopyStepWiden(backing: nat -> nat, s: Vm, r: Vm, parent: nat, child: nat, lo: nat, hi: nat, first: nat,
      last: nat)
    requires Forking(s, parent, child) && Forking(r, parent, child)
    requires CopyStep(backing, s, r, parent, child, lo, hi) && first <= lo && hi <= last
    ensures CopyStep(backing, s, r, parent, child, first, last)
  {
    forall q, u | 0 <= q < |s.space.pgd| && 0 <= u < Bound(0)
      ensures LeafKept(Leaf(s, q, u), Leaf(r, q, u), q, u, parent, child, first, last)
    {
      assert LeafKept(Leaf(s, q, u), Leaf(r, q, u), q, u, parent, child, lo, hi);
    }
  }

  lemma CopyStepTrans(backing: nat -> nat, s: Vm, m: Vm, r: Vm, parent: nat, child: nat, lo: nat, hi: nat)
    requires Forking(s, parent, child) && Forking(m, parent, child) && Forking(r, parent, child)
    requires CopyStep(backing, s, m, parent, child, lo, hi) && CopyStep(backing, m, r, parent, child, lo, hi)
    ensures CopyStep(backing, s, r, parent, child, lo, hi)
  {
    LeavesKeptTrans(s, m, r, parent, child, lo, hi);
    forall q, u | 0 <= q < |s.space.pgd| && q != child && 0 <= u < Bound(0)
      ensures PageView(backing, r, q, u) == PageView(backing, s, q, u)
    {
      assert PageView(backing, m, q, u) == PageView(backing, s, q, u);
    }
    forall u | 0 <= u < Bound(0) && PageCopied(s, parent, child, u)
      ensures PageCopied(r, parent, child, u)
    {
      assert PageCopied(m, parent, child, u);
    }
  }

  /** All pages of the areas have been copied. */
  ghost predicate AreasCopied(s: Vm, parent: nat, child: nat, areas: seq<Vma>)
    requires parent < |s.space.pgd| && child < |s.space.pgd|
  {
    && (forall a :: a in areas ==> VmaOk(a))
    && (forall a, v: nat :: a in areas && InArea(a, v) ==> PageCopied(s, parent, child, v))
  }

  predicate InArea(a: Vma, v: nat) {
    a.start <= v * PAGE_SIZE < a.end
  }

  ghost predicate RunCopied(s: Vm, parent: nat, child: nat, first: nat, last: nat)
    requires parent < |s.space.pgd| && child < |s.space.pgd|
  {
    last <= Bound(0) && forall v: nat :: first <= v < last ==> PageCopied(s, parent, child, v)
  }

  lemma PageStays(backing: nat -> nat, s: Vm, r: Vm, parent: nat, child: nat, lo: nat, hi: nat, v: nat)
    requires Forking(s, parent, child) && Forking(r, parent, child) && CopyStep(backing, s, r, parent, child, lo, hi)
    requires v < Bound(0) && PageCopied(s, parent, child, v)
    ensures PageCopied(r, parent, child, v)
  {
  }

  lemma RunStays(backing: nat -> nat, s: Vm, r: Vm, parent: nat, child: nat, lo: nat, hi: nat, first: nat, last: nat)
    requires Forking(s, parent, child) && Forking(r, parent, child) && CopyStep(backing, s, r, parent, child, lo, hi)
    requires RunCopied(s, parent, child, first, last)
    ensures RunCopied(r, parent, child, first, last)
  {
    forall v: nat | first <= v < last
      ensures PageCopied(r, parent, child, v)
    {
      PageStays(backing, s, r, parent, child, lo, hi, v);
    }
  }

  lemma AreasStay(backing: nat -> nat, s: Vm, r: Vm, parent: nat, child: nat, lo: nat, hi: nat, areas: seq<Vma>)
    requires Forking(s, parent, child) && Forking(r, parent, child) && CopyStep(backing, s, r, parent, child, lo, hi)
    requires AreasCopied(s, parent, child, areas)
    ensures AreasCopied(r, parent, child, areas)
  {
    forall a, v: nat | a in areas && InArea(a, v)
      ensures PageCopied(r, parent, child, v)
    {
      assert VmaOk(a);
      PageStays(backing, s, r, parent, child, lo, hi, v);
    }
  }

  lemma RunExtends(s: Vm, parent: nat, child: nat, first: nat, last: nat)
    requires parent < |s.space.pgd| && child < |s.space.pgd| && first <= last < Bound(0)
    requires RunCopied(s, parent, child, first, last) && PageCopied(s, parent, child, last)
    ensures RunCopied(s, parent, child, first, last + 1)
  {
  }

  lemma AreasExtend(s: Vm, parent: nat, child: nat, areas: seq<Vma>, a: Vma)
    requires parent < |s.space.pgd| && child < |s.space.pgd|
    requires AreasCopied(s, parent, child, areas) && AreasCopied(s, parent, child, [a])
    ensures AreasCopied(s, parent, child, areas + [a])
  {
    forall b, v: nat | b in areas + [a] && InArea(b, v)
      ensures PageCopied(s, parent, child, v)
    {
      assert b in areas || b in [a];
    }
  }

  lemma AreaIsRun(s: Vm, parent: nat, child: nat, a: Vma)
    requires parent < |s.space.pgd| && child < |s.space.pgd| && VmaOk(a)
    requires RunCopied(s, parent, child, a.start / PAGE_SIZE, a.end / PAGE_SIZE)
    ensures AreasCopied(s, parent, child, [a])
  {
    forall v: nat | InArea(a, v)
      ensures PageCopied(s, parent, child, v)
    {
      assert a.start / PAGE_SIZE <= v < a.end / PAGE_SIZE;
    }
  }

  /** After one more page of an area. */
  lemma PageJoins(backing: nat -> nat, s: Vm, m: Vm, r: Vm, parent: nat, child: nat, page: nat, first: nat, last: nat)
    requires Forking(s, parent, child) && Forking(m, parent, child) && Forking(r, parent, child)
    requires CopyStep(backing, s, m, parent, child, first, last)
               && CopyStep(backing, m, r, parent, child, page, page + 1)
    requires first <= page < last <= Bound(0) && RunCopied(m, parent, child, first, page)
               && PageCopied(r, parent, child, page)
    ensures CopyStep(backing, s, r, parent, child, first, last) && RunCopied(r, parent, child, first, page + 1)
  {
    CopyStepWiden(backing, m, r, parent, child, page, page + 1, first, last);
    CopyStepTrans(backing, s, m, r, parent, child, first, last);
    RunStays(backing, m, r, parent, child, first, last, first, page);
    RunExtends(r, parent, child, first, page);
  }

  /** After one more area. */
  lemma AreaJoins(backing: nat -> nat, s: Vm, m: Vm, r: Vm, parent: nat, child: nat, areas: seq<Vma>, a: Vma)
    requires Forking(s, parent, child) && Forking(m, parent, child) && Forking(r, parent, child)
    requires CopyStep(backing, s, m, parent, child, 0, Bound(0)) && VmaOk(a)
    requires CopyStep(backing, m, r, parent, child, a.start / PAGE_SIZE, a.end / PAGE_SIZE)
    requires AreasCopied(m, parent, child, areas) && AreasCopied(r, parent, child, [a])
    ensures CopyStep(backing, s, r, parent, child, 0, Bound(0)) && AreasCopied(r, parent, child, areas + [a])
  {
    CopyStepWiden(backing, m, r, parent, child, a.start / PAGE_SIZE, a.end / PAGE_SIZE, 0, Bound(0));
    CopyStepTrans(backing, s, m, r, parent, child, 0, Bound(0));
    AreasStay(backing, m, r, parent, child, 0, Bound(0), areas);
    AreasExtend(r, parent, child, areas, a);
  }

  /** Where both walks go: to the tables for x in the two trees, or, once the parent has no entry,
      together through the same frames. */
  ghost predicate Cursor(s: Vm, parent: nat, child: nat, level: nat, x: nat, src: nat, dst: nat)
    requires parent < |s.space.pgd| && child < |s.space.pgd|
  {
    if HasSlot(s.space, parent, level, x) then
      HasSlot(s.space, child, level, x)
      && src == SlotFrame(s.space, parent, level, x) && dst == SlotFrame(s.space, child, level, x)
    else src == dst
  }

  /** Entering a table in the child under an entry the parent has. */
  lemma CopyTable(backing: nat -> nat, s: Vm, parent: nat, child: nat, level: nat, x: nat, f: nat, lo: nat, hi: nat)
    requires VmInv(s) && Forking(s, parent, child) && 1 <= level <= 2 && x < Bound(level)
    requires HasSlot(s.space, child, level, x) && Walk(s.space, child, level, x) == 0
               && Walk(s.space, parent, level, x) != 0
    requires f < |s.space.mem| && s.space.role[f] == Unused
    ensures var r := AddTable(s, child, level, x, f);
            && VmInv(r) && Forking(r, parent, child) && CopyStep(backing, s, r, parent, child, lo, hi)
            && Walk(r.space, child, level, x) == MakePte(f, PAGE_PRESENT)
            && Walk(r.space, parent, level, x) == Walk(s.space, parent, level, x)
            && (forall src, dst :: Cursor(s, parent, child, level, x, src, dst) ==>
                Cursor(r, parent, child, level, x, src, dst))
  {
    AddTableInv(backing, s, child, level, x, f);
    TableLink(s.space, child, level, x, f);
    var r := AddTable(s, child, level, x, f);
    assert forall u :: 0 <= u < Bound(0) ==>
        Leaf(r, child, u) == Leaf(s, child, u) && Leaf(r, parent, u) == Leaf(s, parent, u);
    if level == 1 {
      assert Walk(r.space, parent, 2, x / WORDS) == Walk(s.space, parent, 2, x / WORDS);
      assert Walk(r.space, child, 2, x / WORDS) == Walk(s.space, child, 2, x / WORDS);
    }
  }

  /** Sharing a leaf. */
  lemma CopyLeaf(backing: nat -> nat, s: Vm, parent: nat, child: nat, v: nat)
    requires VmInv(s) && Forking(s, parent, child) && v < Bound(0) && HasSlot(s.space, child, 0, v)
    requires Leaf(s, parent, v) != 0 && Leaf(s, child, v) == 0
    ensures LeafOk(s, parent, v, Leaf(s, parent, v))
    ensures var r := ShareLeaf(s, parent, child, v);
            && VmInv(r) && Forking(r, parent, child) && CopyStep(backing, s, r, parent, child, v, v + 1)
                && PageCopied(r, parent, child, v)
  {
    ShareLeafShape(s, parent, child, v);
    LeafCopied(backing, s, ShareLeaf(s, parent, child, v), parent, child, v);
  }

  lemma LeafCopied(backing: nat -> nat, s: Vm, r: Vm, parent: nat, child: nat, v: nat)
    requires VmInv(s) && Forking(s, parent, child) && v < Bound(0)
    requires Leaf(s, parent, v) != 0 && Leaf(s, child, v) == 0
    requires LeafOk(s, parent, v, Leaf(s, parent, v)) && Shares(s, r, parent, child, v)
    ensures VmInv(r) && Forking(r, parent, child) && CopyStep(backing, s, r, parent, child, v, v + 1)
              && PageCopied(r, parent, child, v)
  {
    LeafLarge(s, parent, v, Leaf(s, parent, v));
    ForkingAfterLeaf(s, r, parent, child, v, ClearWrite(Leaf(s, parent, v)));
    SharedKeeps(s, r, parent, child, v);
    SharedInv(backing, s, r, parent, child, v);
  }

  lemma SharedKeeps(s: Vm, r: Vm, parent: nat, child: nat, v: nat)
    requires Sane(s) && parent < |s.space.pgd| && child < |s.space.pgd| && v < Bound(0) && Leaf(s, child, v) == 0
    requires LeafOk(s, parent, v, Leaf(s, parent, v)) && Shares(s, r, parent, child, v)
    ensures LeavesKept(s, r, parent, child, v, v + 1)
  {
  }

  lemma ForkingAfterLeaf(s: Vm, r: Vm, parent: nat, child: nat, v: nat, w: nat)
    requires Forking(s, parent, child) && r.vmas == s.vmas && r.space.pgd == s.space.pgd && v < Bound(0) && w != 0
    requires forall q, l, x :: 0 <= q < |s.space.pgd| && 0 <= l <= 2 && 0 <= x < Bound(l) ==>
               Walk(r.space, q, l, x) == if l == 0 && x == v && (q == parent || q == child) then w
                   else Walk(s.space, q, l, x)
    ensures Forking(r, parent, child) && PageCopied(r, parent, child, v)
    ensures forall u :: 0 <= u < Bound(0) && PageCopied(s, parent, child, u) ==> PageCopied(r, parent, child, u)
  {
    forall l, x | 0 <= l <= 2 && 0 <= x < Bound(l) && Walk(r.space, child, l, x) != 0
      ensures Walk(r.space, parent, l, x) != 0
    {
      assert l != 0 || x != v ==> Walk(s.space, child, l, x) != 0;
    }
    forall u | 0 <= u < Bound(0)
      ensures Leaf(r, child, u) != 0 ==> Leaf(r, child, u) == Leaf(r, parent, u)
      ensures PageCopied(s, parent, child, u) ==> PageCopied(r, parent, child, u)
    {
      assert Leaf(r, child, u) == if u == v then w else Leaf(s, child, u);
      assert Leaf(r, parent, u) == if u == v then w else Leaf(s, parent, u);
    }
  }

  /** Zeroing the frame that copy_page_range leaks at level 0 is seen by nobody. */
  lemma FillUnused(backing: nat -> nat, s: Vm, f: nat, frame: Frame) returns (r: Vm)
    requires VmInv(s) && f < |s.space.mem| && s.space.role[f] == Unused
    ensures VmInv(r) && SameViews(backing, s, r) && r.refs == s.refs && r.vmas == s.vmas
    ensures r.space.role == s.space.role && r.space.mem == s.space.mem[f := frame] && r.space.pgd == s.space.pgd
    ensures forall q, l, x :: 0 <= q < |s.space.pgd| && 0 <= l <= 2 && 0 <= x < Bound(l) ==>
              Walk(r.space, q, l, x) == Walk(s.space, q, l, x)
  {
    FrameFill(s.space, f, frame, Unused);
    r := s.(space := FillFrame(s.space, f, frame, Unused));
    assert r.space.role == s.space.role;
    forall q, u | 0 <= q < |s.space.pgd| && 0 <= u < Bound(0)
      ensures Leaf(r, q, u) != 0 ==> LeafOk(r, q, u, Leaf(r, q, u))
      ensures PageView(backing, r, q, u) == PageView(backing, s, q, u)
    {
      if Leaf(s, q, u) != 0 {
        assert LeafOk(s, q, u, Leaf(s, q, u));
      }
    }
    forall g, o | 0 <= g < |r.space.role| && r.space.role[g].Data? && o in r.space.role[g].owners
      ensures MapsTo(r, o, g)
    {
      assert MapsTo(s, o, g);
    }
  }

  /** When every page is done, the child sees what the parent sees. */
  lemma CopyComplete(backing: nat -> nat, s: Vm, parent: nat, child: nat)
    requires VmInv(s) && Forking(s, parent, child)
    requires AreasCopied(s, parent, child, s.vmas[parent])
    ensures forall v :: 0 <= v < Bound(0) ==> PageView(backing, s, child, v) == PageView(backing, s, parent, v)
  {
    forall v | 0 <= v < Bound(0)
      ensures PageView(backing, s, child, v) == PageView(backing, s, parent, v)
    {
      if Leaf(s, parent, v) != 0 {
        assert LeafOk(s, parent, v, Leaf(s, parent, v));
        assert InArea(PageVma(s.vmas[parent], v).value, v);
      }
    }
  }
}
