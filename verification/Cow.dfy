/** Demand paging and copy-on-write of src/vm.c as steps on page tables, frames and counts. */
module Cow {
  import opened Common
  import opened Sv39

  const VM_READ := 1
  const VM_WRITE := 2
  const VM_EXEC := 4
  const USER_END := 0x40_0000_0000

  /** struct vm_area_struct; `file` is the address of the backing bytes, or 0. */
  datatype Vma = Vma(start: nat, end: nat, flags: nat, file: nat)

  predicate VmaOk(a: Vma) {
    a.start % PAGE_SIZE == 0 && a.end % PAGE_SIZE == 0 && a.start <= a.end <= USER_END && a.flags < 8
  }

  /** find_vma: the first area that contains the address. */
  function FindVma(vmas: seq<Vma>, addr: nat): (r: Option<Vma>)
    ensures r.Some? ==> r.value in vmas && r.value.start <= addr < r.value.end
    ensures r.None? ==> forall a :: a in vmas ==> !(a.start <= addr < a.end)
  {
    if vmas == [] then None
    else if vmas[0].start <= addr < vmas[0].end then Some(vmas[0])
    else FindVma(vmas[1..], addr)
  }

  function PageVma(vmas: seq<Vma>, v: nat): Option<Vma> {
    FindVma(vmas, v * PAGE_SIZE)
  }

  /** Areas are made of whole pages, so an address and its page lie in the same area. */
  lemma {:induction false} VmaOfPage(vmas: seq<Vma>, addr: nat)
    requires forall a :: a in vmas ==> VmaOk(a)
    ensures FindVma(vmas, addr) == PageVma(vmas, addr / PAGE_SIZE)
  {
    if vmas != [] {
      assert VmaOk(vmas[0]);
      VmaOfPage(vmas[1..], addr);
    }
  }

  lemma {:induction false} FindVmaAppend(vmas: seq<Vma>, a: Vma, addr: nat)
    ensures FindVma(vmas + [a], addr) ==
              if FindVma(vmas, addr).Some? then FindVma(vmas, addr) else if a.start <= addr < a.end then Some(a)
                  else None
  {
    if vmas == [] {
      assert vmas + [a] == [a];
    } else {
      assert (vmas + [a])[1..] == vmas[1..] + [a];
      FindVmaAppend(vmas[1..], a, addr);
    }
  }

  // --- permissions

  /** The permission bits chosen by mk_pte. */
  function VmProt(flags: nat): nat {
    PAGE_DIRTY + PAGE_ACCESSED + PAGE_USER + PAGE_PRESENT
    + (if Has(flags, VM_READ) then PAGE_READ else 0)
    + (if Has(flags, VM_WRITE) then PAGE_WRITE else 0)
    + (if Has(flags, VM_EXEC) then PAGE_EXEC else 0)
  }

  lemma LeafBits(d: nat, flags: nat)
    requires flags < 8
    ensures var w := MakePte(d, VmProt(flags));
            && w != 0 && Ppn(w) == d && Prot(w) == VmProt(flags)
            && Has(w, PAGE_READ) == Has(flags, VM_READ) && Has(w, PAGE_WRITE) == Has(flags, VM_WRITE)
            && Has(w, PAGE_EXEC) == Has(flags, VM_EXEC)
  {
    var q, r := RightsBits(d, Has(flags, VM_READ), Has(flags, VM_WRITE), Has(flags, VM_EXEC));
    assert VmProt(flags) == 8 * q + r;
    assert MakePte(d, VmProt(flags)) == 8 * (128 * d + q) + r;
  }

  /** The rights bits of an entry, from three rights. */
  lemma RightsBits(d: nat, read: bool, write: bool, exec: bool) returns (q: nat, r: nat)
    ensures q == 26 + (if exec then 1 else 0) && r == 1 + (if read then 2 else 0) + (if write then 4 else 0)
    ensures var w := 8 * (128 * d + q) + r;
            && w != 0 && Ppn(w) == d && Prot(w) == 8 * q + r
            && Has(w, PAGE_READ) == read && Has(w, PAGE_WRITE) == write && Has(w, PAGE_EXEC) == exec
  {
    q, r := 26 + (if exec then 1 else 0), 1 + (if read then 2 else 0) + (if write then 4 else 0);
    LowBits(128 * d + q, r);
    assert (128 * d + q) / 128 == d && (128 * d + q) % 128 == q;
    assert (128 * d + q) % 2 == q % 2 by {
      assert 128 * d + q == 2 * (64 * d) + q;
    }
  }

  /** The three low bits of a word, apart from the rest. */
  lemma LowBits(q: nat, r: nat)
    requires r < 8
    ensures Has(8 * q + r, PAGE_PRESENT) <==> r % 2 == 1
    ensures Has(8 * q + r, PAGE_READ) <==> r % 4 >= 2
    ensures Has(8 * q + r, PAGE_WRITE) <==> r >= 4
    ensures Has(8 * q + r, PAGE_EXEC) <==> q % 2 == 1
    ensures Ppn(8 * q + r) == q / 128 && Prot(8 * q + r) == 8 * (q % 128) + r
  {
    assert (8 * q + r) / 2 == 4 * q + r / 2;
    assert (8 * q + r) / 4 == 2 * q + r / 4;
    assert (8 * q + r) / 8 == q;
  }

  /** Clearing the write bit leaves the frame and the other rights alone. */
  lemma ClearBits(w: nat)
    ensures var c := ClearWrite(w);
            && Ppn(c) == Ppn(w) && Prot(c) == ClearWrite(Prot(w)) && !Has(c, PAGE_WRITE)
            && Has(c, PAGE_PRESENT) == Has(w, PAGE_PRESENT)
            && Has(c, PAGE_READ) == Has(w, PAGE_READ) && Has(c, PAGE_EXEC) == Has(w, PAGE_EXEC)
  {
    var q, r := w / 8, w % 8;
    LowBits(q, r);
    LowBits(q % 128, r);
    if r >= 4 {
      SwapLowBits(q, r, r - 4);
      assert ClearWrite(w) == 8 * q + (r - 4);
      LowBits(q % 128, r - 4);
    }
    assert w == 8 * q + r;
  }

  lemma SetBits(w: nat)
    ensures var t := SetWrite(w);
            && Ppn(t) == Ppn(w) && Prot(t) == SetWrite(Prot(w)) && Has(t, PAGE_WRITE)
            && Has(t, PAGE_PRESENT) == Has(w, PAGE_PRESENT)
            && Has(t, PAGE_READ) == Has(w, PAGE_READ) && Has(t, PAGE_EXEC) == Has(w, PAGE_EXEC)
  {
    var q, r := w / 8, w % 8;
    LowBits(q, r);
    LowBits(q % 128, r);
    if r < 4 {
      SwapLowBits(q, r, r + 4);
      assert SetWrite(w) == 8 * q + (r + 4);
      LowBits(q % 128, r + 4);
    }
    assert w == 8 * q + r;
  }

  lemma SwapLowBits(q: nat, r: nat, t: nat)
    requires r < 8 && t < 8 && (t == r + 4 || r == t + 4)
    ensures Has(8 * q + t, PAGE_PRESENT) == Has(8 * q + r, PAGE_PRESENT)
    ensures Has(8 * q + t, PAGE_READ) == Has(8 * q + r, PAGE_READ)
    ensures Has(8 * q + t, PAGE_EXEC) == Has(8 * q + r, PAGE_EXEC)
    ensures Has(8 * q + t, PAGE_WRITE) <==> t >= 4
    ensures Ppn(8 * q + t) == Ppn(8 * q + r) && Prot(8 * q + t) == 8 * (q % 128) + t
  {
    LowBits(q, r);
    LowBits(q, t);
  }

  lemma ProtBits(w: nat)
    ensures Has(w, PAGE_PRESENT) == Has(Prot(w), PAGE_PRESENT) && Has(w, PAGE_WRITE) == Has(Prot(w), PAGE_WRITE)
    ensures Has(w, PAGE_READ) == Has(Prot(w), PAGE_READ) && Has(w, PAGE_EXEC) == Has(Prot(w), PAGE_EXEC)
  {
    var q, r := w / 8, w % 8;
    assert w == 8 * q + r;
    LowBits(q, r);
    LowBits(q % 128, r);
    Parity(q);
  }

  lemma Parity(q: nat)
    ensures q % 128 % 2 == q % 2
  {
    assert q == 2 * (64 * (q / 128)) + q % 128;
  }

  // --- the state

  /** refs is the refcount of every frame; vmas[p] the areas of process p, in list order. */
  datatype Vm = Vm(space: Space, refs: seq<nat>, vmas: seq<seq<Vma>>)

  function Leaf(s: Vm, p: nat, v: nat): nat
    requires p < |s.space.pgd|
  {
    Walk(s.space, p, 0, v)
  }

  ghost predicate Sane(s: Vm) {
    && Tree(s.space)
    && |s.refs| == |s.space.mem|
    && |s.vmas| == |s.space.pgd|
    && forall p, a :: 0 <= p < |s.vmas| && a in s.vmas[p] ==> VmaOk(a)
  }

  /** A leaf maps a data frame that knows it, with the rights of its area up to a cleared write
      bit, and may be written only when nobody else maps the frame. */
  ghost predicate LeafOk(s: Vm, p: nat, v: nat, w: nat)
    requires |s.space.role| == |s.space.mem| && p < |s.vmas|
  {
    && Ppn(w) < |s.space.mem| && s.space.role[Ppn(w)].Data?
    && (p, v) in s.space.role[Ppn(w)].owners
    && PageVma(s.vmas[p], v).Some?
    && (var prot := VmProt(PageVma(s.vmas[p], v).value.flags); Prot(w) == prot || Prot(w) == ClearWrite(prot))
    && (Has(w, PAGE_WRITE) ==> s.space.role[Ppn(w)].owners == {(p, v)})
  }

  ghost predicate LeavesOk(s: Vm)
    requires Sane(s)
  {
    forall p, v :: 0 <= p < |s.space.pgd| && 0 <= v < Bound(0) && Leaf(s, p, v) != 0 ==> LeafOk(s, p, v, Leaf(s, p, v))
  }

  /** The refcount of a data frame is the number of leaves that map it. */
  ghost predicate Counted(s: Vm)
    requires Sane(s)
  {
    forall d :: 0 <= d < |s.space.role| && s.space.role[d].Data? ==>
      && s.refs[d] == |s.space.role[d].owners|
      && forall o :: o in s.space.role[d].owners ==> MapsTo(s, o, d)
  }

  predicate MapsTo(s: Vm, o: (nat, nat), d: nat) {
    o.0 < |s.space.pgd| && o.1 < Bound(0) && Leaf(s, o.0, o.1) != 0 && Ppn(Leaf(s, o.0, o.1)) == d
  }

  ghost predicate VmInv(s: Vm) {
    Sane(s) && LeavesOk(s) && Counted(s)
  }

  // --- what a process sees

  /** The 8 bytes at `addr` of the backing store as a little-endian word. */
  function WordAt(backing: nat -> nat, addr: nat, n: nat): nat
    decreases n
  {
    if n == 0 then 0 else backing(addr) % 256 + 256 * WordAt(backing, addr + 1, n - 1)
  }

  /** What demand paging puts into page v of an area: the file's bytes or zeroes. */
  function InitialPage(backing: nat -> nat, a: Vma, v: nat): Frame {
    if a.file != 0 && a.start <= v * PAGE_SIZE then
      seq(WORDS, i requires 0 <= i < WORDS => WordAt(backing, a.file + (v * PAGE_SIZE - a.start) + 8 * i, 8))
    else ZeroFrame()
  }

  /** The contents of page v as process p will find them, present or not. */
  function PageView(backing: nat -> nat, s: Vm, p: nat, v: nat): Frame
    requires p < |s.space.pgd| && p < |s.vmas|
  {
    var w := Leaf(s, p, v);
    if w != 0 then (if Ppn(w) < |s.space.mem| then s.space.mem[Ppn(w)] else ZeroFrame())
    else
      match PageVma(s.vmas[p], v)
      case Some(a) => InitialPage(backing, a, v)
      case None => ZeroFrame()
  }

  /** Nothing any process sees has changed. */
  ghost predicate SameViews(backing: nat -> nat, s: Vm, r: Vm)
    requires Sane(s) && Sane(r)
  {
    && |r.space.pgd| == |s.space.pgd| && r.vmas == s.vmas
    && forall p, v :: 0 <= p < |s.space.pgd| && 0 <= v < Bound(0) ==>
        PageView(backing, r, p, v) == PageView(backing, s, p, v)
  }

  // --- the steps

  /** A page table is added under an empty entry. */
  ghost function AddTable(s: Vm, p: nat, l: nat, x: nat, f: nat): Vm
    requires p < |s.space.pgd| && 1 <= l && f < |s.space.mem| && f < |s.space.role| && f < |s.refs|
  {
    Vm(LinkTable(s.space, p, l, x, f), s.refs[f := 1], s.vmas)
  }

  lemma AddTableInv(backing: nat -> nat, s: Vm, p: nat, l: nat, x: nat, f: nat)
    requires VmInv(s) && p < |s.space.pgd| && 1 <= l <= 2 && x < Bound(l) && HasSlot(s.space, p, l, x)
    requires Walk(s.space, p, l, x) == 0 && f < |s.space.mem| && s.space.role[f] == Unused
    ensures var r := AddTable(s, p, l, x, f);
            && VmInv(r) && SameViews(backing, s, r)
            && (forall q, v :: 0 <= q < |s.space.pgd| && 0 <= v < Bound(0) ==> Leaf(r, q, v) == Leaf(s, q, v))
  {
    TableLink(s.space, p, l, x, f);
    var r := AddTable(s, p, l, x, f);
    forall d | 0 <= d < |r.space.role| && r.space.role[d].Data?
      ensures r.refs[d] == |r.space.role[d].owners| && forall o :: o in r.space.role[d].owners ==> MapsTo(r, o, d)
    {
      forall o | o in r.space.role[d].owners
        ensures MapsTo(r, o, d)
      {
        assert MapsTo(s, o, d);
      }
    }
    forall q, v | 0 <= q < |r.space.pgd| && 0 <= v < Bound(0) && Leaf(r, q, v) != 0
      ensures LeafOk(r, q, v, Leaf(r, q, v))
    {
      assert LeafOk(s, q, v, Leaf(s, q, v));
    }
    forall q, v | 0 <= q < |s.space.pgd| && 0 <= v < Bound(0)
      ensures PageView(backing, r, q, v) == PageView(backing, s, q, v)
    {
      if Leaf(s, q, v) != 0 {
        assert LeafOk(s, q, v, Leaf(s, q, v));
      }
    }
  }

  /** Demand paging: the fresh frame f becomes page v of process p. */
  ghost function MapFresh(s: Vm, p: nat, v: nat, f: nat, frame: Frame, flags: nat): Vm
    requires p < |s.space.pgd| && f < |s.space.mem| && f < |s.space.role| && f < |s.refs|
  {
    Vm(SetEntry(FillFrame(s.space, f, frame, Data({(p, v)})), p, 0, v, MakePte(f, VmProt(flags))), s.refs[f := 1],
        s.vmas)
  }

  /** After a leaf write, every other leaf is as it was. */
  ghost predicate OnlyLeaf(s: Vm, r: Vm, p: nat, v: nat, w: nat)
    requires |r.space.pgd| == |s.space.pgd|
  {
    forall q, u :: 0 <= q < |s.space.pgd| && 0 <= u < Bound(0) ==>
      Leaf(r, q, u) == if q == p && u == v then w else Leaf(s, q, u)
  }

  /** What MapFresh does to leaves and frames. */
  lemma MapFreshShape(s: Vm, p: nat, v: nat, f: nat, frame: Frame, flags: nat)
    requires VmInv(s) && p < |s.space.pgd| && v < Bound(0) && HasSlot(s.space, p, 0, v)
    requires f < |s.space.mem| && s.space.role[f] == Unused
    ensures var r := MapFresh(s, p, v, f, frame, flags);
            && Sane(r) && r.space.pgd == s.space.pgd && |r.space.mem| == |s.space.mem|
            && OnlyLeaf(s, r, p, v, MakePte(f, VmProt(flags)))
            && r.space.role == s.space.role[f := Data({(p, v)})]
            && r.space.mem[f] == frame
            && (forall d :: 0 <= d < |s.space.mem| && d != f && !s.space.role[d].Table? ==>
                r.space.mem[d] == s.space.mem[d])
  {
    FillAndMap(s.space, f, frame, Data({(p, v)}), p, v, MakePte(f, VmProt(flags)));
  }

  lemma MapFreshInv(backing: nat -> nat, s: Vm, p: nat, v: nat, f: nat)
    requires VmInv(s) && p < |s.space.pgd| && v < Bound(0) && HasSlot(s.space, p, 0, v)
    requires Leaf(s, p, v) == 0 && f < |s.space.mem| && s.space.role[f] == Unused && PageVma(s.vmas[p], v).Some?
    ensures var a := PageVma(s.vmas[p], v).value;
            var r := MapFresh(s, p, v, f, InitialPage(backing, a, v), a.flags);
            && VmInv(r) && SameViews(backing, s, r)
            && OnlyLeaf(s, r, p, v, MakePte(f, VmProt(a.flags)))
  {
    var a := PageVma(s.vmas[p], v).value;
    assert VmaOk(a);
    LeafBits(f, a.flags);
    MapFreshShape(s, p, v, f, InitialPage(backing, a, v), a.flags);
    var r := MapFresh(s, p, v, f, InitialPage(backing, a, v), a.flags);
    forall q, u | 0 <= q < |s.space.pgd| && 0 <= u < Bound(0)
      ensures Leaf(r, q, u) != 0 ==> LeafOk(r, q, u, Leaf(r, q, u))
      ensures PageView(backing, r, q, u) == PageView(backing, s, q, u)
    {
      FreshLeaf(backing, s, r, p, v, f, q, u);
    }
    forall d, o | 0 <= d < |r.space.role| && r.space.role[d].Data? && o in r.space.role[d].owners
      ensures MapsTo(r, o, d)
    {
      if d != f {
        assert MapsTo(s, o, d);
      }
    }
  }

  lemma FreshLeaf(backing: nat -> nat, s: Vm, r: Vm, p: nat, v: nat, f: nat, q: nat, u: nat)
    requires VmInv(s) && Sane(r) && p < |s.space.pgd| && v < Bound(0) && q < |s.space.pgd| && u < Bound(0)
    requires Leaf(s, p, v) == 0 && f < |s.space.mem| && s.space.role[f] == Unused && PageVma(s.vmas[p], v).Some?
    requires r.refs == s.refs[f := 1] && r.vmas == s.vmas && r.space.pgd == s.space.pgd
               && |r.space.mem| == |s.space.mem|
    requires r.space.role == s.space.role[f := Data({(p, v)})]
    requires var a := PageVma(s.vmas[p], v).value; var w := MakePte(f, VmProt(a.flags));
             && OnlyLeaf(s, r, p, v, w) && Ppn(w) == f && Prot(w) == VmProt(a.flags)
             && w != 0 && r.space.mem[f] == InitialPage(backing, a, v)
    requires forall d :: 0 <= d < |s.space.mem| && d != f && !s.space.role[d].Table? ==>
               r.space.mem[d] == s.space.mem[d]
    ensures Leaf(r, q, u) != 0 ==> LeafOk(r, q, u, Leaf(r, q, u))
    ensures PageView(backing, r, q, u) == PageView(backing, s, q, u)
  {
    if Leaf(s, q, u) != 0 {
      assert LeafOk(s, q, u, Leaf(s, q, u));
    }
  }

  /** copy_page_range at level 0: parent and child map the parent's frame, neither may write. */
  ghost function ShareLeaf(s: Vm, parent: nat, child: nat, v: nat): Vm
    requires Sane(s) && parent < |s.space.pgd| && child < |s.space.pgd|
    requires Ppn(Leaf(s, parent, v)) < |s.space.mem| && s.space.role[Ppn(Leaf(s, parent, v))].Data?
  {
    var w := Leaf(s, parent, v);
    var d := Ppn(w);
    var owned := FillFrame(s.space, d, s.space.mem[d], Data(s.space.role[d].owners + {(child, v)}));
    var cleared := SetEntry(owned, parent, 0, v, ClearWrite(w));
    Vm(SetEntry(cleared, child, 0, v, ClearWrite(w)), s.refs[d := s.refs[d] + 1], s.vmas)
  }

  /** The step from s to r: page v of `parent`, now read-only, is mapped by `child` too. */
  ghost predicate Shares(s: Vm, r: Vm, parent: nat, child: nat, v: nat)
    requires Sane(s) && parent < |s.space.pgd| && v < Bound(0) && LeafOk(s, parent, v, Leaf(s, parent, v))
  {
    var w := Leaf(s, parent, v);
    var d := Ppn(w);
    && Sane(r) && r.space.pgd == s.space.pgd && |r.space.mem| == |s.space.mem|
    && r.refs == s.refs[d := s.refs[d] + 1] && r.vmas == s.vmas
    && r.space.role == s.space.role[d := Data(s.space.role[d].owners + {(child, v)})]
    && (forall f :: 0 <= f < |s.space.mem| && !s.space.role[f].Table? ==> r.space.mem[f] == s.space.mem[f])
    && (forall q, l, x :: 0 <= q < |s.space.pgd| && 0 <= l <= 2 && 0 <= x < Bound(l) ==>
          Walk(r.space, q, l, x) == if l == 0 && x == v && (q == parent || q == child) then ClearWrite(w)
              else Walk(s.space, q, l, x))
  }

  lemma ShareLeafShape(s: Vm, parent: nat, child: nat, v: nat)
    requires VmInv(s) && parent < |s.space.pgd| && child < |s.space.pgd| && parent != child && v < Bound(0)
    requires Leaf(s, parent, v) != 0 && HasSlot(s.space, child, 0, v)
    ensures LeafOk(s, parent, v, Leaf(s, parent, v))
    ensures Shares(s, ShareLeaf(s, parent, child, v), parent, child, v)
  {
    var w := Leaf(s, parent, v);
    assert LeafOk(s, parent, v, w);
    var d := Ppn(w);
    var role := Data(s.space.role[d].owners + {(child, v)});
    FillAndMapBoth(s.space, d, s.space.mem[d], role, parent, child, v, ClearWrite(w));
  }

  lemma LeafLarge(s: Vm, p: nat, v: nat, w: nat)
    requires |s.space.role| == |s.space.mem| && p < |s.vmas| && LeafOk(s, p, v, w)
    requires forall a :: a in s.vmas[p] ==> VmaOk(a)
    ensures ClearWrite(w) != 0 && w != 0
    ensures Prot(ClearWrite(w)) == ClearWrite(VmProt(PageVma(s.vmas[p], v).value.flags))
  {
    var a := PageVma(s.vmas[p], v).value;
    assert VmaOk(a);
    LeafBits(0, a.flags);
    ClearBits(w);
    ClearBits(VmProt(a.flags));
    assert Prot(w) >= 200;
  }

  lemma ShareLeafInv(backing: nat -> nat, s: Vm, parent: nat, child: nat, v: nat)
    requires VmInv(s) && parent < |s.space.pgd| && child < |s.space.pgd| && parent != child && v < Bound(0)
    requires Leaf(s, parent, v) != 0 && HasSlot(s.space, child, 0, v) && Leaf(s, child, v) == 0
    requires s.vmas[child] == s.vmas[parent]
    ensures LeafOk(s, parent, v, Leaf(s, parent, v))
    ensures var r := ShareLeaf(s, parent, child, v);
            && VmInv(r)
            && (forall q, u :: 0 <= q < |s.space.pgd| && 0 <= u < Bound(0) ==>
                  PageView(backing, r, q, u) == if q == child && u == v then PageView(backing, s, parent, v)
                      else PageView(backing, s, q, u))
  {
    ShareLeafShape(s, parent, child, v);
    SharedInv(backing, s, ShareLeaf(s, parent, child, v), parent, child, v);
  }

  lemma SharedInv(backing: nat -> nat, s: Vm, r: Vm, parent: nat, child: nat, v: nat)
    requires VmInv(s) && parent < |s.space.pgd| && child < |s.space.pgd| && parent != child && v < Bound(0)
    requires Leaf(s, parent, v) != 0 && Leaf(s, child, v) == 0 && s.vmas[child] == s.vmas[parent]
    requires LeafOk(s, parent, v, Leaf(s, parent, v)) && Shares(s, r, parent, child, v)
    ensures VmInv(r)
    ensures forall q, u :: 0 <= q < |s.space.pgd| && 0 <= u < Bound(0) ==>
              PageView(backing, r, q, u) == if q == child && u == v then PageView(backing, s, parent, v)
                  else PageView(backing, s, q, u)
  {
    SharedCounted(s, r, parent, child, v);
    forall q, u | 0 <= q < |s.space.pgd| && 0 <= u < Bound(0)
      ensures Leaf(r, q, u) != 0 ==> LeafOk(r, q, u, Leaf(r, q, u))
      ensures PageView(backing, r, q, u) == if q == child && u == v then PageView(backing, s, parent, v)
                else PageView(backing, s, q, u)
    {
      if Leaf(s, q, u) != 0 {
        assert LeafOk(s, q, u, Leaf(s, q, u));
      }
      SharedLeaf(s, r, parent, child, v, q, u);
      SharedView(backing, s, r, parent, child, v, q, u);
    }
  }

  lemma SharedLeaf(s: Vm, r: Vm, parent: nat, child: nat, v: nat, q: nat, u: nat)
    requires Sane(s) && parent < |s.space.pgd| && child < |s.space.pgd| && parent != child && v < Bound(0)
    requires Leaf(s, parent, v) != 0 && Leaf(s, child, v) == 0 && s.vmas[child] == s.vmas[parent]
    requires LeafOk(s, parent, v, Leaf(s, parent, v)) && Shares(s, r, parent, child, v)
    requires q < |s.space.pgd| && u < Bound(0) && (Leaf(s, q, u) != 0 ==> LeafOk(s, q, u, Leaf(s, q, u)))
    ensures Leaf(r, q, u) != 0 ==> LeafOk(r, q, u, Leaf(r, q, u))
  {
    var w := Leaf(s, parent, v);
    LeafLarge(s, parent, v, w);
    ClearBits(w);
  }

  lemma SharedView(backing: nat -> nat, s: Vm, r: Vm, parent: nat, child: nat, v: nat, q: nat, u: nat)
    requires Sane(s) && parent < |s.space.pgd| && child < |s.space.pgd| && v < Bound(0)
    requires Leaf(s, parent, v) != 0
    requires LeafOk(s, parent, v, Leaf(s, parent, v)) && Shares(s, r, parent, child, v)
    requires q < |s.space.pgd| && u < Bound(0) && (Leaf(s, q, u) != 0 ==> LeafOk(s, q, u, Leaf(s, q, u)))
    ensures PageView(backing, r, q, u) == if q == child && u == v then PageView(backing, s, parent, v)
              else PageView(backing, s, q, u)
  {
    var w := Leaf(s, parent, v);
    LeafLarge(s, parent, v, w);
    ClearBits(w);
  }

  lemma SharedMapsTo(s: Vm, r: Vm, parent: nat, child: nat, v: nat, o: (nat, nat), f: nat)
    requires Sane(s) && parent < |s.space.pgd| && child < |s.space.pgd| && v < Bound(0)
    requires Leaf(s, parent, v) != 0
    requires LeafOk(s, parent, v, Leaf(s, parent, v)) && Shares(s, r, parent, child, v)
    requires if o == (child, v) then f == Ppn(Leaf(s, parent, v)) else MapsTo(s, o, f)
    ensures MapsTo(r, o, f)
  {
    var w := Leaf(s, parent, v);
    LeafLarge(s, parent, v, w);
    ClearBits(w);
  }

  lemma SharedCounted(s: Vm, r: Vm, parent: nat, child: nat, v: nat)
    requires VmInv(s) && parent < |s.space.pgd| && child < |s.space.pgd| && parent != child && v < Bound(0)
    requires Leaf(s, parent, v) != 0 && Leaf(s, child, v) == 0
    requires LeafOk(s, parent, v, Leaf(s, parent, v)) && Shares(s, r, parent, child, v)
    ensures Counted(r)
  {
    var d := Ppn(Leaf(s, parent, v));
    assert (child, v) in s.space.role[d].owners ==> MapsTo(s, (child, v), d);
    forall f | 0 <= f < |r.space.role| && r.space.role[f].Data?
      ensures r.refs[f] == |r.space.role[f].owners|
      ensures forall o :: o in r.space.role[f].owners ==> MapsTo(r, o, f)
    {
      assert s.refs[f] == |s.space.role[f].owners|;
      forall o | o in r.space.role[f].owners
        ensures MapsTo(r, o, f)
      {
        assert o in s.space.role[f].owners ==> MapsTo(s, o, f);
        SharedMapsTo(s, r, parent, child, v, o, f);
      }
    }
  }

  /** Copy-on-write of a frame others still map: page v of process p moves to the copy f. */
  ghost function BreakShare(s: Vm, p: nat, v: nat, f: nat, flags: nat): Vm
    requires Sane(s) && p < |s.space.pgd| && f < |s.space.mem|
    requires Ppn(Leaf(s, p, v)) < |s.space.mem| && s.space.role[Ppn(Leaf(s, p, v))].Data?
               && s.refs[Ppn(Leaf(s, p, v))] > 0
  {
    var d := Ppn(Leaf(s, p, v));
    var left := FillFrame(s.space, d, s.space.mem[d], Data(s.space.role[d].owners - {(p, v)}));
    var copied := FillFrame(left, f, s.space.mem[d], Data({(p, v)}));
    Vm(SetEntry(copied, p, 0, v, MakePte(f, VmProt(flags))), s.refs[f := 1][d := s.refs[d] - 1], s.vmas)
  }

  lemma BreakShareShape(s: Vm, p: nat, v: nat, f: nat, flags: nat)
    requires VmInv(s) && p < |s.space.pgd| && v < Bound(0) && Leaf(s, p, v) != 0
    requires f < |s.space.mem| && s.space.role[f] == Unused
    ensures LeafOk(s, p, v, Leaf(s, p, v)) && s.refs[Ppn(Leaf(s, p, v))] > 0
    ensures var d := Ppn(Leaf(s, p, v)); var r := BreakShare(s, p, v, f, flags);
            && Sane(r) && r.space.pgd == s.space.pgd && |r.space.mem| == |s.space.mem|
            && OnlyLeaf(s, r, p, v, MakePte(f, VmProt(flags)))
            && r.space.role == s.space.role[d := Data(s.space.role[d].owners - {(p, v)})][f := Data({(p, v)})]
            && r.space.mem[f] == s.space.mem[d]
            && (forall g :: 0 <= g < |s.space.mem| && g != f && !s.space.role[g].Table? ==>
                r.space.mem[g] == s.space.mem[g])
  {
    assert LeafOk(s, p, v, Leaf(s, p, v));
    var d := Ppn(Leaf(s, p, v));
    var rest := Data(s.space.role[d].owners - {(p, v)});
    FrameFill(s.space, d, s.space.mem[d], rest);
    var left := FillFrame(s.space, d, s.space.mem[d], rest);
    assert Walk(left, p, 1, v / WORDS) == Walk(s.space, p, 1, v / WORDS);
    FillAndMap(left, f, s.space.mem[d], Data({(p, v)}), p, v, MakePte(f, VmProt(flags)));
    var r := BreakShare(s, p, v, f, flags);
    assert forall q, u :: 0 <= q < |s.space.pgd| && 0 <= u < Bound(0) ==> Walk(left, q, 0, u) == Walk(s.space, q, 0, u);
  }

  lemma BreakShareInv(backing: nat -> nat, s: Vm, p: nat, v: nat, f: nat)
    requires VmInv(s) && p < |s.space.pgd| && v < Bound(0) && Leaf(s, p, v) != 0
    requires f < |s.space.mem| && s.space.role[f] == Unused
    ensures LeafOk(s, p, v, Leaf(s, p, v)) && s.refs[Ppn(Leaf(s, p, v))] > 0
    ensures s.refs[Ppn(Leaf(s, p, v))] > 1 ==>
              var flags := PageVma(s.vmas[p], v).value.flags;
              var r := BreakShare(s, p, v, f, flags);
              && VmInv(r) && SameViews(backing, s, r) && OnlyLeaf(s, r, p, v, MakePte(f, VmProt(flags)))
  {
    var w := Leaf(s, p, v);
    var d := Ppn(w);
    assert LeafOk(s, p, v, w);
    var a := PageVma(s.vmas[p], v).value;
    assert VmaOk(a);
    BreakShareShape(s, p, v, f, a.flags);
    LeafBits(f, a.flags);
    if s.refs[d] > 1 {
      var r := BreakShare(s, p, v, f, a.flags);
      BreakShareCounted(s, p, v, f, a.flags);
      forall q, u | 0 <= q < |s.space.pgd| && 0 <= u < Bound(0)
        ensures Leaf(r, q, u) != 0 ==> LeafOk(r, q, u, Leaf(r, q, u))
        ensures PageView(backing, r, q, u) == PageView(backing, s, q, u)
      {
        if Leaf(s, q, u) != 0 {
          assert LeafOk(s, q, u, Leaf(s, q, u));
        }
        BreakShareAt(backing, s, r, p, v, f, a.flags, q, u);
      }
    }
  }

  /** The leaf (q, u) and what is seen through it, before and after BreakShare. */
  lemma BreakShareAt(backing: nat -> nat, s: Vm, r: Vm, p: nat, v: nat, f: nat, flags: nat, q: nat, u: nat)
    requires Comparable(s, r) && p < |s.vmas| && q < |s.vmas| && f < |s.space.mem| && flags < 8
    requires s.space.role[f] == Unused && LeafOk(s, p, v, Leaf(s, p, v)) && flags == PageVma(s.vmas[p], v).value.flags
    requires Leaf(s, p, v) != 0 && |s.space.role[Ppn(Leaf(s, p, v))].owners| > 1
    requires Leaf(s, q, u) != 0 ==> LeafOk(s, q, u, Leaf(s, q, u))
    requires Leaf(r, q, u) == if q == p && u == v then MakePte(f, VmProt(flags)) else Leaf(s, q, u)
    requires var d := Ppn(Leaf(s, p, v));
             && r.space.role == s.space.role[d := Data(s.space.role[d].owners - {(p, v)})][f := Data({(p, v)})]
             && r.space.mem[f] == s.space.mem[d]
    requires forall g :: 0 <= g < |s.space.mem| && g != f && !s.space.role[g].Table? ==>
               r.space.mem[g] == s.space.mem[g]
    ensures Leaf(r, q, u) != 0 ==> LeafOk(r, q, u, Leaf(r, q, u))
    ensures PageView(backing, r, q, u) == PageView(backing, s, q, u)
  {
    LeafBits(f, flags);
    if q == p && u == v {
    } else if Leaf(s, q, u) != 0 {
      var e := Ppn(Leaf(s, q, u));
      assert s.space.role[e].Data? && e != f;
    }
  }

  /** Two states over the same frames and processes. */
  ghost predicate Comparable(s: Vm, r: Vm) {
    && |s.space.role| == |s.space.mem| == |r.space.role| == |r.space.mem|
    && |s.vmas| == |s.space.pgd| == |r.space.pgd| && r.vmas == s.vmas
  }

  lemma BreakShareCounted(s: Vm, p: nat, v: nat, f: nat, flags: nat)
    requires VmInv(s) && p < |s.space.pgd| && v < Bound(0) && Leaf(s, p, v) != 0 && flags < 8
    requires f < |s.space.mem| && s.space.role[f] == Unused
    ensures LeafOk(s, p, v, Leaf(s, p, v)) && s.refs[Ppn(Leaf(s, p, v))] > 0
    ensures Sane(BreakShare(s, p, v, f, flags)) && Counted(BreakShare(s, p, v, f, flags))
  {
    BreakShareShape(s, p, v, f, flags);
    LeafBits(f, flags);
    BrokenCounted(s, BreakShare(s, p, v, f, flags), p, v, f, MakePte(f, VmProt(flags)));
  }

  lemma BrokenCounted(s: Vm, r: Vm, p: nat, v: nat, f: nat, w: nat)
    requires Sane(s) && Counted(s) && Sane(r) && p < |s.space.pgd| && v < Bound(0) && LeafOk(s, p, v, Leaf(s, p, v))
    requires f < |s.space.mem| && s.space.role[f] == Unused && w != 0 && Ppn(w) == f && s.refs[Ppn(Leaf(s, p, v))] > 0
    requires r.space.pgd == s.space.pgd && OnlyLeaf(s, r, p, v, w)
    requires var d := Ppn(Leaf(s, p, v));
             && r.refs == s.refs[f := 1][d := s.refs[d] - 1]
             && r.space.role == s.space.role[d := Data(s.space.role[d].owners - {(p, v)})][f := Data({(p, v)})]
    ensures Counted(r)
  {
    var d := Ppn(Leaf(s, p, v));
    assert |s.space.role[d].owners - {(p, v)}| == |s.space.role[d].owners| - 1;
    forall g | 0 <= g < |r.space.role| && r.space.role[g].Data?
      ensures r.refs[g] == |r.space.role[g].owners|
    {
      assert g == f || g == d || r.space.role[g] == s.space.role[g];
    }
    forall g: nat, o | g < |r.space.role| && r.space.role[g].Data? && o in r.space.role[g].owners
      ensures MapsTo(r, o, g)
    {
      if g != f {
        assert MapsTo(s, o, g) && o != (p, v);
        OtherMapsTo(s, r, p, v, w, o, g);
      }
    }
  }

  lemma OtherMapsTo(s: Vm, r: Vm, p: nat, v: nat, w: nat, o: (nat, nat), g: nat)
    requires p < |s.space.pgd| && r.space.pgd == s.space.pgd && OnlyLeaf(s, r, p, v, w) && MapsTo(s, o, g)
               && o != (p, v)
    ensures MapsTo(r, o, g)
  {
    assert o.0 != p || o.1 != v;
  }

  /** Copy-on-write of a frame nobody else maps: the write bit comes back. */
  ghost function Upgrade(s: Vm, p: nat, v: nat): Vm
    requires p < |s.space.pgd|
  {
    s.(space := SetEntry(s.space, p, 0, v, SetWrite(Leaf(s, p, v))))
  }

  /** Setting the write bit of a leaf gives it the full rights of a writable area. */
  lemma UpgradeBits(w: nat, flags: nat)
    requires flags < 8 && (Prot(w) == VmProt(flags) || Prot(w) == ClearWrite(VmProt(flags)))
    requires !Has(w, PAGE_WRITE) && Has(flags, VM_WRITE)
    ensures Prot(SetWrite(w)) == VmProt(flags) && Ppn(SetWrite(w)) == Ppn(w) && SetWrite(w) != 0
  {
    LeafBits(0, flags);
    ProtBits(w);
    SetBits(w);
    ClearBits(VmProt(flags));
  }

  lemma UpgradeShape(s: Vm, p: nat, v: nat)
    requires VmInv(s) && p < |s.space.pgd| && v < Bound(0) && Leaf(s, p, v) != 0 && SetWrite(Leaf(s, p, v)) != 0
    ensures var r := Upgrade(s, p, v);
            && Sane(r) && OnlyLeaf(s, r, p, v, SetWrite(Leaf(s, p, v))) && r.refs == s.refs && r.vmas == s.vmas
            && r.space.role == s.space.role && r.space.pgd == s.space.pgd && |r.space.mem| == |s.space.mem|
            && (forall f :: 0 <= f < |s.space.mem| && !s.space.role[f].Table? ==> r.space.mem[f] == s.space.mem[f])
  {
    assert HasSlot(s.space, p, 0, v);
    LeafWrite(s.space, p, v, SetWrite(Leaf(s, p, v)));
    SlotRole(s.space, p, 0, v);
  }

  lemma UpgradeInv(backing: nat -> nat, s: Vm, p: nat, v: nat)
    requires VmInv(s) && p < |s.space.pgd| && v < Bound(0) && Leaf(s, p, v) != 0
    requires LeafOk(s, p, v, Leaf(s, p, v)) && !Has(Leaf(s, p, v), PAGE_WRITE)
    requires s.refs[Ppn(Leaf(s, p, v))] <= 1 && Has(PageVma(s.vmas[p], v).value.flags, VM_WRITE)
    ensures var r := Upgrade(s, p, v);
            && VmInv(r) && SameViews(backing, s, r) && OnlyLeaf(s, r, p, v, SetWrite(Leaf(s, p, v)))
            && Prot(SetWrite(Leaf(s, p, v))) == VmProt(PageVma(s.vmas[p], v).value.flags)
            && r.space.role == s.space.role && r.space.pgd == s.space.pgd && |r.space.mem| == |s.space.mem|
            && (forall f :: 0 <= f < |s.space.mem| && !s.space.role[f].Table? ==> r.space.mem[f] == s.space.mem[f])
  {
    var w := Leaf(s, p, v);
    assert VmaOk(PageVma(s.vmas[p], v).value);
    UpgradeBits(w, PageVma(s.vmas[p], v).value.flags);
    UpgradeShape(s, p, v);
    var r := Upgrade(s, p, v);
    OneOwner(s.space.role[Ppn(w)].owners, (p, v));
    forall q, u | 0 <= q < |s.space.pgd| && 0 <= u < Bound(0)
      ensures Leaf(r, q, u) != 0 ==> LeafOk(r, q, u, Leaf(r, q, u))
      ensures PageView(backing, r, q, u) == PageView(backing, s, q, u)
    {
      UpgradedLeaf(backing, s, r, p, v, q, u);
    }
    forall g, o | 0 <= g < |r.space.role| && r.space.role[g].Data? && o in r.space.role[g].owners
      ensures MapsTo(r, o, g)
    {
      assert MapsTo(s, o, g);
    }
  }

  lemma UpgradedLeaf(backing: nat -> nat, s: Vm, r: Vm, p: nat, v: nat, q: nat, u: nat)
    requires VmInv(s) && Sane(r) && p < |s.space.pgd| && v < Bound(0) && q < |s.space.pgd| && u < Bound(0)
    requires LeafOk(s, p, v, Leaf(s, p, v)) && s.space.role[Ppn(Leaf(s, p, v))].owners == {(p, v)}
    requires var w := SetWrite(Leaf(s, p, v));
             && Prot(w) == VmProt(PageVma(s.vmas[p], v).value.flags) && Ppn(w) == Ppn(Leaf(s, p, v)) && w != 0
             && Leaf(s, p, v) != 0 && r.space.pgd == s.space.pgd && OnlyLeaf(s, r, p, v, w)
    requires r.refs == s.refs && r.vmas == s.vmas && r.space.role == s.space.role && |r.space.mem| == |s.space.mem|
    requires forall f :: 0 <= f < |s.space.mem| && !s.space.role[f].Table? ==> r.space.mem[f] == s.space.mem[f]
    ensures Leaf(r, q, u) != 0 ==> LeafOk(r, q, u, Leaf(r, q, u))
    ensures PageView(backing, r, q, u) == PageView(backing, s, q, u)
  {
    if Leaf(s, q, u) != 0 {
      assert LeafOk(s, q, u, Leaf(s, q, u));
    }
  }

  lemma OneOwner<T>(o: set<T>, x: T)
    requires x in o && |o| <= 1
    ensures o == {x}
  {
    assert |o - {x}| == |o| - 1;
    assert o - {x} == {};
  }

  /** A user store to a frame that the page table lets the process write. */
  ghost function StoreWord(s: Vm, p: nat, v: nat, i: nat, word: nat): Vm
    requires Sane(s) && p < |s.space.pgd| && i < WORDS && Ppn(Leaf(s, p, v)) < |s.space.mem|
  {
    var d := Ppn(Leaf(s, p, v));
    s.(space := FillFrame(s.space, d, s.space.mem[d][i := word], s.space.role[d]))
  }

  lemma StoreWordAt(backing: nat -> nat, s: Vm, r: Vm, p: nat, v: nat, i: nat, word: nat, q: nat, u: nat)
    requires Comparable(s, r) && p < |s.vmas| && q < |s.vmas| && i < WORDS
    requires Leaf(s, p, v) != 0 && LeafOk(s, p, v, Leaf(s, p, v)) && Has(Leaf(s, p, v), PAGE_WRITE)
    requires Leaf(s, q, u) != 0 ==> LeafOk(s, q, u, Leaf(s, q, u))
    requires Leaf(r, q, u) == Leaf(s, q, u) && r.space.role == s.space.role
    requires var d := Ppn(Leaf(s, p, v)); r.space.mem == s.space.mem[d := s.space.mem[d][i := word]]
    ensures Leaf(r, q, u) != 0 ==> LeafOk(r, q, u, Leaf(r, q, u))
    ensures PageView(backing, r, q, u) == if q == p && u == v then PageView(backing, s, p, v)[i := word]
              else PageView(backing, s, q, u)
  {
    if Leaf(s, q, u) != 0 && (q, u) != (p, v) {
      assert Ppn(Leaf(s, q, u)) != Ppn(Leaf(s, p, v));
    }
  }

  lemma StoreWordInv(backing: nat -> nat, s: Vm, p: nat, v: nat, i: nat, word: nat)
    requires VmInv(s) && p < |s.space.pgd| && v < Bound(0) && i < WORDS
    requires Leaf(s, p, v) != 0 && Has(Leaf(s, p, v), PAGE_WRITE)
    ensures LeafOk(s, p, v, Leaf(s, p, v))
    ensures var r := StoreWord(s, p, v, i, word);
            && VmInv(r) && r.vmas == s.vmas && r.space.pgd == s.space.pgd && r.space.role == s.space.role
            && forall q, u :: 0 <= q < |s.space.pgd| && 0 <= u < Bound(0) ==>
                 PageView(backing, r, q, u) == if q == p && u == v then PageView(backing, s, p, v)[i := word]
                     else PageView(backing, s, q, u)
  {
    assert LeafOk(s, p, v, Leaf(s, p, v));
    var d := Ppn(Leaf(s, p, v));
    FrameFill(s.space, d, s.space.mem[d][i := word], s.space.role[d]);
    var r := StoreWord(s, p, v, i, word);
    assert r.space.role == s.space.role;
    forall q, u | 0 <= q < |s.space.pgd| && 0 <= u < Bound(0)
      ensures Leaf(r, q, u) == Leaf(s, q, u)
      ensures Leaf(r, q, u) != 0 ==> LeafOk(r, q, u, Leaf(r, q, u))
      ensures PageView(backing, r, q, u) == if q == p && u == v then PageView(backing, s, p, v)[i := word]
                else PageView(backing, s, q, u)
    {
      if Leaf(s, q, u) != 0 {
        assert LeafOk(s, q, u, Leaf(s, q, u));
      }
      StoreWordAt(backing, s, r, p, v, i, word, q, u);
    }
    forall g, o | 0 <= g < |r.space.role| && r.space.role[g].Data? && o in r.space.role[g].owners
      ensures MapsTo(r, o, g)
    {
      assert MapsTo(s, o, g);
    }
  }

  /** A new address space with an empty user half and the given areas. */
  ghost function AddProcess(s: Vm, f: nat, root: Frame, areas: seq<Vma>): Vm
    requires f < |s.space.mem| && f < |s.space.role| && f < |s.refs|
  {
    Vm(AddRoot(s.space, f, root), s.refs[f := 1], s.vmas + [areas])
  }

  lemma AddProcessInv(backing: nat -> nat, s: Vm, f: nat, root: Frame, areas: seq<Vma>)
    requires VmInv(s) && f < |s.space.mem| && s.space.role[f] == Unused
    requires (forall i :: 0 <= i < 256 ==> root[i] == 0) && forall a :: a in areas ==> VmaOk(a)
    ensures var r := AddProcess(s, f, root, areas); var p := |s.space.pgd|;
            && VmInv(r)
            && (forall q, v :: 0 <= q <= p && 0 <= v < Bound(0) ==> Leaf(r, q, v) == if q == p then 0
                else Leaf(s, q, v))
            && (forall q, l, x :: 0 <= q <= p && 0 <= l <= 2 && 0 <= x < Bound(l) ==>
                  Walk(r.space, q, l, x) == if q == p then 0 else Walk(s.space, q, l, x))
            && (forall q, v :: 0 <= q < p && 0 <= v < Bound(0) ==>
                PageView(backing, r, q, v) == PageView(backing, s, q, v))
  {
    RootAdd(s.space, f, root);
    var r := AddProcess(s, f, root, areas);
    forall q, v | 0 <= q < |s.space.pgd| && 0 <= v < Bound(0)
      ensures Leaf(r, q, v) != 0 ==> LeafOk(r, q, v, Leaf(r, q, v))
      ensures PageView(backing, r, q, v) == PageView(backing, s, q, v)
    {
      if Leaf(s, q, v) != 0 {
        assert LeafOk(s, q, v, Leaf(s, q, v));
        KeptLeaf(s, r, q, v);
      }
    }
    forall g, o | 0 <= g < |r.space.role| && r.space.role[g].Data? && o in r.space.role[g].owners
      ensures MapsTo(r, o, g)
    {
      assert MapsTo(s, o, g);
    }
  }

  /** A leaf stays in order when its frame's role and its area do. */
  lemma KeptLeaf(s: Vm, r: Vm, q: nat, v: nat)
    requires |s.space.role| == |s.space.mem| && |r.space.role| == |r.space.mem| && q < |s.vmas| && q < |r.vmas|
    requires |r.space.mem| == |s.space.mem| && q < |s.space.pgd| && q < |r.space.pgd| && v < Bound(0)
    requires Leaf(r, q, v) == Leaf(s, q, v) && r.vmas[q] == s.vmas[q] && LeafOk(s, q, v, Leaf(s, q, v))
    requires forall g :: 0 <= g < |s.space.role| && s.space.role[g].Data? ==> r.space.role[g] == s.space.role[g]
    ensures LeafOk(r, q, v, Leaf(r, q, v))
  {
  }

  /** vm_mmap appends an area: pages already covered keep their area and contents. */
  ghost function AddArea(s: Vm, p: nat, a: Vma): Vm
    requires p < |s.vmas|
  {
    s.(vmas := s.vmas[p := s.vmas[p] + [a]])
  }

  lemma AddAreaInv(backing: nat -> nat, s: Vm, p: nat, a: Vma)
    requires VmInv(s) && p < |s.space.pgd| && VmaOk(a)
    ensures var r := AddArea(s, p, a);
            && VmInv(r)
            && forall q, v :: 0 <= q < |s.space.pgd| && 0 <= v < Bound(0) && PageVma(s.vmas[q], v).Some? ==>
                 PageVma(r.vmas[q], v) == PageVma(s.vmas[q], v)
                     && PageView(backing, r, q, v) == PageView(backing, s, q, v)
  {
    var r := AddArea(s, p, a);
    forall q, v | 0 <= q < |s.space.pgd| && 0 <= v < Bound(0) && PageVma(s.vmas[q], v).Some?
      ensures PageVma(r.vmas[q], v) == PageVma(s.vmas[q], v)
      ensures PageView(backing, r, q, v) == PageView(backing, s, q, v)
    {
      FindVmaAppend(s.vmas[p], a, v * PAGE_SIZE);
    }
    forall q, v | 0 <= q < |s.space.pgd| && 0 <= v < Bound(0) && Leaf(r, q, v) != 0
      ensures LeafOk(r, q, v, Leaf(r, q, v))
    {
      assert LeafOk(s, q, v, Leaf(s, q, v));
    }
    forall g, o | 0 <= g < |r.space.role| && r.space.role[g].Data? && o in r.space.role[g].owners
      ensures MapsTo(r, o, g)
    {
      assert MapsTo(s, o, g);
    }
  }

  // --- what the invariant says about frames

  /** The (process, page) pairs whose leaf maps frame d, over all address spaces. */
  ghost function Mappers(s: Vm, d: nat): set<(nat, nat)> {
    set p: nat, v: nat | p < |s.space.pgd| && v < Bound(0) && MapsTo(s, (p, v), d) :: (p, v)
  }

  /** The refcount of a mapped frame is the number of leaves that map it. */
  lemma RefcountIsMappings(s: Vm, d: nat)
    requires VmInv(s) && Mappers(s, d) != {}
    ensures d < |s.refs| && s.refs[d] == |Mappers(s, d)|
  {
    var o :| o in Mappers(s, d);
    assert LeafOk(s, o.0, o.1, Leaf(s, o.0, o.1));
    var owners := s.space.role[d].owners;
    forall x
      ensures x in owners <==> x in Mappers(s, d)
    {
      if x in owners {
        assert MapsTo(s, x, d);
        assert x == (x.0, x.1);
      }
      if x in Mappers(s, d) {
        assert LeafOk(s, x.0, x.1, Leaf(s, x.0, x.1));
      }
    }
    assert owners == Mappers(s, d);
  }

  /** A writable leaf is the only one that maps its frame. */
  lemma WritableIsAlone(s: Vm, p: nat, v: nat)
    requires VmInv(s) && p < |s.space.pgd| && v < Bound(0) && Has(Leaf(s, p, v), PAGE_WRITE)
    ensures Ppn(Leaf(s, p, v)) < |s.refs| && s.refs[Ppn(Leaf(s, p, v))] == 1
    ensures Mappers(s, Ppn(Leaf(s, p, v))) == {(p, v)}
  {
    var d := Ppn(Leaf(s, p, v));
    assert LeafOk(s, p, v, Leaf(s, p, v));
    assert MapsTo(s, (p, v), d);
    assert (p, v) in Mappers(s, d);
    RefcountIsMappings(s, d);
    forall x | x in Mappers(s, d)
      ensures x == (p, v)
    {
      assert LeafOk(s, x.0, x.1, Leaf(s, x.0, x.1));
    }
    assert Mappers(s, d) == {(p, v)};
  }

  /** Different upper entries lead to different tables, none of which is a root or a data frame. */
  lemma TablesApart(s: Vm, p: nat, l: nat, x: nat, q: nat, m: nat, y: nat)
    requires VmInv(s) && p < |s.space.pgd| && q < |s.space.pgd| && 1 <= l <= 2 && m <= 2 && x < Bound(l) && y < Bound(m)
    requires Walk(s.space, p, l, x) != 0 && Walk(s.space, q, m, y) != 0 && (p, l, x) != (q, m, y)
    ensures Ppn(Walk(s.space, p, l, x)) != Ppn(Walk(s.space, q, m, y))
    ensures Ppn(Walk(s.space, p, l, x)) !in s.space.pgd
  {
    assert LeadsTo(s.space, Walk(s.space, p, l, x), l - 1, p, x);
    if m == 0 {
      assert LeafOk(s, q, y, Leaf(s, q, y));
    } else {
      assert LeadsTo(s.space, Walk(s.space, q, m, y), m - 1, q, y);
    }
  }
}
