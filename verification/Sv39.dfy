/** Three-level page tables of src/vm.c in physical memory (section 4.4 of the RISC-V Privileged
    Architecture, version 20211203).

    Memory is a sequence of 4096-byte frames of 512 words; table frames and data frames live in it
    side by side.  `role` records what each frame is used for; it is proof state. */
module Sv39 {

  const WORDS := 512
  const PAGE_PRESENT := 1
  const PAGE_READ := 2
  const PAGE_WRITE := 4
  const PAGE_EXEC := 8
  const PAGE_USER := 16
  const PAGE_ACCESSED := 64
  const PAGE_DIRTY := 128

  // --- entries

  /** (pa >> 2) | prot, for the physical address pa of frame ppn and prot < 1024 */
  function MakePte(ppn: nat, prot: nat): nat {
    ppn * 1024 + prot
  }

  /** The frame at ((w & ~0x3ff) << 2) */
  function Ppn(w: nat): nat {
    w / 1024
  }

  function Prot(w: nat): nat {
    w % 1024
  }

  predicate Has(w: nat, bit: nat)
    requires bit > 0
  {
    w / bit % 2 == 1
  }

  /** w & ~PAGE_WRITE */
  function ClearWrite(w: nat): nat {
    if Has(w, PAGE_WRITE) then w - PAGE_WRITE else w
  }

  /** w | PAGE_WRITE */
  function SetWrite(w: nat): nat {
    if Has(w, PAGE_WRITE) then w else w + PAGE_WRITE
  }

  lemma PteFields(ppn: nat, prot: nat)
    requires prot < 1024
    ensures Ppn(MakePte(ppn, prot)) == ppn && Prot(MakePte(ppn, prot)) == prot
    ensures MakePte(ppn, prot) == 0 <==> ppn == 0 && prot == 0
  {
  }

  // --- memory and roles

  type Frame = f: seq<nat> | |f| == WORDS witness ZeroFrame()

  function ZeroFrame(): (f: seq<nat>)
    ensures |f| == WORDS && forall i :: 0 <= i < WORDS ==> f[i] == 0
  {
    seq(WORDS, i => 0)
  }

  /** A table is known by its level, its address space, and the bits of the page number that lead
      to it; a data frame by the (process, page number) pairs that map it. */
  datatype Role = Unused | Table(level: nat, pid: nat, prefix: nat) | Data(owners: set<(nat, nat)>)

  datatype Space = Space(mem: seq<Frame>, pgd: seq<nat>, role: seq<Role>)

  /** Page numbers in the user half: the level-2 index is below 256. */
  function Bound(level: nat): nat {
    if level == 0 then 0x400_0000 else if level == 1 then 0x2_0000 else 256
  }

  /** The entry met at `level` on the way to page x * 512^level, or 0 when the walk stops above. */
  function Walk(s: Space, p: nat, level: nat, x: nat): nat
    requires p < |s.pgd|
    decreases 2 - level
  {
    if level >= 2 then Read(s.mem, s.pgd[p], x)
    else
      var up := Walk(s, p, level + 1, x / WORDS);
      if up == 0 then 0 else Read(s.mem, Ppn(up), x % WORDS)
  }

  function Read(mem: seq<Frame>, f: nat, i: nat): nat {
    if f < |mem| && i < WORDS then mem[f][i] else 0
  }

  /** The frame holding the entry for x at `level`. */
  function SlotFrame(s: Space, p: nat, level: nat, x: nat): nat
    requires p < |s.pgd|
  {
    if level >= 2 then s.pgd[p] else Ppn(Walk(s, p, level + 1, x / WORDS))
  }

  /** The table that would hold the entry for x at `level` exists. */
  predicate HasSlot(s: Space, p: nat, level: nat, x: nat)
    requires p < |s.pgd|
  {
    level >= 2 || Walk(s, p, level + 1, x / WORDS) != 0
  }

  // --- the tree invariant

  ghost predicate Sized(s: Space) {
    |s.role| == |s.mem|
  }

  /** Every root is a table of its own address space. */
  ghost predicate Rooted(s: Space)
    requires Sized(s)
  {
    forall p :: 0 <= p < |s.pgd| ==> s.pgd[p] < |s.mem| && s.role[s.pgd[p]] == Table(2, p, 0)
  }

  /** A table is entered from one place only. */
  ghost predicate Anchored(s: Space)
    requires Sized(s)
  {
    forall f :: 0 <= f < |s.role| && s.role[f].Table? ==>
        AnchoredAt(s, f, s.role[f].level, s.role[f].pid, s.role[f].prefix)
  }

  ghost predicate AnchoredAt(s: Space, f: nat, l: nat, p: nat, q: nat) {
    && p < |s.pgd| && l <= 2
    && (l == 2 ==> q == 0 && s.pgd[p] == f)
    && (l < 2 ==> q < Bound(l + 1) && Walk(s, p, l + 1, q) == MakePte(f, PAGE_PRESENT))
  }

  /** Every upper entry that is set leads to the table of its position. */
  ghost predicate Descends(s: Space)
    requires Sized(s)
  {
    forall p, l, x {:trigger Walk(s, p, l, x)} ::
      0 <= p < |s.pgd| && 1 <= l <= 2 && 0 <= x < Bound(l) && Walk(s, p, l, x) != 0 ==>
        LeadsTo(s, Walk(s, p, l, x), l - 1, p, x)
  }

  ghost predicate LeadsTo(s: Space, w: nat, l: nat, p: nat, x: nat) {
    Ppn(w) < |s.mem| && Ppn(w) < |s.role| && w == MakePte(Ppn(w), PAGE_PRESENT) && s.role[Ppn(w)] == Table(l, p, x)
  }

  ghost predicate Tree(s: Space) {
    Sized(s) && Rooted(s) && Anchored(s) && Descends(s)
  }

  lemma SlotRole(s: Space, p: nat, l: nat, x: nat)
    requires Tree(s) && p < |s.pgd| && l <= 2 && x < Bound(l) && HasSlot(s, p, l, x)
    ensures x / WORDS < (if l == 2 then 1 else Bound(l + 1))
    ensures SlotFrame(s, p, l, x) < |s.mem|
    ensures s.role[SlotFrame(s, p, l, x)] == Table(l, p, x / WORDS)
    ensures Walk(s, p, l, x) == s.mem[SlotFrame(s, p, l, x)][x % WORDS]
  {
  }

  // --- writes

  /** Tables of level `low` and above are the same in both. */
  ghost predicate SameTables(s: Space, r: Space, low: nat) {
    && r.pgd == s.pgd && |r.mem| == |s.mem| == |s.role|
    && forall f :: 0 <= f < |s.role| && s.role[f].Table? && s.role[f].level >= low ==> r.mem[f] == s.mem[f]
  }

  lemma {:induction false} WalkSame(s: Space, r: Space, low: nat, p: nat, l: nat, x: nat)
    requires Tree(s) && SameTables(s, r, low) && p < |s.pgd| && low <= l <= 2 && x < Bound(l)
    ensures Walk(r, p, l, x) == Walk(s, p, l, x)
    decreases 2 - l
  {
    if l < 2 {
      WalkSame(s, r, low, p, l + 1, x / WORDS);
      if HasSlot(s, p, l, x) {
        SlotRole(s, p, l, x);
      }
    }
  }

  function SetWord(mem: seq<Frame>, f: nat, i: nat, w: nat): seq<Frame>
    requires f < |mem| && i < WORDS
  {
    mem[f := mem[f][i := w]]
  }

  /** Writing the slot of x at level l. */
  function SetEntry(s: Space, p: nat, l: nat, x: nat, w: nat): Space
    requires p < |s.pgd|
  {
    var t := SlotFrame(s, p, l, x);
    if t < |s.mem| then s.(mem := SetWord(s.mem, t, x % WORDS, w)) else s
  }

  /** Writing one leaf slot changes that leaf and nothing else. */
  lemma LeafWrite(s: Space, p: nat, v: nat, w: nat)
    requires Tree(s) && p < |s.pgd| && v < Bound(0) && HasSlot(s, p, 0, v)
    ensures var r := SetEntry(s, p, 0, v, w);
            && Tree(r)
            && (forall q, l, x :: 0 <= q < |s.pgd| && 0 <= l <= 2 && 0 <= x < Bound(l) ==>
                  Walk(r, q, l, x) == if q == p && l == 0 && x == v then w else Walk(s, q, l, x))
            && (forall f :: 0 <= f < |s.mem| && !s.role[f].Table? ==> r.mem[f] == s.mem[f])
  {
    var r := SetEntry(s, p, 0, v, w);
    SlotRole(s, p, 0, v);
    forall q, l, x | 0 <= q < |s.pgd| && 0 <= l <= 2 && 0 <= x < Bound(l)
      ensures Walk(r, q, l, x) == if q == p && l == 0 && x == v then w else Walk(s, q, l, x)
    {
      if l > 0 {
        WalkSame(s, r, 1, q, l, x);
      } else {
        WalkSame(s, r, 1, q, 1, x / WORDS);
        if HasSlot(s, q, 0, x) {
          SlotRole(s, q, 0, x);
        }
      }
    }
    TreeStays(s, r);
  }

  /** The tree depends on roots, roles and upper entries. */
  lemma TreeStays(s: Space, r: Space)
    requires Tree(s) && r.pgd == s.pgd && r.role == s.role && |r.mem| == |s.mem|
    requires forall p, l, x :: 0 <= p < |s.pgd| && 1 <= l <= 2 && 0 <= x < Bound(l) ==>
               Walk(r, p, l, x) == Walk(s, p, l, x)
    ensures Tree(r)
  {
    forall f | 0 <= f < |r.role| && r.role[f].Table?
      ensures AnchoredAt(r, f, r.role[f].level, r.role[f].pid, r.role[f].prefix)
    {
      assert AnchoredAt(s, f, s.role[f].level, s.role[f].pid, s.role[f].prefix);
    }
  }

  /** Filling a frame that is no table, or giving it another use outside the tables, moves no entry. */
  function FillFrame(s: Space, f: nat, frame: Frame, role: Role): Space
    requires f < |s.mem| && f < |s.role|
  {
    s.(mem := s.mem[f := frame], role := s.role[f := role])
  }

  lemma FrameFill(s: Space, f: nat, frame: Frame, role: Role)
    requires Tree(s) && f < |s.mem| && !s.role[f].Table? && !role.Table?
    ensures var r := FillFrame(s, f, frame, role);
            && Tree(r)
            && forall q, l, x :: 0 <= q < |s.pgd| && 0 <= l <= 2 && 0 <= x < Bound(l) ==>
                Walk(r, q, l, x) == Walk(s, q, l, x)
  {
    var r := FillFrame(s, f, frame, role);
    forall q, l, x | 0 <= q < |s.pgd| && 0 <= l <= 2 && 0 <= x < Bound(l)
      ensures Walk(r, q, l, x) == Walk(s, q, l, x)
    {
      WalkSame(s, r, 0, q, l, x);
    }
  }

  /** Filling a frame and writing one leaf. */
  lemma FillAndMap(s: Space, f: nat, frame: Frame, role: Role, p: nat, v: nat, w: nat)
    requires Tree(s) && f < |s.mem| && !s.role[f].Table? && !role.Table?
    requires p < |s.pgd| && v < Bound(0) && HasSlot(s, p, 0, v)
    ensures var r := SetEntry(FillFrame(s, f, frame, role), p, 0, v, w);
            && Tree(r) && r.pgd == s.pgd && |r.mem| == |s.mem| && r.role == s.role[f := role]
            && (forall q, l, x :: 0 <= q < |s.pgd| && 0 <= l <= 2 && 0 <= x < Bound(l) ==>
                  Walk(r, q, l, x) == if q == p && l == 0 && x == v then w else Walk(s, q, l, x))
            && (forall g :: 0 <= g < |s.mem| && !s.role[g].Table? ==> r.mem[g] == if g == f then frame else s.mem[g])
  {
    var m := FillFrame(s, f, frame, role);
    FrameFill(s, f, frame, role);
    assert Walk(m, p, 1, v / WORDS) == Walk(s, p, 1, v / WORDS);
    LeafWrite(m, p, v, w);
    SlotRole(m, p, 0, v);
  }

  /** The same entry in two trees. */
  lemma FillAndMapBoth(s: Space, f: nat, frame: Frame, role: Role, p: nat, p': nat, v: nat, w: nat)
    requires Tree(s) && f < |s.mem| && !s.role[f].Table? && !role.Table?
    requires p < |s.pgd| && p' < |s.pgd| && v < Bound(0) && HasSlot(s, p, 0, v) && HasSlot(s, p', 0, v)
    ensures var r := SetEntry(SetEntry(FillFrame(s, f, frame, role), p, 0, v, w), p', 0, v, w);
            && Tree(r) && r.pgd == s.pgd && |r.mem| == |s.mem| && r.role == s.role[f := role]
            && (forall q, l, x :: 0 <= q < |s.pgd| && 0 <= l <= 2 && 0 <= x < Bound(l) ==>
                  Walk(r, q, l, x) == if l == 0 && x == v && (q == p || q == p') then w else Walk(s, q, l, x))
            && (forall g :: 0 <= g < |s.mem| && !s.role[g].Table? ==> r.mem[g] == if g == f then frame else s.mem[g])
  {
    var z := SetEntry(FillFrame(s, f, frame, role), p, 0, v, w);
    FillAndMap(s, f, frame, role, p, v, w);
    assert Walk(z, p', 1, v / WORDS) == Walk(s, p', 1, v / WORDS);
    LeafWrite(z, p', v, w);
    SlotRole(z, p', 0, v);
  }

  /** A further root, empty in its user half. */
  function AddRoot(s: Space, f: nat, root: Frame): Space
    requires f < |s.mem| && f < |s.role|
  {
    Space(s.mem[f := root], s.pgd + [f], s.role[f := Table(2, |s.pgd|, 0)])
  }

  lemma RootAdd(s: Space, f: nat, root: Frame)
    requires Tree(s) && f < |s.mem| && s.role[f] == Unused
    requires forall i :: 0 <= i < 256 ==> root[i] == 0
    ensures var r := AddRoot(s, f, root);
            && Tree(r)
            && forall q, l, x :: 0 <= q <= |s.pgd| && 0 <= l <= 2 && 0 <= x < Bound(l) ==>
                 Walk(r, q, l, x) == if q == |s.pgd| then 0 else Walk(s, q, l, x)
  {
    var r := AddRoot(s, f, root);
    forall q, l, x | 0 <= q <= |s.pgd| && 0 <= l <= 2 && 0 <= x < Bound(l)
      ensures Walk(r, q, l, x) == if q == |s.pgd| then 0 else Walk(s, q, l, x)
    {
      RootAddWalk(s, r, f, root, q, l, x);
    }
  }

  lemma {:induction false} RootAddWalk(s: Space, r: Space, f: nat, root: Frame, q: nat, l: nat, x: nat)
    requires Tree(s) && f < |s.mem| && s.role[f] == Unused && r == AddRoot(s, f, root)
    requires forall i :: 0 <= i < 256 ==> root[i] == 0
    requires q <= |s.pgd| && l <= 2 && x < Bound(l)
    ensures Walk(r, q, l, x) == if q == |s.pgd| then 0 else Walk(s, q, l, x)
    decreases 2 - l
  {
    if l < 2 {
      RootAddWalk(s, r, f, root, q, l + 1, x / WORDS);
    }
    if q < |s.pgd| && HasSlot(s, q, l, x) {
      SlotRole(s, q, l, x);
    }
  }

  /** Linking the fresh zeroed table f under the empty upper slot of x. */
  function LinkTable(s: Space, p: nat, l: nat, x: nat, f: nat): Space
    requires p < |s.pgd| && 1 <= l && f < |s.mem| && f < |s.role|
  {
    SetEntry(s.(mem := s.mem[f := ZeroFrame()], role := s.role[f := Table(l - 1, p, x)]), p, l, x,
        MakePte(f, PAGE_PRESENT))
  }

  /** A new table adds an entry at its own place and translates no further page. */
  lemma TableLink(s: Space, p: nat, l: nat, x: nat, f: nat)
    requires Tree(s) && p < |s.pgd| && 1 <= l <= 2 && x < Bound(l) && HasSlot(s, p, l, x)
    requires Walk(s, p, l, x) == 0 && f < |s.mem| && s.role[f] == Unused
    ensures var r := LinkTable(s, p, l, x, f);
            && Tree(r)
            && (forall q, j, y :: 0 <= q < |s.pgd| && 0 <= j <= 2 && 0 <= y < Bound(j) ==>
                  Walk(r, q, j, y) == if q == p && j == l && y == x then MakePte(f, PAGE_PRESENT) else Walk(s, q, j, y))
            && (forall g :: 0 <= g < |s.mem| && g != f && !s.role[g].Table? ==> r.mem[g] == s.mem[g])
            && r.role == s.role[f := Table(l - 1, p, x)] && r.pgd == s.pgd && |r.mem| == |s.mem|
  {
    LinkWrites(s, p, l, x, f);
    TableLinked(s, LinkTable(s, p, l, x, f), p, l, x, f);
  }

  /** The two writes that link a table. */
  lemma LinkWrites(s: Space, p: nat, l: nat, x: nat, f: nat)
    requires Tree(s) && p < |s.pgd| && 1 <= l <= 2 && x < Bound(l) && HasSlot(s, p, l, x)
    requires f < |s.mem| && s.role[f] == Unused
    ensures SlotFrame(s, p, l, x) < |s.mem|
    ensures LinkTable(s, p, l, x, f).mem == SetWord(s.mem[f := ZeroFrame()], SlotFrame(s, p, l, x), x % WORDS,
              MakePte(f, PAGE_PRESENT))
    ensures LinkTable(s, p, l, x, f).pgd == s.pgd
  {
    SlotRole(s, p, l, x);
    var z := s.(mem := s.mem[f := ZeroFrame()], role := s.role[f := Table(l - 1, p, x)]);
    if l < 2 {
      WalkSame(s, z, 0, p, l + 1, x / WORDS);
    }
  }

  lemma TableLinked(s: Space, r: Space, p: nat, l: nat, x: nat, f: nat)
    requires Linking(s, r, p, l, x, f) && r.role == s.role[f := Table(l - 1, p, x)]
    ensures Tree(r) && |r.mem| == |s.mem|
    ensures forall q, j, y :: 0 <= q < |s.pgd| && 0 <= j <= 2 && 0 <= y < Bound(j) ==>
              Walk(r, q, j, y) == if q == p && j == l && y == x then MakePte(f, PAGE_PRESENT) else Walk(s, q, j, y)
    ensures forall g :: 0 <= g < |s.mem| && g != f && !s.role[g].Table? ==> r.mem[g] == s.mem[g]
  {
    SlotRole(s, p, l, x);
    forall q, j, y | 0 <= q < |s.pgd| && 0 <= j <= 2 && 0 <= y < Bound(j)
      ensures Walk(r, q, j, y) == Linked(s, p, l, x, f, q, j, y)
    {
      TableLinkWalk(s, r, p, l, x, f, q, j, y);
    }
  }

  lemma {:induction false} TableLinkWalk(s: Space, r: Space, p: nat, l: nat, x: nat, f: nat, q: nat, j: nat, y: nat)
    requires Linking(s, r, p, l, x, f)
    requires q < |s.pgd| && j <= 2 && y < Bound(j)
    ensures Walk(r, q, j, y) == Linked(s, p, l, x, f, q, j, y)
    decreases 2 - j
  {
    if j < 2 {
      TableLinkWalk(s, r, p, l, x, f, q, j + 1, y / WORDS);
    }
    TableLinkStep(s, r, p, l, x, f, q, j, y);
  }

  /** r is s with the table f linked in memory; roles aside. */
  ghost predicate Linking(s: Space, r: Space, p: nat, l: nat, x: nat, f: nat) {
    && Tree(s) && p < |s.pgd| && 1 <= l <= 2 && x < Bound(l) && HasSlot(s, p, l, x)
    && Walk(s, p, l, x) == 0 && f < |s.mem| && s.role[f] == Unused
    && SlotFrame(s, p, l, x) < |s.mem| && r.pgd == s.pgd
    && r.mem == SetWord(s.mem[f := ZeroFrame()], SlotFrame(s, p, l, x), x % WORDS, MakePte(f, PAGE_PRESENT))
  }

  ghost function Linked(s: Space, p: nat, l: nat, x: nat, f: nat, q: nat, j: nat, y: nat): nat
    requires q < |s.pgd|
  {
    if q == p && j == l && y == x then MakePte(f, PAGE_PRESENT) else Walk(s, q, j, y)
  }

  lemma TableLinkStep(s: Space, r: Space, p: nat, l: nat, x: nat, f: nat, q: nat, j: nat, y: nat)
    requires Linking(s, r, p, l, x, f)
    requires q < |s.pgd| && j <= 2 && y < Bound(j)
    requires j < 2 ==> Walk(r, q, j + 1, y / WORDS) == Linked(s, p, l, x, f, q, j + 1, y / WORDS)
    ensures Walk(r, q, j, y) == Linked(s, p, l, x, f, q, j, y)
  {
    SlotRole(s, p, l, x);
    PteFields(f, PAGE_PRESENT);
    if HasSlot(s, q, j, y) {
      SlotRole(s, q, j, y);
      var u := SlotFrame(s, q, j, y);
      assert u != f;
      assert Walk(r, q, j, y) == r.mem[u][y % WORDS];
    } else if q == p && j + 1 == l && y / WORDS == x {
      assert Walk(r, q, j, y) == ZeroFrame()[y % WORDS];
    }
  }
}
