/** The machine words behind the arithmetic of page-table entries: what the shifts and masks of
    src/vm.c compute, as numbers. */
module Words {
  import opened Sv39
  import opened Common
  import opened Cow

  /** The number a word stands for. */
  function Value(w: bv64): nat
    decreases w
  {
    if w == 0 then 0 else (if w & 1 == 1 then 1 else 0) + 2 * Value(w >> 1)
  }

  lemma ShiftOne(w: bv64)
    ensures Value(w >> 1) == Value(w) / 2
    ensures w & 1 == 0 ==> Value(w) == 2 * Value(w >> 1)
    ensures w & 1 == 1 <==> Value(w) % 2 == 1
  {
  }

  lemma ShiftTwo(w: bv64)
    ensures Value(w >> 2) == Value(w) / 4
    ensures w & 3 == 0 ==> Value(w) == 4 * Value(w >> 2)
  {
    ShiftOne(w);
    ShiftOne(w >> 1);
    assert (w >> 1) >> 1 == w >> 2;
    assert w & 3 == 0 ==> w & 1 == 0 && (w >> 1) & 1 == 0;
  }

  // Facts about bits alone, and about numbers alone, so that no proof has to mix the two.

  lemma ShiftsAdd(w: bv64)
    ensures (w >> 2) >> 2 == w >> 4 && (w >> 4) >> 4 == w >> 8
    ensures (w >> 8) >> 1 == w >> 9 && (w >> 8) >> 2 == w >> 10 && (w >> 8) >> 4 == w >> 12
  {
  }

  lemma LowBitsClear(w: bv64)
    ensures w & 0xf == 0 ==> w & 3 == 0 && (w >> 2) & 3 == 0
    ensures w & 0xff == 0 ==> w & 0xf == 0 && (w >> 4) & 0xf == 0
    ensures w & 0x1ff == 0 ==> w & 0xff == 0 && (w >> 8) & 1 == 0
    ensures w & 0x3ff == 0 ==> w & 0xff == 0 && (w >> 8) & 3 == 0
    ensures w & 0xfff == 0 ==> w & 0xff == 0 && (w >> 8) & 0xf == 0
  {
  }

  lemma Quotients(x: nat)
    ensures x / 4 / 4 == x / 16 && x / 16 / 16 == x / 256
    ensures x / 256 / 2 == x / 512 && x / 256 / 4 == x / 1024 && x / 256 / 16 == x / 4096
  {
  }

  lemma ShiftFour(w: bv64)
    ensures Value(w >> 4) == Value(w) / 16
    ensures w & 0xf == 0 ==> Value(w) == 16 * Value(w >> 4)
  {
    ShiftTwo(w);
    ShiftTwo(w >> 2);
    ShiftsAdd(w);
    LowBitsClear(w);
    Quotients(Value(w));
  }

  lemma ShiftEight(w: bv64)
    ensures Value(w >> 8) == Value(w) / 256
    ensures w & 0xff == 0 ==> Value(w) == 256 * Value(w >> 8)
  {
    ShiftFour(w);
    ShiftFour(w >> 4);
    ShiftsAdd(w);
    LowBitsClear(w);
    Quotients(Value(w));
  }

  lemma ShiftNine(w: bv64)
    ensures Value(w >> 9) == Value(w) / 512
    ensures w & 0x1ff == 0 ==> Value(w) == 512 * Value(w >> 9)
  {
    ShiftEight(w);
    ShiftOne(w >> 8);
    ShiftsAdd(w);
    LowBitsClear(w);
    Quotients(Value(w));
  }

  lemma ShiftTen(w: bv64)
    ensures Value(w >> 10) == Value(w) / 1024
    ensures w & 0x3ff == 0 ==> Value(w) == 1024 * Value(w >> 10)
  {
    ShiftEight(w);
    ShiftTwo(w >> 8);
    ShiftsAdd(w);
    LowBitsClear(w);
    Quotients(Value(w));
  }

  lemma ShiftTwelve(w: bv64)
    ensures Value(w >> 12) == Value(w) / PAGE_SIZE
    ensures w & 0xfff == 0 ==> Value(w) == PAGE_SIZE * Value(w >> 12)
  {
    ShiftEight(w);
    ShiftFour(w >> 8);
    ShiftsAdd(w);
    LowBitsClear(w);
    Quotients(Value(w));
  }

  lemma HalvesDisjoint(a: bv64, b: bv64)
    requires a & b == 0
    ensures (a >> 1) & (b >> 1) == 0
  {
  }

  lemma HalvesJoin(a: bv64, b: bv64, c: bv64)
    requires c == a | b
    ensures c >> 1 == (a >> 1) | (b >> 1)
  {
  }

  lemma LastBits(a: bv64, b: bv64, c: bv64)
    requires a & b == 0 && c == a | b
    ensures if a & 1 == 1 then b & 1 != 1 && c & 1 == 1 else c & 1 == b & 1
  {
  }

  lemma NothingJoined(b: bv64)
    ensures 0 | b == b
  {
  }

  /** Bit by bit, c has the bits of a and those of b, which have none in common. */
  ghost predicate Joined(a: bv64, b: bv64, c: bv64)
    decreases a
  {
    if a == 0 then b == c
    else
      && (if a & 1 == 1 then b & 1 != 1 && c & 1 == 1 else c & 1 == b & 1)
      && Joined(a >> 1, b >> 1, c >> 1)
  }

  lemma {:induction false} JoinedOr(a: bv64, b: bv64, c: bv64)
    requires a & b == 0 && c == a | b
    ensures Joined(a, b, c)
    decreases a, 1
  {
    if a == 0 {
      NothingJoined(b);
    } else {
      LastBits(a, b, c);
      JoinedHalves(a, b, c);
    }
  }

  lemma {:induction false} JoinedHalves(a: bv64, b: bv64, c: bv64)
    requires a & b == 0 && c == a | b && a != 0
    ensures Joined(a >> 1, b >> 1, c >> 1)
    decreases a, 0
  {
    var x, y, z := OrHalves(a, b, c);
    Smaller(a);
    JoinedOr(x, y, z);
  }

  /** The halves of a disjunction. */
  lemma OrHalves(a: bv64, b: bv64, c: bv64) returns (x: bv64, y: bv64, z: bv64)
    requires a & b == 0 && c == a | b
    ensures x & y == 0 && z == x | y
    ensures x == a >> 1 && y == b >> 1 && z == c >> 1
  {
    x, y, z := a >> 1, b >> 1, c >> 1;
    HalvesDisjoint(a, b);
    HalvesJoin(a, b, c);
  }

  lemma Smaller(a: bv64)
    requires a != 0
    ensures a >> 1 < a
  {
  }

  lemma {:induction false} JoinedValue(a: bv64, b: bv64, c: bv64)
    requires Joined(a, b, c)
    ensures Value(c) == Value(a) + Value(b)
    decreases a
  {
    if a != 0 {
      JoinedValue(a >> 1, b >> 1, c >> 1);
      ValueParts(a);
      ValueParts(b);
      ValueParts(c);
    }
  }

  /** Words without a common bit add up. */
  lemma Disjoint(a: bv64, b: bv64)
    requires a & b == 0
    ensures Value(a | b) == Value(a) + Value(b)
  {
    JoinedOr(a, b, a | b);
    JoinedValue(a, b, a | b);
  }

  lemma ValueParts(w: bv64)
    ensures Value(w) == (if w & 1 == 1 then 1 else 0) + 2 * Value(w >> 1)
  {
  }

  /** A word is its low bits below `mask` and the rest. */
  lemma Parts(w: bv64, mask: bv64)
    ensures (w & mask) & (w & !mask) == 0
  {
  }

  lemma PartsJoin(w: bv64, mask: bv64)
    ensures (w & mask) | (w & !mask) == w
  {
  }

  lemma MaskedTen(w: bv64)
    ensures (w & 0x3ff) >> 10 == 0
    ensures (w & !0x3ff) & 0x3ff == 0
  {
  }

  lemma RestTen(w: bv64)
    ensures (w & !0x3ff) >> 10 == w >> 10
  {
  }

  lemma MaskedNine(w: bv64)
    ensures (w & 0x1ff) >> 9 == 0
    ensures (w & !0x1ff) & 0x1ff == 0
  {
  }

  lemma RestNine(w: bv64)
    ensures (w & !0x1ff) >> 9 == w >> 9
  {
  }

  lemma RestTwelve(w: bv64)
    ensures (w & !0xfff) >> 12 == w >> 12
  {
  }

  lemma MaskedTwelve(w: bv64)
    ensures (w & !0xfff) & 0xfff == 0
  {
  }

  lemma SmallTen(low: nat, high: nat)
    requires low / 1024 == 0
    ensures (low + 1024 * high) % 1024 == low
  {
  }

  lemma SmallNine(low: nat, high: nat)
    requires low / 512 == 0
    ensures (low + 512 * high) % 512 == low
  {
  }

  lemma ValueSplit(w: bv64, mask: bv64)
    ensures Value(w) == Value(w & mask) + Value(w & !mask)
  {
    Parts(w, mask);
    PartsJoin(w, mask);
    Disjoint(w & mask, w & !mask);
  }

  lemma RestTenValue(w: bv64)
    ensures Value(w & !0x3ff) == 1024 * Value(w >> 10)
  {
    MaskedTen(w);
    RestTen(w);
    ShiftTen(w & !0x3ff);
  }

  lemma TenParts(w: bv64)
    ensures Value(w) == Value(w & 0x3ff) + 1024 * Value(w >> 10)
  {
    ValueSplit(w, 0x3ff);
    RestTenValue(w);
  }

  /** The ten low bits of an entry. */
  lemma LowTen(w: bv64)
    ensures Value(w & 0x3ff) == Prot(Value(w))
  {
    TenParts(w);
    MaskedTen(w);
    ShiftTen(w & 0x3ff);
    SmallTen(Value(w & 0x3ff), Value(w >> 10));
  }

  lemma RestNineValue(w: bv64)
    ensures Value(w & !0x1ff) == 512 * Value(w >> 9)
  {
    MaskedNine(w);
    RestNine(w);
    ShiftNine(w & !0x1ff);
  }

  lemma NineParts(w: bv64)
    ensures Value(w) == Value(w & 0x1ff) + 512 * Value(w >> 9)
  {
    ValueSplit(w, 0x1ff);
    RestNineValue(w);
  }

  /** The nine low bits: a table index. */
  lemma LowNine(w: bv64)
    ensures Value(w & 0x1ff) == Value(w) % WORDS
  {
    NineParts(w);
    MaskedNine(w);
    ShiftNine(w & 0x1ff);
    SmallNine(Value(w & 0x1ff), Value(w >> 9));
  }

  // --- entries and indices

  lemma EntryBits(pa: bv64, prot: bv64)
    requires pa & 0xfff == 0 && prot <= 0x3ff
    ensures (pa >> 2) & prot == 0
  {
  }

  /** (pa >> 2) | prot is the entry of the model. */
  lemma EntryIsMakePte(pa: bv64, prot: bv64)
    requires pa & 0xfff == 0 && prot <= 0x3ff
    ensures Value((pa >> 2) | prot) == MakePte(Value(pa >> 12), Value(prot))
  {
    EntryBits(pa, prot);
    Disjoint(pa >> 2, prot);
    ShiftTwo(pa);
    ShiftTwelve(pa);
  }

  lemma FrameBits(w: bv64)
    requires w < 0x4000_0000_0000_0000
    ensures ((w & !0x3ff) << 2) & 0xfff == 0 && ((w & !0x3ff) << 2) >> 12 == w >> 10
  {
  }

  /** (w & ~0x3ff) << 2 is the address of the frame that Ppn names. */
  lemma FrameIsPpn(w: bv64)
    requires w < 0x4000_0000_0000_0000
    ensures Value((w & !0x3ff) << 2) == PAGE_SIZE * Ppn(Value(w))
  {
    FrameBits(w);
    ShiftTwelve((w & !0x3ff) << 2);
    ShiftTen(w);
  }

  /** The bits of an entry come apart again, with the write bit cleared or not. */
  lemma EntryBitsApart(pa: bv64, prot: bv64, e: bv64)
    requires pa & 0xfff == 0 && pa < 0x100_0000_0000_0000 && prot <= 0x3ff && e == (pa >> 2) | prot
    ensures (e & !0x3ff) << 2 == pa && e & 0x3ff == prot && e < 0x4000_0000_0000_0000
    ensures ((e & !4) & !0x3ff) << 2 == pa && e & !4 < 0x4000_0000_0000_0000
  {
  }

  lemma WriteBitShifted(w: bv64)
    ensures (w >> 2) & 1 == 1 <==> w & 4 != 0
  {
  }

  lemma WriteBitSet(w: bv64)
    requires w & 4 != 0
    ensures (w & !4) & 4 == 0
    ensures w | 4 == w
  {
  }

  lemma WriteBitBack(w: bv64)
    requires w & 4 != 0
    ensures (w & !4) | 4 == w
  {
  }

  lemma WriteBitUnset(w: bv64)
    requires w & 4 == 0
    ensures w & !4 == w
  {
  }

  /** Testing the write bit. */
  lemma WriteBitTest(w: bv64)
    ensures w & 4 != 0 <==> Has(Value(w), PAGE_WRITE)
  {
    WriteBitShifted(w);
    ShiftTwo(w);
    ShiftOne(w >> 2);
  }

  lemma Four()
    ensures Value(4) == 4
  {
    ShiftTwo(4);
    ValueParts(1);
  }

  lemma WriteBitWorth(w: bv64)
    requires w & 4 != 0
    ensures Value(w) == Value(w & !4) + 4
  {
    WriteBitSet(w);
    WriteBitBack(w);
    Disjoint(w & !4, 4);
    Four();
  }

  /** *pte & ~PAGE_WRITE */
  lemma WriteBitCleared(w: bv64)
    ensures Value(w & !4) == ClearWrite(Value(w))
  {
    WriteBitTest(w);
    if w & 4 != 0 {
      WriteBitWorth(w);
    } else {
      WriteBitUnset(w);
    }
  }

  /** *pte | PAGE_WRITE */
  lemma WriteBitAdded(w: bv64)
    ensures Value(w | 4) == SetWrite(Value(w))
  {
    WriteBitTest(w);
    if w & 4 != 0 {
      WriteBitSet(w);
    } else {
      Disjoint(w, 4);
      Four();
    }
  }

  /** An entry names the page it was made from, with the permission bits it was made from. */
  lemma EntryRoundTrip(pa: bv64, prot: bv64, e: bv64)
    requires pa & 0xfff == 0 && pa < 0x100_0000_0000_0000 && prot <= 0x3ff && e == (pa >> 2) | prot
    ensures PAGE_SIZE * Ppn(Value(e)) == Value(pa) && Prot(Value(e)) == Value(prot)
  {
    EntryBitsApart(pa, prot, e);
    EntryParts(pa, prot, e);
  }

  /** Clearing the write bit leaves that page alone. */
  lemma WriteBitAlone(pa: bv64, prot: bv64, e: bv64)
    requires pa & 0xfff == 0 && pa < 0x100_0000_0000_0000 && prot <= 0x3ff && e == (pa >> 2) | prot
    ensures PAGE_SIZE * Ppn(Value(e & !4)) == Value(pa)
  {
    EntryBitsApart(pa, prot, e);
    ClearedParts(pa, e & !4);
  }

  lemma EntryParts(pa: bv64, prot: bv64, e: bv64)
    requires (e & !0x3ff) << 2 == pa && e & 0x3ff == prot && e < 0x4000_0000_0000_0000
    ensures PAGE_SIZE * Ppn(Value(e)) == Value(pa) && Prot(Value(e)) == Value(prot)
  {
    FrameIsPpn(e);
    LowTen(e);
  }

  lemma ClearedParts(pa: bv64, c: bv64)
    requires (c & !0x3ff) << 2 == pa && c < 0x4000_0000_0000_0000
    ensures PAGE_SIZE * Ppn(Value(c)) == Value(pa)
  {
    FrameIsPpn(c);
  }

  /** The permission bits mk_pte collects. */
  function MkProt(flags: bv64): bv64 {
    var r: bv64, w: bv64, x: bv64 := Bit(flags, 1, 2), Bit(flags, 2, 4), Bit(flags, 4, 8);
    ((0xd1 | r) | w) | x
  }

  function Bit(flags: bv64, test: bv64, bit: bv64): bv64 {
    if flags & test != 0 then bit else 0
  }

  lemma Doubled(w: bv64)
    requires w < 0x8000_0000_0000_0000
    ensures Value(2 * w) == 2 * Value(w)
  {
    ValueParts(2 * w);
    assert (2 * w) >> 1 == w && (2 * w) & 1 == 0;
  }

  lemma Constants()
    ensures Value(1) == 1 && Value(2) == 2 && Value(4) == 4 && Value(8) == 8 && Value(0xd1) == 209
  {
    ValueParts(1);
    Doubled(1);
    Doubled(2);
    Doubled(4);
    Fixed();
  }

  lemma Fixed()
    ensures Value(0xd1) == 209
  {
    ValueParts(0xd1);
    Doubled(0x34);
    Doubled(0x1a);
    Doubled(0xd);
    ValueParts(0xd);
    Doubled(3);
    ValueParts(3);
    ValueParts(1);
  }

  lemma FlagTests(flags: bv64)
    ensures flags & 1 != 0 <==> Has(Value(flags), VM_READ)
    ensures flags & 2 != 0 <==> Has(Value(flags), VM_WRITE)
    ensures flags & 4 != 0 <==> Has(Value(flags), VM_EXEC)
  {
    ValueParts(flags);
    assert flags & 1 != 0 <==> flags & 1 == 1;
    ShiftOne(flags);
    SecondBit(flags);
    ValueParts(flags >> 1);
    WriteBitTest(flags);
  }

  lemma SecondBit(flags: bv64)
    ensures flags & 2 != 0 <==> (flags >> 1) & 1 == 1
  {
  }

  lemma BitsApart(r: bv64, w: bv64, x: bv64)
    requires (r == 0 || r == 2) && (w == 0 || w == 4) && (x == 0 || x == 8)
    ensures 0xd1 & r == 0 && (0xd1 | r) & w == 0 && ((0xd1 | r) | w) & x == 0
  {
  }

  /** mk_pte turns the rights of an area into the permission bits of the model. */
  lemma ProtIsVmProt(flags: bv64)
    ensures Value(MkProt(flags)) == VmProt(Value(flags))
  {
    var r, w, x := Bit(flags, 1, 2), Bit(flags, 2, 4), Bit(flags, 4, 8);
    BitsApart(r, w, x);
    Disjoint(0xd1, r);
    Disjoint(0xd1 | r, w);
    Disjoint((0xd1 | r) | w, x);
    Constants();
    FlagTests(flags);
  }

  /** The page number of an address without its lower table indices. */
  lemma PageNumber(addr: bv64)
    ensures Value(addr >> 12) == Value(addr) / PAGE_SIZE
  {
    ShiftTwelve(addr);
  }

  lemma UpperPageNumber(addr: bv64)
    ensures Value(addr >> 21) == Value(addr) / PAGE_SIZE / WORDS
  {
    PageNumber(addr);
    ShiftNine(addr >> 12);
    assert (addr >> 12) >> 9 == addr >> 21;
  }

  lemma TopPageNumber(addr: bv64)
    ensures Value(addr >> 30) == Value(addr) / PAGE_SIZE / WORDS / WORDS
  {
    UpperPageNumber(addr);
    ShiftNine(addr >> 21);
    assert (addr >> 21) >> 9 == addr >> 30;
  }

  /** The table index of an address at level 0, 1 and 2 is the one the model uses for its page number. */
  lemma IndexZero(addr: bv64)
    ensures Value((addr >> 12) & 0x1ff) == Value(addr) / PAGE_SIZE % WORDS
  {
    PageNumber(addr);
    LowNine(addr >> 12);
  }

  lemma IndexOne(addr: bv64)
    ensures Value((addr >> 21) & 0x1ff) == Value(addr) / PAGE_SIZE / WORDS % WORDS
  {
    UpperPageNumber(addr);
    LowNine(addr >> 21);
  }

  lemma IndexTwo(addr: bv64)
    ensures Value((addr >> 30) & 0x1ff) == Value(addr) / PAGE_SIZE / WORDS / WORDS % WORDS
  {
    TopPageNumber(addr);
    LowNine(addr >> 30);
  }

  /** badaddr & ~(PAGE_SIZE - 1) */
  lemma PageOfAddress(addr: bv64)
    ensures Value(addr & !0xfff) == Value(addr) / PAGE_SIZE * PAGE_SIZE
  {
    RestTwelve(addr);
    MaskedTwelve(addr);
    ShiftTwelve(addr & !0xfff);
    ShiftTwelve(addr);
  }

  /** Page numbers below 2^27 with the same three indices are the same. */
  lemma SameIndices(v: nat, u: nat)
    requires v / WORDS / WORDS < WORDS && u / WORDS / WORDS < WORDS
    requires v % WORDS == u % WORDS && v / WORDS % WORDS == u / WORDS % WORDS
    requires v / WORDS / WORDS % WORDS == u / WORDS / WORDS % WORDS
    ensures v == u
  {
    assert v / WORDS == v / WORDS / WORDS * WORDS + v / WORDS % WORDS;
    assert u / WORDS == u / WORDS / WORDS * WORDS + u / WORDS % WORDS;
  }
}
