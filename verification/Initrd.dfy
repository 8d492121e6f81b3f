/** The walk of src/initrd.c over an archive and the lookup of a file in it. */
module Initrd {
  import opened Common
  import opened Cpio

  // --- the archive format

  /** A file; `front`, `middle` and `check` are the header fields which the walk does not read. */
  datatype Entry = Entry(name: seq<Byte>, data: seq<Byte>, front: seq<Byte>, middle: seq<Byte>, check: seq<Byte>)

  const MAGIC: seq<Byte> := [48, 55, 48, 55, 48, 49]

  function Zeros(n: nat): (s: seq<Byte>)
    ensures |s| == n && forall i :: 0 <= i < n ==> s[i] == 0
  {
    seq(n, _ => 0)
  }

  function Header(e: Entry): (s: seq<Byte>)
    requires |e.front| == 48 && |e.middle| == 32 && |e.check| == 8
    ensures |s| == HEADER
  {
    MAGIC + e.front + Hex(|e.data|, 8) + e.middle + Hex(|e.name| + 1, 8) + e.check
  }

  /** The name with its NUL, filled up so that header and name take a multiple of four bytes. */
  function NamePart(e: Entry): (s: seq<Byte>)
    ensures |s| == Up(HEADER + |e.name| + 1) - HEADER
  {
    e.name + Zeros(Up(HEADER + |e.name| + 1) - HEADER - |e.name|)
  }

  function DataPart(e: Entry): (s: seq<Byte>)
    ensures |s| == Up(|e.data|)
  {
    e.data + Zeros(Up(|e.data|) - |e.data|)
  }

  /** What can be written down in the format and is small enough for the walk: a name without NUL
      which does not look like the trailer, and sizes that `align` can round up. */
  predicate Fits(e: Entry) {
    && |e.front| == 48 && |e.middle| == 32 && |e.check| == 8
    && 0 !in e.name
    && !(TRAILER <= e.name)
    && Up(HEADER + |e.name| + 1) < INT_LIMIT
    && Up(|e.data|) < INT_LIMIT
  }

  predicate AllFit(es: seq<Entry>) {
    forall i :: 0 <= i < |es| ==> Fits(es[i])
  }

  function EncodeEntry(e: Entry): seq<Byte>
    requires |e.front| == 48 && |e.middle| == 32 && |e.check| == 8
  {
    Header(e) + (NamePart(e) + DataPart(e))
  }

  /** The entry that ends an archive. */
  function Trailer(): Entry {
    Entry(TRAILER, [], Zeros(48), Zeros(32), Zeros(8))
  }

  function Encode(es: seq<Entry>): seq<Byte>
    requires AllFit(es)
  {
    if es == [] then EncodeEntry(Trailer()) else EncodeEntry(es[0]) + Encode(es[1..])
  }

  ghost predicate Holds(mem: Memory, p: int, s: seq<Byte>) {
    Read(mem, p, |s|) == s
  }

  // --- what the walk computes

  ghost function NameSize(mem: Memory, p: int): int {
    Int32(HexValue(Read(mem, p + NAMESIZE, 8)))
  }

  ghost function FileSize(mem: Memory, p: int): int {
    Int32(HexValue(Read(mem, p + FILESIZE, 8)))
  }

  ghost function HeadSize(mem: Memory, p: int): int {
    Align(Int32(HEADER + NameSize(mem, p)), 4)
  }

  /** initrd_get_next_hdr; 0 is the null pointer. */
  ghost function NextHdr(mem: Memory, p: int): int {
    if Read(mem, p + HEADER, 10) == TRAILER then 0
    else p + HeadSize(mem, p) + Align(FileSize(mem, p), 4)
  }

  /** Memory holds the characters of s. */
  predicate Spells(mem: Memory, p: int, s: string) {
    forall i :: 0 <= i < |s| ==> mem(p + i) == s[i] as int
  }

  /** The trailer is told by these ten characters behind the header. */
  lemma TrailerSpelled(mem: Memory, p: int)
    ensures Read(mem, p, 10) == TRAILER <==> Spells(mem, p, "TRAILER!!!")
  {
    var r, s := Read(mem, p, 10), "TRAILER!!!";
    if Spells(mem, p, s) {
      forall i | 0 <= i < 10
        ensures r[i] == TRAILER[i]
      {
        assert mem(p + i) == s[i] as int;
      }
      assert r == TRAILER;
    } else {
      var i :| 0 <= i < |s| && mem(p + i) != s[i] as int;
      assert r[i] != TRAILER[i];
    }
  }

  lemma TrailerEnds(mem: Memory, p: int)
    requires Spells(mem, p + 110, "TRAILER!!!")
    ensures NextHdr(mem, p) == 0
  {
    TrailerSpelled(mem, p + 110);
  }

  /** The header has 6 + 13 * 8 bytes; the file's size stands behind six fields, the name's behind eleven,
      each in eight upper-case hexadecimal digits. */
  lemma HeaderLayout(mem: Memory, p: int, namesize: nat, filesize: nat)
    requires namesize < 0x1_0000_0000 && filesize < 0x1_0000_0000
    requires Read(mem, p + 6 + 6 * 8, 8) == Hex(filesize, 8) && Read(mem, p + 6 + 11 * 8, 8) == Hex(namesize, 8)
    requires !Spells(mem, p + 6 + 13 * 8, "TRAILER!!!")
    ensures NextHdr(mem, p) == p + Up(6 + 13 * 8 + namesize) + Up(filesize) <==>
            Up(6 + 13 * 8 + namesize) < 0x8000_0000 && Up(filesize) < 0x8000_0000
  {
    Pow16Of7();
    HexRoundTrip(namesize, 8);
    HexRoundTrip(filesize, 8);
    TrailerSpelled(mem, p + 110);
    NextHdrIsRight(mem, p, namesize, filesize);
  }

  /** The next header is found if and only if both sizes, rounded up, fit into an `int`. */
  lemma NextHdrIsRight(mem: Memory, p: int, namesize: nat, filesize: nat)
    requires HexValue(Read(mem, p + NAMESIZE, 8)) == namesize < INT_RANGE
    requires HexValue(Read(mem, p + FILESIZE, 8)) == filesize < INT_RANGE
    requires Read(mem, p + HEADER, 10) != TRAILER
    ensures NextHdr(mem, p) == p + Up(HEADER + namesize) + Up(filesize) <==>
            Up(HEADER + namesize) < INT_LIMIT && Up(filesize) < INT_LIMIT
    ensures Up(HEADER + namesize) < INT_LIMIT ==> HeadSize(mem, p) == Up(HEADER + namesize)
  {
    var k := Int32Wraps(namesize);
    Int32Same(HEADER + NameSize(mem, p), HEADER + namesize, -k);
    AlignWraps(HEADER + namesize);
    AlignIsUp(HEADER + namesize);
    AlignWraps(filesize);
    AlignIsUp(filesize);
  }

  // --- the fields of an encoded entry

  lemma HoldsSplit(mem: Memory, p: int, a: seq<Byte>, b: seq<Byte>)
    requires Holds(mem, p, a + b)
    ensures Holds(mem, p, a) && Holds(mem, p + |a|, b)
  {
    ReadSplit(mem, p, a, b);
  }

  lemma HeaderFields(mem: Memory, p: int, e: Entry)
    requires |e.front| == 48 && |e.middle| == 32 && |e.check| == 8
    requires Holds(mem, p, Header(e)) && |e.data| < INT_RANGE && |e.name| + 1 < INT_RANGE
    ensures HexValue(Read(mem, p + FILESIZE, 8)) == |e.data|
    ensures HexValue(Read(mem, p + NAMESIZE, 8)) == |e.name| + 1
  {
    var fsize, nsize := Hex(|e.data|, 8), Hex(|e.name| + 1, 8);
    Pow16Of7();
    HexRoundTrip(|e.data|, 8);
    HexRoundTrip(|e.name| + 1, 8);
    assert Header(e) == (MAGIC + e.front) + (fsize + (e.middle + (nsize + e.check)));
    HoldsSplit(mem, p, MAGIC + e.front, fsize + (e.middle + (nsize + e.check)));
    HoldsSplit(mem, p + FILESIZE, fsize, e.middle + (nsize + e.check));
    HoldsSplit(mem, p + FILESIZE + 8, e.middle, nsize + e.check);
    HoldsSplit(mem, p + NAMESIZE, nsize, e.check);
  }

  /** The ten bytes behind a header spell the trailer exactly if the name starts so. */
  lemma TrailerSeen(mem: Memory, p: int, e: Entry)
    requires Holds(mem, p, NamePart(e)) && 0 !in e.name
    ensures Read(mem, p, 10) == TRAILER <==> TRAILER <= e.name
  {
    var r, s := Read(mem, p, 10), NamePart(e);
    forall i | 0 <= i < 10 && i < |s|
      ensures r[i] == s[i]
    {
      assert Read(mem, p, |s|)[i] == s[i];
    }
    if |e.name| < 10 {
      assert r[|e.name|] == s[|e.name|] == 0;
    } else {
      assert r == e.name[..10];
    }
  }

  /** From the header of an encoded entry the walk reads its sizes and comes to the header behind
      it. */
  lemma EntryIsRead(mem: Memory, p: int, e: Entry)
    requires Fits(e) && Holds(mem, p, EncodeEntry(e))
    ensures NextHdr(mem, p) == p + |EncodeEntry(e)|
    ensures NameSize(mem, p) == |e.name| + 1 && FileSize(mem, p) == |e.data|
    ensures HeadSize(mem, p) == HEADER + |NamePart(e)|
    ensures Holds(mem, p + HEADER, NamePart(e)) && Holds(mem, p + HEADER + |NamePart(e)|, DataPart(e))
  {
    HoldsSplit(mem, p, Header(e), NamePart(e) + DataPart(e));
    HoldsSplit(mem, p + HEADER, NamePart(e), DataPart(e));
    HeaderFields(mem, p, e);
    TrailerSeen(mem, p + HEADER, e);
    NextHdrIsRight(mem, p, |e.name| + 1, |e.data|);
    Int32Small(|e.name| + 1);
    Int32Small(|e.data|);
  }

  lemma TrailerIsSeen(mem: Memory, p: int)
    requires Holds(mem, p, EncodeEntry(Trailer()))
    ensures NextHdr(mem, p) == 0
  {
    var t := Trailer();
    HoldsSplit(mem, p, Header(t), NamePart(t) + DataPart(t));
    HoldsSplit(mem, p + HEADER, NamePart(t), DataPart(t));
    TrailerSeen(mem, p + HEADER, t);
  }

  lemma EncodeSplit(mem: Memory, p: int, es: seq<Entry>)
    requires es != [] && AllFit(es) && Holds(mem, p, Encode(es))
    ensures Holds(mem, p, EncodeEntry(es[0])) && Holds(mem, p + |EncodeEntry(es[0])|, Encode(es[1..]))
  {
    HoldsSplit(mem, p, EncodeEntry(es[0]), Encode(es[1..]));
  }

  /** Where the header of the i-th entry is. */
  ghost function Offset(es: seq<Entry>, i: nat): nat
    requires i <= |es| && AllFit(es)
  {
    if i == 0 then 0 else |EncodeEntry(es[0])| + Offset(es[1..], i - 1)
  }

  lemma OffsetStep(es: seq<Entry>, i: nat)
    requires 0 < i <= |es| && AllFit(es)
    ensures AllFit(es[1..]) && Offset(es, i) == |EncodeEntry(es[0])| + Offset(es[1..], i - 1)
    ensures i < |es| ==> Offset(es, i + 1) == |EncodeEntry(es[0])| + Offset(es[1..], i)
  {
  }

  /** The walk visits exactly the entries of an archive, in order, and stops at its trailer. */
  lemma {:induction false} WalkVisitsEntries(mem: Memory, p: int, es: seq<Entry>, i: nat)
    requires AllFit(es) && i <= |es| && Holds(mem, p, Encode(es))
    ensures i < |es| ==> Holds(mem, p + Offset(es, i), EncodeEntry(es[i]))
    ensures i < |es| ==> NextHdr(mem, p + Offset(es, i)) == p + Offset(es, i + 1)
    ensures i == |es| ==> NextHdr(mem, p + Offset(es, i)) == 0
    decreases |es|
  {
    if es == [] {
      TrailerIsSeen(mem, p);
    } else {
      EncodeSplit(mem, p, es);
      if i == 0 {
        EntryIsRead(mem, p, es[0]);
        assert Offset(es, 1) == |EncodeEntry(es[0])| + Offset(es[1..], 0);
      } else {
        WalkVisitsEntries(mem, p + |EncodeEntry(es[0])|, es[1..], i - 1);
        OffsetStep(es, i);
      }
    }
  }

  // --- string.c

  /** Where two byte strings first differ, if at all. */
  ghost predicate DifferAt(mem: Memory, p: int, t: seq<Byte>, k: nat) {
    k < |t| && mem(p + k) != t[k] && Read(mem, p, k) == t[..k]
  }

  /** memcmp of memory with a string which it must not read past the end of. */
  method MemCmp(mem: Memory, p: int, t: seq<Byte>, n: int, ghost stop: nat) returns (r: int)
    requires n <= |t| || DifferAt(mem, p, t, stop)
    ensures r == 0 <==> n <= 0 || (n <= |t| && Read(mem, p, n) == t[..n])
    ensures forall k: nat :: DifferAt(mem, p, t, k) && k < n ==> r == mem(p + k) - t[k]
  {
    var i := 0;
    while i < n
      invariant 0 <= i && (0 <= n ==> i <= n) && i <= |t| && Read(mem, p, i) == t[..i]
    {
      if mem(p + i) != t[i] {
        return mem(p + i) - t[i];
      }
      i := i + 1;
    }
    return 0;
  }

  /** A string up to its NUL. */
  ghost function CString(s: seq<Byte>): (r: seq<Byte>)
    ensures |r| <= |s| && r == s[..|r|] && 0 !in r
    ensures |r| < |s| ==> s[|r|] == 0
  {
    if s == [] || s[0] == 0 then [] else [s[0]] + CString(s[1..])
  }

  lemma {:induction false} CStringIs(s: seq<Byte>, k: nat)
    requires k <= |s| && 0 !in s[..k] && (k < |s| ==> s[k] == 0)
    ensures CString(s) == s[..k]
  {
    if k > 0 {
      assert s[0] == s[..k][0];
      assert s[1..][..k - 1] == s[..k][1..];
      CStringIs(s[1..], k - 1);
    }
  }

  /** strncpy of this repository: it stops behind a NUL and fills nothing up. */
  method StrNCpy(dst: array<Byte>, mem: Memory, src: int, n: nat)
    requires n <= dst.Length
    modifies dst
    ensures CString(dst[..n]) == CString(Read(mem, src, n))
    ensures forall i :: n <= i < dst.Length ==> dst[i] == old(dst[i])
  {
    var i := 0;
    while i < n
      invariant 0 <= i <= n && dst[..i] == Read(mem, src, i) && 0 !in dst[..i]
      invariant forall i :: n <= i < dst.Length ==> dst[i] == old(dst[i])
    {
      dst[i] := mem(src + i);
      if dst[i] == 0 {
        break;
      }
      i := i + 1;
    }
    assert Read(mem, src, n)[..i] == Read(mem, src, i) == dst[..n][..i];
    CStringIs(dst[..n], i);
    CStringIs(Read(mem, src, n), i);
  }

  // --- initrd.c

  method InitrdGetNextHdr(mem: Memory, p: int) returns (next: int)
    ensures next == NextHdr(mem, p)
    ensures Spells(mem, p + 110, "TRAILER!!!") ==> next == 0
  {
    TrailerSpelled(mem, p + 110);
    var differ := MemCmp(mem, p + HEADER, TRAILER, 10, 0);
    assert TRAILER[..10] == TRAILER;
    if differ == 0 {
      return 0;
    }
    var namesize := HexToI(mem, p + NAMESIZE, 8);
    var filesize := HexToI(mem, p + FILESIZE, 8);
    var headsize := Align(Int32(HEADER + namesize), 4);
    var datasize := Align(filesize, 4);
    return p + headsize + datasize;
  }

  /** The name of an entry and its NUL. */
  ghost function Pathname(e: Entry): seq<Byte> {
    e.name + [0]
  }

  lemma NameIsRead(mem: Memory, p: int, e: Entry)
    requires Holds(mem, p, NamePart(e)) && 0 !in e.name
    ensures Read(mem, p, |e.name| + 1) == Pathname(e) && CString(Pathname(e)) == e.name
  {
    var z := Zeros(|NamePart(e)| - |e.name| - 1);
    assert NamePart(e) == Pathname(e) + z;
    HoldsSplit(mem, p, Pathname(e), z);
    CStringIs(Pathname(e), |e.name|);
  }

  /** One step of the walk, at a header or at the trailer. */
  lemma AtHeader(mem: Memory, p: int, es: seq<Entry>) returns (next: int)
    requires p > 0 && AllFit(es) && Holds(mem, p, Encode(es))
    ensures next == NextHdr(mem, p) && (next == 0 <==> es == [])
    ensures es != [] ==> next > 0 && Holds(mem, p, EncodeEntry(es[0])) && Holds(mem, next, Encode(es[1..]))
  {
    if es == [] {
      TrailerIsSeen(mem, p);
      next := 0;
    } else {
      EncodeSplit(mem, p, es);
      EntryIsRead(mem, p, es[0]);
      next := p + |EncodeEntry(es[0])|;
    }
  }

  ghost function Names(es: seq<Entry>): seq<seq<Byte>> {
    if es == [] then [] else [es[0].name] + Names(es[1..])
  }

  lemma {:induction false} NamesAt(es: seq<Entry>)
    ensures |Names(es)| == |es| && forall i :: 0 <= i < |es| ==> Names(es)[i] == es[i].name
  {
    if es != [] {
      NamesAt(es[1..]);
    }
  }

  /** initrd_list: the lines printed are the names, in order. */
  method InitrdList(mem: Memory, base: int, ghost es: seq<Entry>) returns (lines: seq<seq<Byte>>)
    requires base > 0 && AllFit(es) && Holds(mem, base, Encode(es))
    ensures lines == Names(es)
    ensures |lines| == |es| && forall i :: 0 <= i < |es| ==> lines[i] == es[i].name
  {
    NamesAt(es);
    lines := [];
    var ptr := base;
    ghost var rest := es;
    ghost var first := AtHeader(mem, ptr, rest);
    var next := InitrdGetNextHdr(mem, ptr);
    while next != 0
      invariant ptr > 0 && AllFit(rest) && Holds(mem, ptr, Encode(rest)) && next == NextHdr(mem, ptr)
      invariant next == 0 <==> rest == []
      invariant lines + Names(rest) == Names(es)
      decreases |rest|
    {
      ghost var behind := AtHeader(mem, ptr, rest);
      var line := ListEntry(mem, ptr, rest[0]);
      lines := lines + [line];
      ptr := InitrdGetNextHdr(mem, ptr);
      rest := rest[1..];
      behind := AtHeader(mem, ptr, rest);
      next := InitrdGetNextHdr(mem, ptr);
    }
  }

  /** The body of the loop of initrd_list. */
  method ListEntry(mem: Memory, ptr: int, ghost e: Entry) returns (line: seq<Byte>)
    requires Fits(e) && Holds(mem, ptr, EncodeEntry(e))
    ensures line == e.name
  {
    EntryIsRead(mem, ptr, e);
    NameIsRead(mem, ptr + HEADER, e);
    var namesize := HexToI(mem, ptr + NAMESIZE, 8);
    var pathname := new Byte[namesize];
    StrNCpy(pathname, mem, ptr + HEADER, namesize);
    assert pathname[..] == pathname[..namesize];
    line := Print(pathname);
  }

  /** printk("%s"): the characters up to the NUL. */
  method Print(s: array<Byte>) returns (line: seq<Byte>)
    requires 0 in s[..]
    ensures line == CString(s[..])
  {
    var i := 0;
    while s[i] != 0
      invariant 0 <= i < s.Length && 0 !in s[..i]
      decreases s.Length - i
    {
      i := i + 1;
    }
    CStringIs(s[..], i);
    return s[..i];
  }

  // --- initrd_cat

  /** What initrd_cat prints: nothing, that there is no such file, or a text. */
  datatype Output = Silent | NotFound | Contents(text: seq<Byte>)

  /** The data, up to its first NUL, of the first entry of that name. */
  ghost function Lookup(es: seq<Entry>, name: seq<Byte>): Output {
    if es == [] then NotFound
    else if es[0].name == name then Contents(CString(es[0].data))
    else Lookup(es[1..], name)
  }

  /** Entry i is the first of that name. */
  predicate FirstNamed(es: seq<Entry>, name: seq<Byte>, i: nat) {
    i < |es| && es[i].name == name && forall j :: 0 <= j < i ==> es[j].name != name
  }

  lemma {:induction false} LookupFinds(es: seq<Entry>, name: seq<Byte>)
    ensures Lookup(es, name) != Silent
    ensures Lookup(es, name) == NotFound <==> forall i :: 0 <= i < |es| ==> es[i].name != name
    ensures forall i: nat :: FirstNamed(es, name, i) ==> Lookup(es, name) == Contents(CString(es[i].data))
  {
    if es != [] {
      LookupFinds(es[1..], name);
      if es[0].name != name {
        forall i: nat | FirstNamed(es, name, i)
          ensures Lookup(es, name) == Contents(CString(es[i].data))
        {
          assert es[1..][i - 1] == es[i];
          assert FirstNamed(es[1..], name, i - 1);
        }
      }
    }
  }

  /** A string that ends with its only NUL. */
  ghost predicate Terminated(t: seq<Byte>) {
    t != [] && t[|t| - 1] == 0 && 0 !in t[..|t| - 1]
  }

  lemma {:induction false} FirstDifference(mem: Memory, p: int, t: seq<Byte>, n: nat) returns (k: nat)
    requires n <= |t| && Read(mem, p, n) != t[..n]
    ensures k < n && DifferAt(mem, p, t, k)
  {
    assert n > 0;
    if Read(mem, p, n - 1) != t[..n - 1] {
      k := FirstDifference(mem, p, t, n - 1);
    } else {
      k := n - 1;
      assert t[..n] == t[..n - 1] + [t[n - 1]];
      assert Read(mem, p, n) == Read(mem, p, n - 1) + [mem(p + n - 1)];
    }
  }

  /** Comparing a name and its NUL with a string stops at the end of the string at the latest, and
      finds them equal only if they are. */
  lemma CompareStops(mem: Memory, p: int, a: seq<Byte>, t: seq<Byte>) returns (stop: nat)
    requires Terminated(a) && Terminated(t) && Read(mem, p, |a|) == a
    ensures |a| <= |t| || DifferAt(mem, p, t, stop)
    ensures |a| <= |t| && a == t[..|a|] <==> a == t
  {
    stop := 0;
    if |a| > |t| {
      assert Read(mem, p, |t|) == a[..|t|];
      assert a[..|t|][|t| - 1] == a[..|a| - 1][|t| - 1];
      stop := FirstDifference(mem, p, t, |t|);
    } else if |a| < |t| {
      assert t[..|t| - 1][|a| - 1] == t[..|a|][|a| - 1];
    }
  }

  method InitrdCat(mem: Memory, base: int, target: Option<seq<Byte>>, ghost es: seq<Entry>) returns (out: Output)
    requires base > 0 && AllFit(es) && Holds(mem, base, Encode(es))
    requires target.Some? ==> Terminated(target.value)
    ensures target.None? ==> out == Silent
    ensures target.Some? ==> out == Lookup(es, CString(target.value))
    ensures target.Some? ==>
              (out == NotFound <==> forall i :: 0 <= i < |es| ==> es[i].name != CString(target.value))
    ensures target.Some? ==>
              forall i: nat :: FirstNamed(es, CString(target.value), i) ==> out == Contents(CString(es[i].data))
  {
    if target.None? {
      return Silent;
    }
    out := CatFrom(mem, base, target.value, es);
    LookupFinds(es, CString(target.value));
  }

  /** The loop of initrd_cat. */
  method CatFrom(mem: Memory, base: int, t: seq<Byte>, ghost es: seq<Entry>) returns (out: Output)
    requires base > 0 && AllFit(es) && Holds(mem, base, Encode(es)) && Terminated(t)
    ensures out == Lookup(es, CString(t))
  {
    var ptr := base;
    ghost var rest := es;
    ghost var first := AtHeader(mem, ptr, rest);
    var next := InitrdGetNextHdr(mem, ptr);
    while next != 0
      invariant ptr > 0 && AllFit(rest) && Holds(mem, ptr, Encode(rest)) && next == NextHdr(mem, ptr)
      invariant next == 0 <==> rest == []
      invariant Lookup(rest, CString(t)) == Lookup(es, CString(t))
      decreases |rest|
    {
      ghost var behind := AtHeader(mem, ptr, rest);
      var found, text := TryEntry(mem, ptr, t, rest[0]);
      if found {
        return Contents(text);
      }
      ptr := InitrdGetNextHdr(mem, ptr);
      rest := rest[1..];
      behind := AtHeader(mem, ptr, rest);
      next := InitrdGetNextHdr(mem, ptr);
    }
    return NotFound;
  }

  lemma DataIsRead(mem: Memory, p: int, e: Entry)
    requires Holds(mem, p, DataPart(e))
    ensures Read(mem, p, |e.data|) == e.data
  {
    HoldsSplit(mem, p, e.data, Zeros(Up(|e.data|) - |e.data|));
  }

  lemma CStringOfBuffer(s: seq<Byte>, n: nat)
    requires n < |s| && s[n] == 0
    ensures CString(s) == CString(s[..n])
  {
    var k := |CString(s[..n])|;
    assert s[..n][..k] == s[..k];
    CStringIs(s, k);
  }

  /** What memcmp finds out about the name of an entry. */
  lemma NameCompared(mem: Memory, p: int, e: Entry, t: seq<Byte>) returns (stop: nat)
    requires Holds(mem, p, NamePart(e)) && 0 !in e.name && Terminated(t)
    ensures var n := |e.name| + 1;
            && (n <= |t| || DifferAt(mem, p, t, stop))
            && (n <= |t| && Read(mem, p, n) == t[..n] <==> e.name == CString(t))
  {
    var a := Pathname(e);
    NameIsRead(mem, p, e);
    CStringIs(t, |t| - 1);
    assert a[..|e.name|] == e.name;
    stop := CompareStops(mem, p, a, t);
    assert t == t[..|t| - 1] + [0];
  }

  /** The body of the loop of initrd_cat. */
  method TryEntry(mem: Memory, ptr: int, t: seq<Byte>, ghost e: Entry) returns (found: bool, text: seq<Byte>)
    requires Fits(e) && Holds(mem, ptr, EncodeEntry(e)) && Terminated(t)
    ensures found <==> e.name == CString(t)
    ensures found ==> text == CString(e.data)
  {
    var namesize, filesize, headsize := EntrySizes(mem, ptr, e);
    var same := SameName(mem, ptr + HEADER, t, namesize, e);
    if !same {
      return false, [];
    }
    text := PrintData(mem, ptr + headsize, filesize, e);
    return true, text;
  }

  method EntrySizes(mem: Memory, ptr: int, ghost e: Entry) returns (namesize: int, filesize: int, headsize: int)
    requires Fits(e) && Holds(mem, ptr, EncodeEntry(e))
    ensures namesize == |e.name| + 1 && filesize == |e.data| && headsize == HEADER + |NamePart(e)|
    ensures Holds(mem, ptr + HEADER, NamePart(e)) && Holds(mem, ptr + headsize, DataPart(e))
  {
    EntryIsRead(mem, ptr, e);
    namesize := HexToI(mem, ptr + NAMESIZE, 8);
    filesize := HexToI(mem, ptr + FILESIZE, 8);
    headsize := Align(Int32(HEADER + namesize), 4);
    assert headsize == HeadSize(mem, ptr);
  }

  /** !memcmp(name, target, namesize) */
  method SameName(mem: Memory, p: int, t: seq<Byte>, namesize: int, ghost e: Entry) returns (same: bool)
    requires Holds(mem, p, NamePart(e)) && 0 !in e.name && Terminated(t) && namesize == |e.name| + 1
    ensures same <==> e.name == CString(t)
  {
    ghost var stop := NameCompared(mem, p, e, t);
    var differ := MemCmp(mem, p, t, namesize, stop);
    same := differ == 0;
  }

  method PrintData(mem: Memory, src: int, filesize: int, ghost e: Entry) returns (text: seq<Byte>)
    requires Holds(mem, src, DataPart(e)) && filesize == |e.data|
    ensures text == CString(e.data)
  {
    var data := new Byte[filesize + 1](_ => 0);
    StrNCpy(data, mem, src, filesize);
    DataIsRead(mem, src, e);
    CStringOfBuffer(data[..], filesize);
    assert data[..][..filesize] == data[..filesize];
    text := Print(data);
  }
}
