/** The initial ramdisk: the cpio "newc" walk of src/initrd.c on the arithmetic of src/utils.c and
    the string functions of src/string.c, against an encoder of the format.

    Memory is a total function from addresses to bytes, as the code reads it without bounds. */
module Cpio {
  type Byte = x: int | 0 <= x < 256

  type Memory = int -> Byte

  /** struct cpio_t */
  const HEADER := 110
  const FILESIZE := 54
  const NAMESIZE := 94

  const TRAILER: seq<Byte> := [84, 82, 65, 73, 76, 69, 82, 33, 33, 33]

  ghost function Read(mem: Memory, p: int, n: nat): (r: seq<Byte>)
    ensures |r| == n && forall i :: 0 <= i < n ==> r[i] == mem(p + i)
  {
    seq(n, i requires 0 <= i < n => mem(p + i))
  }

  lemma ReadSplit(mem: Memory, p: int, a: seq<Byte>, b: seq<Byte>)
    requires Read(mem, p, |a + b|) == a + b
    ensures Read(mem, p, |a|) == a && Read(mem, p + |a|, |b|) == b
  {
    var r := Read(mem, p, |a + b|);
    forall i | 0 <= i < |a|
      ensures mem(p + i) == a[i]
    {
      assert r[i] == (a + b)[i];
    }
    forall i | 0 <= i < |b|
      ensures mem(p + |a| + i) == b[i]
    {
      assert r[|a| + i] == (a + b)[|a| + i];
    }
  }

  // --- 32-bit integers

  const INT_RANGE := 0x1_0000_0000
  const INT_LIMIT := 0x8000_0000

  /** What an `int` keeps of a number. */
  function Int32(x: int): (r: int)
    ensures -INT_LIMIT <= r < INT_LIMIT
  {
    var r := x % INT_RANGE;
    if r < INT_LIMIT then r else r - INT_RANGE
  }

  lemma Int32Wraps(x: int) returns (k: int)
    ensures x == Int32(x) + k * INT_RANGE
  {
    k := x / INT_RANGE + if x % INT_RANGE < INT_LIMIT then 0 else 1;
  }

  lemma Int32Same(x: int, y: int, k: int)
    requires x == y + k * INT_RANGE
    ensures Int32(x) == Int32(y)
  {
    assert x % INT_RANGE == y % INT_RANGE;
  }

  // --- utils.c

  /** The value hextoi gives a character: right for decimal digits and upper-case letters. */
  function Digit(b: Byte): int {
    if b >= 65 then b - 65 + 10 else b - 48
  }

  ghost function HexValue(s: seq<Byte>): int {
    if s == [] then 0 else HexValue(s[..|s| - 1]) * 16 + Digit(s[|s| - 1])
  }

  lemma HexStep(x: int, d: int)
    ensures Int32(Int32(Int32(x) * 16) + d) == Int32(x * 16 + d)
  {
    var j := Int32Wraps(x);
    var k := Int32Wraps(Int32(x) * 16);
    Int32Same(x * 16 + d, Int32(Int32(x) * 16) + d, j * 16 + k);
  }

  method HexToI(mem: Memory, s: int, n: nat) returns (r: int)
    ensures r == Int32(HexValue(Read(mem, s, n)))
  {
    r := 0;
    var k := 0;
    while k < n
      invariant 0 <= k <= n && r == Int32(HexValue(Read(mem, s, k)))
    {
      assert Read(mem, s, k + 1)[..k] == Read(mem, s, k);
      HexStep(HexValue(Read(mem, s, k)), Digit(mem(s + k)));
      r := Int32(r * 16);
      if mem(s + k) >= 65 {
        r := Int32(r + mem(s + k) - 65 + 10);
      } else {
        r := Int32(r + mem(s + k) - 48);
      }
      k := k + 1;
    }
  }

  /** For a power of two the mask of `align` rounds down to a multiple. */
  function Align(n: int, byte: int): int
    requires byte > 0
  {
    var m := Int32(n + byte - 1);
    m - m % byte
  }

  function Up(n: nat): (m: nat)
    ensures n <= m < n + 4 && m % 4 == 0
  {
    (n + 3) / 4 * 4
  }

  lemma Mod4(m: int, t: int)
    ensures (m + 4 * t) % 4 == m % 4
  {
    assert m + 4 * t == 4 * (m / 4 + t) + m % 4;
  }

  lemma UpIs(n: nat)
    ensures Up(n) == n + 3 - (n + 3) % 4
  {
  }

  lemma Int32Small(x: int)
    requires -INT_LIMIT <= x < INT_LIMIT
    ensures Int32(x) == x
  {
  }

  /** `align` rounds up to a multiple of four, as far as an `int` can hold it. */
  lemma AlignWraps(n: nat)
    ensures Align(n, 4) == Int32(Up(n)) && Align(Int32(n), 4) == Align(n, 4)
  {
    var j := Int32Wraps(n);
    var k := Int32Wraps(n + 3);
    Int32Same(Int32(n) + 3, n + 3, -j);
    var m := Int32(n + 3);
    Mod4(m, k * 0x4000_0000);
    UpIs(n);
    Int32Same(Up(n), m - m % 4, k);
    Int32Small(m - m % 4);
  }

  lemma AlignIsUp(n: nat)
    ensures Align(n, 4) == Up(n) <==> Up(n) < INT_LIMIT
    ensures Align(n, 4) <= Up(n)
  {
    AlignWraps(n);
    if Up(n) < INT_LIMIT {
      Int32Small(Up(n));
    }
  }

  /** The largest size an int holds is not rounded up. */
  lemma AlignFails()
    ensures Align(0x7fff_ffff, 4) != Up(0x7fff_ffff)
  {
    AlignIsUp(0x7fff_ffff);
  }

  // --- hexadecimal digits

  function Pow16(n: nat): (r: int)
    ensures r > 0
  {
    if n == 0 then 1 else 16 * Pow16(n - 1)
  }

  function HexDigit(d: int): Byte
    requires 0 <= d < 16
  {
    if d < 10 then 48 + d else 55 + d
  }

  /** What printf writes for %0nX. */
  function Hex(v: nat, n: nat): (s: seq<Byte>)
    ensures |s| == n
  {
    if n == 0 then [] else Hex(v / 16, n - 1) + [HexDigit(v % 16)]
  }

  /** Upper-case digits are read back. */
  lemma {:induction false} HexRoundTrip(v: nat, n: nat)
    requires v < Pow16(n)
    ensures HexValue(Hex(v, n)) == v
  {
    if n > 0 {
      HexRoundTrip(v / 16, n - 1);
      assert Hex(v, n)[..n - 1] == Hex(v / 16, n - 1);
    }
  }

  /** "01A0F9" */
  lemma HexText(s: seq<Byte>)
    requires s == [48, 49, 65, 48, 70, 57]
    ensures HexValue(s) == 0x1A0F9
  {
    assert s == [] + [48] + [49] + [65] + [48] + [70] + [57];
    HexDigits([], 48);
    HexDigits([] + [48], 49);
    HexDigits([] + [48] + [49], 65);
    HexDigits([] + [48] + [49] + [65], 48);
    HexDigits([] + [48] + [49] + [65] + [48], 70);
    HexDigits([] + [48] + [49] + [65] + [48] + [70], 57);
  }

  lemma HexDigits(s: seq<Byte>, b: Byte)
    ensures HexValue(s + [b]) == 16 * HexValue(s) + Digit(b)
  {
    assert (s + [b])[..|s|] == s;
  }

  function LowerDigit(d: int): Byte
    requires 0 <= d < 16
  {
    if d < 10 then 48 + d else 87 + d
  }

  /** What printf writes for %0nx. */
  function LowerHex(v: nat, n: nat): (s: seq<Byte>)
    ensures |s| == n
  {
    if n == 0 then [] else LowerHex(v / 16, n - 1) + [LowerDigit(v % 16)]
  }

  lemma {:induction false} LowerHexExcess(v: nat, n: nat)
    requires n > 0 && v < 8 * Pow16(n - 1)
    ensures 0 <= 15 * (HexValue(LowerHex(v, n)) - v) <= 32 * (Pow16(n - 1) - 1)
    ensures HexValue(LowerHex(v, n)) == v <==> LowerHex(v, n) == Hex(v, n)
  {
    HexRoundTrip(v, n);
    assert LowerHex(v, n)[..n - 1] == LowerHex(v / 16, n - 1);
    assert Hex(v, n)[..n - 1] == Hex(v / 16, n - 1);
    if n == 1 {
      assert LowerHex(v, 1) == [LowerDigit(v)];
      assert Hex(v, 1) == [HexDigit(v)];
    } else {
      LowerHexExcess(v / 16, n - 1);
    }
  }

  lemma Pow16Of7()
    ensures 8 * Pow16(7) == INT_LIMIT && Pow16(8) == INT_RANGE
  {
    assert Pow16(4) == 0x1_0000;
  }

  /** Lower-case digits are not: a size is read back if and only if it is written without letters. */
  lemma LowerHexRoundTrip(v: nat)
    requires v < INT_LIMIT
    ensures Int32(HexValue(LowerHex(v, 8))) == v <==> LowerHex(v, 8) == Hex(v, 8)
  {
    Pow16Of7();
    LowerHexExcess(v, 8);
    ExcessShows(HexValue(LowerHex(v, 8)), v);
  }

  /** A number less than 2^31 too large is not cut back to the right one. */
  lemma ExcessShows(x: int, v: nat)
    requires v < INT_LIMIT && v <= x && x - v < INT_LIMIT
    ensures Int32(x) == v <==> x == v
  {
    var k := Int32Wraps(x);
    if x == v {
      Int32Small(v);
    }
  }

  /** Ten bytes written as "0000000a" are not read back. */
  lemma LowerHexFails()
    ensures Int32(HexValue(LowerHex(10, 8))) != 10
  {
    LowerHexRoundTrip(10);
    assert LowerHex(10, 8)[7] != Hex(10, 8)[7];
  }
}
