/** Bytes and fixed-width little-endian words, shared by both wire formats. */
module Bytes {

  type byte = x: int | 0 <= x < 256

  const U64_LIMIT: nat := 0x1_0000_0000_0000_0000
  const I64_LIMIT: nat := 0x8000_0000_0000_0000
  const U32_LIMIT: nat := 0x1_0000_0000

  type uint64 = x: int | 0 <= x < 0x1_0000_0000_0000_0000
  type uint32 = x: int | 0 <= x < 0x1_0000_0000
  type int32 = x: int | -0x8000_0000 <= x < 0x8000_0000
  type int64 = x: int | -0x8000_0000_0000_0000 <= x < 0x8000_0000_0000_0000

  /** 256 to the power n: the number of values that n bytes can hold. */
  function Range(n: nat): (r: nat)
    ensures r > 0
  {
    if n == 0 then 1 else 256 * Range(n - 1)
  }

  /** The n low-order bytes of v, least significant first. */
  function ToLE(v: nat, n: nat): (s: seq<byte>)
    ensures |s| == n
  {
    if n == 0 then [] else [v % 256] + ToLE(v / 256, n - 1)
  }

  function FromLE(s: seq<byte>): nat {
    if s == [] then 0 else s[0] + 256 * FromLE(s[1..])
  }

  lemma {:induction false} LERoundTrip(v: nat, n: nat)
    requires v < Range(n)
    ensures FromLE(ToLE(v, n)) == v
  {
    if n > 0 {
      LERoundTrip(v / 256, n - 1);
      assert ToLE(v, n)[1..] == ToLE(v / 256, n - 1);
    }
  }

  lemma {:induction false} LEBound(s: seq<byte>)
    ensures FromLE(s) < Range(|s|)
  {
    if s != [] {
      LEBound(s[1..]);
    }
  }

  lemma Ranges()
    ensures Range(4) == U32_LIMIT && Range(8) == U64_LIMIT
  {
    assert Range(4) == U32_LIMIT;
    assert Range(8) == 256 * 256 * 256 * 256 * Range(4);
  }

  /** The 32-bit word stored in the four bytes that start at off. */
  function Half(s: seq<byte>, off: nat): uint32
    requires off + 4 <= |s|
  {
    var a: int, b: int, c: int, d: int := s[off], s[off + 1], s[off + 2], s[off + 3];
    a + 0x100 * b + 0x1_0000 * c + 0x100_0000 * d
  }

  lemma HalfIsLE(s: seq<byte>)
    requires |s| >= 4
    ensures FromLE(s) == Half(s, 0) + U32_LIMIT * FromLE(s[4..])
  {
    var s1, s2, s3, s4 := s[1..], s[2..], s[3..], s[4..];
    assert s3[1..] == s4 && FromLE(s3) == s[3] + 256 * FromLE(s4);
    assert s2[1..] == s3 && FromLE(s2) == s[2] + 256 * FromLE(s3);
    assert s1[1..] == s2 && FromLE(s1) == s[1] + 256 * FromLE(s2);
  }

  /** The 64-bit word stored in the eight bytes that start at off. */
  function Word(s: seq<byte>, off: nat): uint64
    requires off + 8 <= |s|
  {
    Half(s, off) + U32_LIMIT * Half(s, off + 4)
  }

  lemma WordIsLE(s: seq<byte>)
    requires |s| == 8
    ensures Word(s, 0) == FromLE(s)
  {
    HalfIsLE(s);
    HalfIsLE(s[4..]);
  }

  /** A word depends on its eight bytes only. */
  lemma WordKept(a: seq<byte>, i: nat, b: seq<byte>, j: nat)
    requires i + 8 <= |a| && j + 8 <= |b|
    requires a[i..i + 8] == b[j..j + 8]
    ensures Word(a, i) == Word(b, j)
  {
    var x, y := a[i..i + 8], b[j..j + 8];
    assert Word(a, i) == Word(x, 0) && Word(b, j) == Word(y, 0);
  }

  lemma WordSlice(b: seq<byte>, lo: nat, hi: nat, off: nat)
    requires lo + off + 8 <= hi <= |b|
    ensures Word(b[lo..hi], off) == Word(b, lo + off)
  {
  }

  lemma WordOfLE(w: uint64)
    ensures Word(ToLE(w, 8), 0) == w
  {
    WordIsLE(ToLE(w, 8));
    Ranges();
    LERoundTrip(w, 8);
  }

  /** Two's complement: a signed value as an unsigned word, and back. */
  function Unsigned(n: int64): (w: uint64)
    ensures Signed(w) == n
  {
    if n < 0 then n + U64_LIMIT else n
  }

  function Signed(w: uint64): int64 {
    if w < I64_LIMIT then w else w - U64_LIMIT
  }

  /** Bytes outside [lo, hi) are as they were. */
  ghost predicate OnlyWithin(before: seq<byte>, after: seq<byte>, lo: nat, hi: nat) {
    && |before| == |after|
    && forall j :: 0 <= j < |before| && (j < lo || hi <= j) ==> after[j] == before[j]
  }

  /** A second change within or after the first. */
  lemma WithinBoth(a: seq<byte>, b: seq<byte>, c: seq<byte>, lo: nat, mid: nat, hi: nat)
    requires lo <= mid <= hi && OnlyWithin(a, b, lo, mid) && OnlyWithin(b, c, mid, hi)
    ensures OnlyWithin(a, c, lo, hi)
  {
  }

  lemma WithinNothing(a: seq<byte>, lo: nat)
    ensures OnlyWithin(a, a, lo, lo)
  {
  }

  lemma WordFramed(before: seq<byte>, after: seq<byte>, lo: nat, hi: nat, off: nat)
    requires OnlyWithin(before, after, lo, hi)
    requires off + 8 <= |before| && (off + 8 <= lo || hi <= off)
    ensures Word(after, off) == Word(before, off)
  {
  }

  /** memcpy into a buffer. */
  method Store(buf: array<byte>, off: nat, piece: seq<byte>)
    requires off + |piece| <= buf.Length
    modifies buf
    ensures OnlyWithin(old(buf[..]), buf[..], off, off + |piece|)
    ensures forall i :: 0 <= i < |piece| ==> buf[off + i] == piece[i]
  {
    forall i | 0 <= i < |piece| {
      buf[off + i] := piece[i];
    }
  }

  method LoadWord(buf: array<byte>, off: nat) returns (w: uint64)
    requires off + 8 <= buf.Length
    ensures w == Word(buf[..], off)
  {
    w := Word(buf[off..off + 8], 0);
    WordSlice(buf[..], off, off + 8, 0);
  }

  method StoreWord(buf: array<byte>, off: nat, w: uint64)
    requires off + 8 <= buf.Length
    modifies buf
    ensures OnlyWithin(old(buf[..]), buf[..], off, off + 8)
    ensures Word(buf[..], off) == w
  {
    var le := ToLE(w, 8);
    WordOfLE(w);
    Store(buf, off, le);
    assert buf[..][off..off + 8] == le;
    WordKept(buf[..], off, le, 0);
  }

  function RoundUp8(n: nat): (r: nat)
    ensures r % 8 == 0 && n <= r < n + 8
  {
    if n % 8 == 0 then n else n + 8 - n % 8
  }

  lemma RoundUpFits(n: nat, limit: nat)
    requires n <= limit && limit % 8 == 0
    ensures RoundUp8(n) <= limit
  {
  }
}
