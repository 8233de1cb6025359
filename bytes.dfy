/**
 * Byte-level vocabulary shared by every PDU codec: octets, 16/32-bit words as
 * `memcpy` lays them out on a little-endian host, `htobe32`, and the two range
 * operations every field setter and reader is built from (zero-fill-then-copy,
 * and "bytes up to the first zero").
 */
module Bytes {

  type Byte = x: int | 0 <= x < 0x100
  type U16 = x: int | 0 <= x < 0x1_0000
  type U32 = x: int | 0 <= x < 0x1_0000_0000

  function Min(a: int, b: int): int { if a < b then a else b }

  /** `n` zero bytes. */
  function Zeros(n: nat): (r: seq<Byte>)
    ensures |r| == n && forall i :: 0 <= i < n ==> r[i] == 0
  {
    seq(n, _ => 0)
  }

  /** No byte of `s` is the terminator 0. */
  ghost predicate ZeroFree(s: seq<Byte>)
  {
    forall i :: 0 <= i < |s| ==> s[i] != 0
  }

  // ---------------------------------------------------------------------------
  // Integers as bytes (little-endian host: memcpy copies the low byte first)

  /** The bytes `memcpy` copies out of a `uint32_t`. */
  function LE32(v: U32): (r: seq<Byte>)
    ensures |r| == 4
  {
    var q1 := v / 0x100;
    var q2 := q1 / 0x100;
    [v % 0x100, q1 % 0x100, q2 % 0x100, q2 / 0x100]
  }

  /** The `uint32_t` that `memcpy` assembles from four bytes. */
  function FromLE32(b: seq<Byte>): U32
    requires |b| == 4
  {
    b[0] as int + 0x100 * (b[1] as int) + 0x1_0000 * (b[2] as int) + 0x100_0000 * (b[3] as int)
  }

  lemma LE32RoundTrip(v: U32)
    ensures FromLE32(LE32(v)) == v
  {
    var q1 := v / 0x100;
    var q2 := q1 / 0x100;
    assert v == 0x100 * q1 + v % 0x100;
    assert q1 == 0x100 * q2 + q1 % 0x100;
    assert q2 == 0x100 * (q2 / 0x100) + q2 % 0x100;
  }

  lemma FromLE32RoundTrip(b: seq<Byte>)
    requires |b| == 4
    ensures LE32(FromLE32(b)) == b
  {
    var v := FromLE32(b);
    var q1: int := b[1] as int + 0x100 * (b[2] as int) + 0x1_0000 * (b[3] as int);
    var q2: int := b[2] as int + 0x100 * (b[3] as int);
    assert v == 0x100 * q1 + b[0] as int;
    DivModUnique(v, q1, b[0]);
    assert q1 == 0x100 * q2 + b[1] as int;
    DivModUnique(q1, q2, b[1]);
    assert q2 == 0x100 * (b[3] as int) + b[2] as int;
    DivModUnique(q2, b[3], b[2]);
  }

  lemma DivModUnique(v: int, q: int, r: int)
    requires 0 <= r < 0x100 && v == 0x100 * q + r
    ensures v / 0x100 == q && v % 0x100 == r
  {
  }

  /** Two bytes for a `uint16_t`. */
  function LE16(v: U16): (r: seq<Byte>)
    ensures |r| == 2
  {
    [v % 0x100, v / 0x100]
  }

  function FromLE16(b: seq<Byte>): U16
    requires |b| == 2
  {
    b[0] as int + 0x100 * (b[1] as int)
  }

  lemma LE16RoundTrip(v: U16)
    ensures FromLE16(LE16(v)) == v
  {
  }

  /** `htobe32` on a little-endian host: the word whose bytes are those of `v` reversed. */
  function Bswap32(v: U32): (r: U32)
    ensures LE32(r) == Reverse4(LE32(v))
  {
    var b := LE32(v);
    var r := FromLE32(Reverse4(b));
    FromLE32RoundTrip(Reverse4(b));
    r
  }

  function Reverse4(b: seq<Byte>): (r: seq<Byte>)
    requires |b| == 4
    ensures |r| == 4
  {
    [b[3], b[2], b[1], b[0]]
  }

  /** Swapping twice gives the original word back. */
  lemma Bswap32Involutive(v: U32)
    ensures Bswap32(Bswap32(v)) == v
  {
    var w := Bswap32(v);
    assert LE32(Bswap32(w)) == Reverse4(Reverse4(LE32(v))) == LE32(v);
    LE32RoundTrip(Bswap32(w));
    LE32RoundTrip(v);
  }

  // ---------------------------------------------------------------------------
  // Words inside a byte sequence

  /** Writing back the byte-swapped word at `o` reverses its four bytes. */
  lemma PutSwappedWord(s: seq<Byte>, o: nat)
    requires o + 4 <= |s|
    ensures PutU32(s, o, Bswap32(GetU32(s, o)))[o..o + 4] == Reverse4(s[o..o + 4])
  {
    FromLE32RoundTrip(s[o..o + 4]);
  }

  /** `memcpy(&ret, &buf[o], 4)`. */
  function GetU32(s: seq<Byte>, o: nat): U32
    requires o + 4 <= |s|
  {
    FromLE32(s[o..o + 4])
  }

  /** `memcpy(&buf[o], &v, 4)`: the four bytes at `o` become `v`, every other byte is kept. */
  function PutU32(s: seq<Byte>, o: nat, v: U32): (r: seq<Byte>)
    requires o + 4 <= |s|
    ensures |r| == |s| && r[o..o + 4] == LE32(v)
    ensures forall i :: 0 <= i < |s| && !(o <= i < o + 4) ==> r[i] == s[i]
  {
    s[..o] + LE32(v) + s[o + 4..]
  }

  function GetU16(s: seq<Byte>, o: nat): U16
    requires o + 2 <= |s|
  {
    FromLE16(s[o..o + 2])
  }

  function PutU16(s: seq<Byte>, o: nat, v: U16): (r: seq<Byte>)
    requires o + 2 <= |s|
    ensures |r| == |s| && r[o..o + 2] == LE16(v)
    ensures forall i :: 0 <= i < |s| && !(o <= i < o + 2) ==> r[i] == s[i]
  {
    s[..o] + LE16(v) + s[o + 2..]
  }

  /** Writing a word and reading it back at the same place gives the word. */
  lemma GetPutU32(s: seq<Byte>, o: nat, v: U32)
    requires o + 4 <= |s|
    ensures GetU32(PutU32(s, o, v), o) == v
  {
    LE32RoundTrip(v);
  }

  /** A word is read from its own four bytes only. */
  lemma GetU32Local(s: seq<Byte>, t: seq<Byte>, o: nat)
    requires o + 4 <= |s| && o + 4 <= |t|
    requires forall i :: o <= i < o + 4 ==> s[i] == t[i]
    ensures GetU32(s, o) == GetU32(t, o)
  {
    assert s[o..o + 4] == t[o..o + 4];
  }

  lemma GetPutU16(s: seq<Byte>, o: nat, v: U16)
    requires o + 2 <= |s|
    ensures GetU16(PutU16(s, o, v), o) == v
  {
  }

  // ---------------------------------------------------------------------------
  // Fixed-width string fields

  /**
   * The buffer after `assign_n(src, sz, b, e)` / `set_field(buf, b, e, src, sz)`:
   * [b, e) is zero-filled, then its first min(sz, e - b) bytes are copied from
   * `src`. When b >= e nothing is written at all.
   */
  function Splice(s: seq<Byte>, b: nat, e: nat, src: seq<Byte>, sz: nat): (r: seq<Byte>)
    requires b < e ==> e <= |s| && Min(sz, e - b) <= |src|
    ensures |r| == |s|
    ensures e <= b ==> r == s
    ensures forall i :: 0 <= i < |s| && !(b <= i < e) ==> r[i] == s[i]
    ensures forall i :: b <= i < e && i < b + sz ==> r[i] == src[i - b]
    ensures forall i :: b <= i < e && b + sz <= i ==> r[i] == 0
  {
    if e <= b then s
    else
      var k := Min(sz, e - b);
      s[..b] + src[..k] + Zeros(e - b - k) + s[e..]
  }

  /**
   * The reader loops of the codecs: the bytes of `s` from index `b` up to (not
   * including) the first zero byte, never reaching index `e` nor the end of `s`.
   */
  function CStringAt(s: seq<Byte>, b: nat, e: nat): (r: seq<Byte>)
    ensures r == [] || (b + |r| <= |s| && b + |r| <= e && r == s[b..b + |r|])
    ensures ZeroFree(r)
    ensures b + |r| < |s| && b + |r| < e ==> s[b + |r|] == 0
    decreases |s| - b
  {
    if b >= e || b >= |s| || s[b] == 0 then []
    else [s[b]] + CStringAt(s, b + 1, e)
  }

  /**
   * The three facts CStringAt promises determine it: a zero-free run of `s`
   * starting at `b` that stops at a zero byte, at `e` or at the end of `s`
   * is the string read there.
   */
  lemma {:induction false} CStringAtUnique(s: seq<Byte>, b: nat, e: nat, t: seq<Byte>)
    requires b + |t| <= |s| && b + |t| <= e
    requires t == s[b..b + |t|] && ZeroFree(t)
    requires b + |t| == |s| || b + |t| == e || s[b + |t|] == 0
    ensures CStringAt(s, b, e) == t
    decreases |t|
  {
    if t != [] {
      assert s[b] == t[0] != 0;
      assert t[1..] == s[b + 1..b + |t|];
      CStringAtUnique(s, b + 1, e, t[1..]);
      assert CStringAt(s, b, e) == [s[b]] + t[1..] == t;
    }
  }

  /**
   * Reading a fixed-width field back after writing it: a value written with
   * Splice into [b, e) reads back as the part of it that was copied, as long as
   * that part holds no zero byte.
   */
  lemma SpliceThenRead(s: seq<Byte>, b: nat, e: nat, src: seq<Byte>, sz: nat)
    requires b < e <= |s| && Min(sz, e - b) <= |src|
    requires ZeroFree(src[..Min(sz, e - b)])
    ensures CStringAt(Splice(s, b, e, src, sz), b, e) == src[..Min(sz, e - b)]
  {
    var r := Splice(s, b, e, src, sz);
    var k := Min(sz, e - b);
    assert r[b..b + k] == src[..k];
    CStringAtUnique(r, b, e, src[..k]);
  }

  /** A string read from [b, e) depends on the bytes in [b, e) only. */
  lemma {:induction false} CStringAtLocal(s: seq<Byte>, t: seq<Byte>, b: nat, e: nat)
    requires |s| == |t|
    requires forall i :: b <= i < e && i < |s| ==> s[i] == t[i]
    ensures CStringAt(s, b, e) == CStringAt(t, b, e)
    decreases |s| - b
  {
    if b < e && b < |s| && s[b] != 0 {
      CStringAtLocal(s, t, b + 1, e);
    }
  }

  /** A read bounded by `e` past the end of `s` reads what a read bounded by the end does. */
  lemma {:induction false} CStringAtClip(s: seq<Byte>, b: nat, e: nat)
    ensures CStringAt(s, b, e) == CStringAt(s, b, Min(e, |s|))
    decreases |s| - b
  {
    if b < e && b < |s| && s[b] != 0 {
      CStringAtClip(s, b + 1, e);
    }
  }

  /**
   * Reading a fixed-width field back after writing it, whatever was written:
   * the read yields the copied part of `src` up to its first zero byte.
   */
  lemma SpliceThenReadPrefix(s: seq<Byte>, b: nat, e: nat, src: seq<Byte>, sz: nat)
    requires b < e <= |s| && Min(sz, e - b) <= |src|
    ensures CStringAt(Splice(s, b, e, src, sz), b, e) == CStringAt(src[..Min(sz, e - b)], 0, e - b)
  {
    var r := Splice(s, b, e, src, sz);
    var k := Min(sz, e - b);
    var c := src[..k];
    var t := CStringAt(c, 0, e - b);
    assert |t| <= k;
    assert t == c[..|t|];
    assert r[b..b + |t|] == t;
    CStringAtUnique(r, b, e, t);
  }

  /** A zero-free string of at most `w` bytes reads back whole from a `w`-byte window. */
  lemma ZeroFreeReadsWhole(c: seq<Byte>, w: nat)
    requires |c| <= w && ZeroFree(c)
    ensures CStringAt(c, 0, w) == c
  {
    assert c == c[0..|c|];
    CStringAtUnique(c, 0, w, c);
  }

  /** What a field [b, e) of width `w` holds after Splice: the copied prefix of `src`, then zeros. */
  function SpliceWindow(src: seq<Byte>, sz: nat, w: nat): (r: seq<Byte>)
    requires Min(sz, w) <= |src|
    ensures |r| == w
  {
    src[..Min(sz, w)] + Zeros(w - Min(sz, w))
  }

  /** Splice in slices: the window as SpliceWindow says, both sides as they were. */
  lemma SpliceWindowIs(s: seq<Byte>, b: nat, e: nat, src: seq<Byte>, sz: nat)
    requires b < e <= |s| && Min(sz, e - b) <= |src|
    ensures var t := Splice(s, b, e, src, sz);
      t[b..e] == SpliceWindow(src, sz, e - b) && t[..b] == s[..b] && t[e..] == s[e..]
  {
    var t := Splice(s, b, e, src, sz);
    var w := SpliceWindow(src, sz, e - b);
    assert forall i :: 0 <= i < e - b ==> t[b..e][i] == t[b + i] == w[i];
  }
}
