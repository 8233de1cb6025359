/**
 * `misc::static_buffer<T, SIZE>` with T = uint8_t: a SIZE-byte array that
 * starts all zero, plus the append cursor `offset`. Every PDU type of the
 * codec is one of these; SIZE is the length of `data`.
 */
module Buffer {
  import opened Bytes

  /**
   * What `size()` returns for a buffer holding `s`: one past the last non-zero
   * byte, looking from the end down to index 1; 0 when bytes 1.. are all zero
   * (byte 0 is never inspected), and -1 for a zero-capacity buffer.
   */
  function UsedSize(s: seq<Byte>): (n: int)
    ensures |s| == 0 ==> n == -1
    ensures |s| > 0 ==> 0 <= n <= |s| && (n == 0 <==> forall k :: 1 <= k < |s| ==> s[k] == 0)
    ensures n > 0 ==> 2 <= n && s[n - 1] != 0 && forall k :: n <= k < |s| ==> s[k] == 0
    decreases |s|
  {
    if |s| == 0 then -1
    else if |s| == 1 then 0
    else if s[|s| - 1] != 0 then |s|
    else UsedSize(s[..|s| - 1])
  }

  /** A last non-zero byte at index n - 1 >= 1 fixes `size()` at n. */
  lemma UsedSizeIs(s: seq<Byte>, n: nat)
    requires 2 <= n <= |s| && s[n - 1] != 0
    requires forall k :: n <= k < |s| ==> s[k] == 0
    ensures UsedSize(s) == n
  {
  }

  /**
   * `dest` after `set_null(dest, clear)` then `memcpy(dest, src, |bytes|)`: the
   * copied bytes first, zeros up to `clear`, the old contents beyond.
   */
  function CopiedOut(d: seq<Byte>, clear: nat, bytes: seq<Byte>): (r: seq<Byte>)
    requires clear <= |d| && |bytes| <= |d|
    ensures |r| == |d| && r[..|bytes|] == bytes
    ensures forall i :: |bytes| <= i < |d| ==> r[i] == if i < clear then 0 else d[i]
  {
    bytes + seq(|d| - |bytes|, k requires 0 <= k < |d| - |bytes| => if |bytes| + k < clear then 0 else d[|bytes| + k])
  }

  /**
   * The fixed-width getters that fill a caller's array: `set_null(dest, clear)`
   * (or `set_null(dest)` with clear = N) followed by a `memcpy` of `n` bytes
   * from `src[from..]`.
   */
  method CopyOut(src: array<Byte>, from: nat, dest: array<Byte>, clear: nat, n: nat)
    requires from + n <= src.Length && n <= dest.Length && clear <= dest.Length && src != dest
    modifies dest
    ensures dest[..] == CopiedOut(old(dest[..]), clear, src[from..from + n])
  {
    var i := 0;
    while i < clear
      invariant 0 <= i <= clear
      invariant forall k :: 0 <= k < i ==> dest[k] == 0
      invariant forall k :: i <= k < dest.Length ==> dest[k] == old(dest[k])
    {
      dest[i] := 0;
      i := i + 1;
    }
    i := 0;
    while i < n
      invariant 0 <= i <= n
      invariant forall k :: 0 <= k < i ==> dest[k] == src[from + k]
      invariant forall k :: i <= k < dest.Length ==> dest[k] == if k < clear then 0 else old(dest[k])
    {
      dest[i] := src[from + i];
      i := i + 1;
    }
    assert dest[..] == CopiedOut(old(dest[..]), clear, src[from..from + n]);
  }

  class StaticBuffer {
    /** `buffer[SIZE]` */
    const data: array<Byte>
    /** the append cursor */
    var offset: int

    ghost predicate Valid()
      reads this
    {
      0 <= offset <= data.Length
    }

    /** `capacity()` / `max_size()` */
    function Capacity(): nat
    {
      data.Length
    }

    /** `length()`: the append cursor, not the used size. */
    function Length(): int
      reads this
    {
      offset
    }

    /** Default construction: SIZE zero bytes, cursor at 0. */
    constructor Default(size: nat)
      ensures Valid() && fresh(data)
      ensures data[..] == Zeros(size) && offset == 0
    {
      data := new Byte[size](_ => 0);
      offset := 0;
    }

    /** `static_buffer(T2* buf, SZ len)`: copies min(SIZE, len) bytes; the cursor stays at 0. */
    constructor FromPointer(size: nat, buf: seq<Byte>, len: nat)
      requires Min(size, len) <= |buf|
      ensures Valid() && fresh(data)
      ensures data[..] == buf[..Min(size, len)] + Zeros(size - Min(size, len))
      ensures offset == 0
    {
      var a := new Byte[size](_ => 0);
      var i := 0;
      while i < size && i < len
        invariant 0 <= i <= Min(size, len)
        invariant forall k :: 0 <= k < i ==> a[k] == buf[k]
        invariant forall k :: i <= k < size ==> a[k] == 0
      {
        a[i] := buf[i];
        i := i + 1;
      }
      assert a[..] == buf[..Min(size, len)] + Zeros(size - Min(size, len));
      data := a;
      offset := 0;
    }

    /**
     * Construction from an array, a `std::string` or a `string_view`: copies
     * min(len, SIZE) bytes and puts the cursor just after them.
     */
    constructor FromSeq(size: nat, s: seq<Byte>)
      ensures Valid() && fresh(data)
      ensures data[..] == s[..Min(size, |s|)] + Zeros(size - Min(size, |s|))
      ensures offset == Min(size, |s|)
    {
      data := new Byte[size](i => if 0 <= i < |s| then s[i] else 0);
      offset := if |s| < size then |s| else size;
      new;
      assert data[..] == s[..Min(size, |s|)] + Zeros(size - Min(size, |s|));
    }

    /** `static_buffer(const T& val)`: every byte is `val`. */
    constructor Filled(size: nat, val: Byte)
      ensures Valid() && fresh(data)
      ensures data.Length == size && forall i :: 0 <= i < size ==> data[i] == val
      ensures offset == 0
    {
      data := new Byte[size](_ => val);
      offset := 0;
    }

    /** `static_buffer(const_iterator b, const_iterator e)`: appends each byte of the range. */
    constructor FromRange(size: nat, s: seq<Byte>)
      requires |s| <= size
      ensures Valid() && fresh(data)
      ensures data[..] == s + Zeros(size - |s|) && offset == |s|
    {
      data := new Byte[size](_ => 0);
      offset := 0;
      new;
      AppendBytes(s);
      assert data[..] == s + Zeros(size - |s|);
    }

    /** Copy and move construction: same bytes, same cursor. */
    constructor Copy(rhs: StaticBuffer)
      requires rhs.Valid()
      ensures Valid() && fresh(data) && data[..] == rhs.data[..] && offset == rhs.offset
    {
      data := new Byte[rhs.data.Length](i reads rhs.data => if 0 <= i < rhs.data.Length then rhs.data[i] else 0);
      offset := rhs.offset;
    }

    /** Copy and move assignment between buffers of the same type. */
    method CopyFrom(rhs: StaticBuffer)
      requires rhs.Valid() && rhs.data.Length == data.Length
      modifies this, data
      ensures Valid() && data[..] == old(rhs.data[..]) && offset == old(rhs.offset)
    {
      var i := 0;
      var src := rhs.data[..];
      var cursor := rhs.offset;
      while i < data.Length
        invariant 0 <= i <= data.Length
        invariant forall k :: 0 <= k < i ==> data[k] == src[k]
      {
        data[i] := src[i];
        i := i + 1;
      }
      offset := cursor;
    }

    // -------------------------------------------------------------------------
    // Positional writes

    /** `erase(b, e)`: zeroes exactly [b, e). */
    method Erase(b: nat, e: nat)
      requires b < e ==> e <= data.Length
      modifies data
      ensures data[..] == Splice(old(data[..]), b, e, [], 0)
    {
      var i := b;
      while i < e
        invariant b <= e ==> b <= i <= e
        invariant b > e ==> i == b
        invariant forall k :: 0 <= k < data.Length && !(b <= k < i) ==> data[k] == old(data[k])
        invariant forall k :: b <= k < i ==> data[k] == 0
      {
        data[i] := 0;
        i := i + 1;
      }
      assert data[..] == Splice(old(data[..]), b, e, [], 0);
    }

    /**
     * `assign_n(src, sz, b, e)`: [b, e) zero-filled, then min(sz, e - b) bytes of
     * `src` copied to its start; nothing outside [b, e) and not the cursor changes.
     */
    method AssignN(src: seq<Byte>, sz: nat, b: nat, e: nat)
      requires b < e ==> e <= data.Length && Min(sz, e - b) <= |src|
      modifies data
      ensures data[..] == Splice(old(data[..]), b, e, src, sz)
    {
      Erase(b, e);
      var i, j := 0, b;
      while i < sz && j < e
        invariant j == b + i && 0 <= i
        invariant b < e ==> j <= e && i <= Min(sz, e - b)
        invariant b >= e ==> i == 0
        invariant forall k :: 0 <= k < data.Length && !(b <= k < e) ==> data[k] == old(data[k])
        invariant forall k :: b <= k < j ==> data[k] == src[k - b]
        invariant forall k :: j <= k < e ==> data[k] == 0
      {
        data[j] := src[i];
        i, j := i + 1, j + 1;
      }
      assert data[..] == Splice(old(data[..]), b, e, src, sz);
    }

    /** `assign(src, b, e)`: like `assign_n` with exactly e - b bytes taken from `src`. */
    method Assign(src: seq<Byte>, b: nat, e: nat)
      requires b < e ==> e <= data.Length && e - b <= |src|
      modifies data
      ensures data[..] == Splice(old(data[..]), b, e, src, if b < e then e - b else 0)
    {
      AssignN(src, if b < e then e - b else 0, b, e);
    }

    /** `assign(uint8_t, o)` */
    method Assign8(v: Byte, o: nat)
      requires o < data.Length
      modifies data
      ensures data[..] == old(data[..])[o := v]
    {
      data[o] := v;
    }

    /** `assign(uint16_t, o)`: two bytes, little-endian. */
    method Assign16(v: U16, o: nat)
      requires o + 2 <= data.Length
      modifies data
      ensures data[..] == PutU16(old(data[..]), o, v)
      ensures Get16(o) == v
    {
      var b := LE16(v);
      data[o], data[o + 1] := b[0], b[1];
      assert data[..] == PutU16(old(data[..]), o, v);
      GetPutU16(old(data[..]), o, v);
    }

    /** `assign(uint32_t, o)`: four bytes, little-endian; `get_u32(o)` then reads `v`. */
    method Assign32(v: U32, o: nat)
      requires o + 4 <= data.Length
      modifies data
      ensures data[..] == PutU32(old(data[..]), o, v)
      ensures Get32(o) == v
    {
      var b := LE32(v);
      data[o], data[o + 1], data[o + 2], data[o + 3] := b[0], b[1], b[2], b[3];
      assert data[..] == PutU32(old(data[..]), o, v);
      GetPutU32(old(data[..]), o, v);
    }

    /** `fill_n(sz, value)`: memset of the first `sz` bytes. */
    method FillN(sz: nat, value: Byte)
      requires sz <= data.Length
      modifies data
      ensures forall i :: 0 <= i < sz ==> data[i] == value
      ensures forall i :: sz <= i < data.Length ==> data[i] == old(data[i])
    {
      var i := 0;
      while i < sz
        invariant 0 <= i <= sz
        invariant forall k :: 0 <= k < i ==> data[k] == value
        invariant forall k :: i <= k < data.Length ==> data[k] == old(data[k])
      {
        data[i] := value;
        i := i + 1;
      }
    }

    /** `fill(value)`: every byte. */
    method Fill(value: Byte)
      modifies data
      ensures forall i :: 0 <= i < data.Length ==> data[i] == value
    {
      FillN(data.Length, value);
    }

    /** `clear()`: all bytes zero and the cursor back to 0. */
    method Clear()
      modifies this, data
      ensures Valid() && data[..] == Zeros(data.Length) && offset == 0
    {
      Fill(0);
      offset := 0;
      assert data[..] == Zeros(data.Length);
    }

    // -------------------------------------------------------------------------
    // Positional reads (raw, no byte swap)

    /** `operator[](i)` */
    function Get8(i: nat): Byte
      reads data
      requires i < data.Length
    {
      data[i]
    }

    /** `get_u16(o)` */
    function Get16(o: nat): U16
      reads data
      requires o + 2 <= data.Length
    {
      GetU16(data[..], o)
    }

    /** `get_u32(o)` */
    function Get32(o: nat): U32
      reads data
      requires o + 4 <= data.Length
    {
      GetU32(data[..], o)
    }

    // -------------------------------------------------------------------------
    // Appending at the cursor (no bounds check in the source, hence the requires)

    /** `operator+=(uint8_t)` / `append(uint8_t)` */
    method Push8(v: Byte)
      requires Valid() && offset + 1 <= data.Length
      modifies this, data
      ensures Valid() && offset == old(offset) + 1
      ensures data[..] == old(data[..])[old(offset) := v]
    {
      data[offset] := v;
      offset := offset + 1;
    }

    /** `operator+=(uint16_t)` / `append(uint16_t)` via `memcpy_n_incr` */
    method Push16(v: U16)
      requires Valid() && offset + 2 <= data.Length
      modifies this, data
      ensures Valid() && offset == old(offset) + 2
      ensures data[..] == PutU16(old(data[..]), old(offset), v)
    {
      var b := LE16(v);
      data[offset], data[offset + 1] := b[0], b[1];
      assert data[..] == PutU16(old(data[..]), old(offset), v);
      offset := offset + 2;
    }

    /** `operator+=(uint32_t)` / `append(uint32_t)` via `memcpy_n_incr` */
    method Push32(v: U32)
      requires Valid() && offset + 4 <= data.Length
      modifies this, data
      ensures Valid() && offset == old(offset) + 4
      ensures data[..] == PutU32(old(data[..]), old(offset), v)
    {
      var b := LE32(v);
      data[offset], data[offset + 1], data[offset + 2], data[offset + 3] := b[0], b[1], b[2], b[3];
      assert data[..] == PutU32(old(data[..]), old(offset), v);
      offset := offset + 4;
    }

    /**
     * `append_sv`, assignment from an array, `set_values`: the bytes go at the
     * cursor, which advances by their number.
     */
    method AppendBytes(s: seq<Byte>)
      requires Valid() && offset + |s| <= data.Length
      modifies this, data
      ensures Valid() && offset == old(offset) + |s|
      ensures data[..] == old(data[..])[..old(offset)] + s + old(data[..])[old(offset) + |s|..]
    {
      var i := 0;
      while i < |s|
        invariant 0 <= i <= |s| && offset == old(offset) + i && Valid()
        invariant forall k :: 0 <= k < data.Length && !(old(offset) <= k < offset) ==> data[k] == old(data[k])
        invariant forall k :: old(offset) <= k < offset ==> data[k] == s[k - old(offset)]
      {
        Push8(s[i]);
        i := i + 1;
      }
      assert data[..] == old(data[..])[..old(offset)] + s + old(data[..])[old(offset) + |s|..];
    }

    /** `size()`: scans down from the last byte for a non-zero one. */
    method Size() returns (n: int)
      ensures n == UsedSize(data[..])
    {
      var i := data.Length - 1;
      while i > 0
        invariant -1 <= i < data.Length
        invariant data.Length > 0 ==> 0 <= i
        invariant forall k :: i < k < data.Length ==> data[k] == 0
      {
        if data[i] != 0 {
          UsedSizeIs(data[..], i + 1);
          return i + 1;
        }
        i := i - 1;
      }
      return i;
    }
  }
}
