/**
 * The free-function mirror of the PDU layouts (functions.h): helpers on raw
 * arrays (`misc::is_equal`, `set_null`, `strlen`), `cuap::set_field`, the
 * `header::` readers, setters and predicates, `is_cuap_msg`, and the
 * `body::bind_msg` / `body::begin_msg` / `body::switch_msg` accessors. Setters
 * work in place on a caller's buffer; readers are loops over a local string.
 */
module Functions {
  import opened Wrappers
  import opened Bytes
  import opened Types

  // ---------------------------------------------------------------------------
  // misc helpers

  /** `int16_t`, the type of `is_equal`'s lengths and of its loop index. */
  type Int16 = x: int | -0x8000 <= x < 0x8000

  /**
   * `is_equal(lhs, N1, rhs, N2)`: the first min(N1, N2) elements agree. The
   * three-argument form and the array form compare the first N1, which is the
   * case N2 = N1. A negative length compares nothing.
   */
  method IsEqual(lhs: seq<Byte>, n1: Int16, rhs: seq<Byte>, n2: Int16) returns (b: bool)
    requires Min(n1, n2) <= |lhs| && Min(n1, n2) <= |rhs|
    ensures b <==> forall i :: 0 <= i < n1 && i < n2 ==> lhs[i] == rhs[i]
  {
    var i := 0;
    while i < n1 && i < n2
      invariant 0 <= i && (i == 0 || i <= Min(n1, n2))
      invariant forall k :: 0 <= k < i ==> lhs[k] == rhs[k]
    {
      if lhs[i] != rhs[i] {
        return false;
      }
      i := i + 1;
    }
    return true;
  }

  /** The length of the C string at the start of `s`: the index of its first zero byte, or |s| if it has none. */
  function CLen(s: seq<Byte>): (n: nat)
    ensures n <= |s| && (n < |s| ==> s[n] == 0)
    ensures forall i :: 0 <= i < n ==> s[i] != 0
  {
    if s == [] || s[0] == 0 then 0 else 1 + CLen(s[1..])
  }

  /** `misc::strlen(s)`: counts up to the terminator, which must exist. */
  method Strlen(s: seq<Byte>) returns (n: nat)
    requires 0 in s
    ensures n == CLen(s) && n < |s|
  {
    n := 0;
    while s[n] != 0
      invariant n < |s| && 0 in s[n..]
      invariant CLen(s) == n + CLen(s[n..])
      decreases |s| - n
    {
      assert s[n..] == [s[n]] + s[n + 1..];
      n := n + 1;
    }
  }

  /** `set_null(data, b, e)`: zeroes exactly [b, e). */
  method SetNullRange(a: array<Byte>, b: nat, e: nat)
    requires b < e ==> e <= a.Length
    modifies a
    ensures a[..] == Splice(old(a[..]), b, e, [], 0)
  {
    var i := b;
    while i < e
      invariant b <= e ==> b <= i <= e
      invariant b > e ==> i == b
      invariant forall k :: 0 <= k < a.Length && !(b <= k < i) ==> a[k] == old(a[k])
      invariant forall k :: b <= k < i ==> a[k] == 0
    {
      a[i] := 0;
      i := i + 1;
    }
    assert a[..] == Splice(old(a[..]), b, e, [], 0);
  }

  /** `set_null(data, SZ)` and `set_null(arr...)`: memset of the first `sz` bytes. */
  method SetNull(a: array<Byte>, sz: nat)
    requires sz <= a.Length
    modifies a
    ensures a[..] == Splice(old(a[..]), 0, sz, [], 0)
  {
    forall i | 0 <= i < sz {
      a[i] := 0;
    }
    assert a[..] == Splice(old(a[..]), 0, sz, [], 0);
  }

  // ---------------------------------------------------------------------------
  // cuap::set_field

  /** `set_field(buffer, b, e, val, src_sz)`: [b, e) zero-filled, then min(src_sz, e - b) bytes of `val` copied. */
  method SetField(a: array<Byte>, b: nat, e: nat, val: seq<Byte>, srcSz: nat)
    requires b < e ==> e <= a.Length && Min(srcSz, e - b) <= |val|
    modifies a
    ensures a[..] == Splice(old(a[..]), b, e, val, srcSz)
  {
    SetNullRange(a, b, e);
    var i, j := 0, b;
    while i < srcSz && j < e
      invariant j == b + i
      invariant b < e ==> j <= e && i <= Min(srcSz, e - b)
      invariant b >= e ==> i == 0
      invariant forall k :: 0 <= k < a.Length && !(b <= k < e) ==> a[k] == old(a[k])
      invariant forall k :: b <= k < j ==> a[k] == val[k - b]
      invariant forall k :: j <= k < e ==> a[k] == 0
    {
      a[j] := val[i];
      i, j := i + 1, j + 1;
    }
    assert a[..] == Splice(old(a[..]), b, e, val, srcSz);
  }

  /**
   * `set_field(buffer, b, e, val)` for a C string `val`: copies up to its first
   * zero byte or until `e`. The loop reads `val[i]` before it tests `b < e`, so
   * one byte past the copied part must exist.
   */
  method SetFieldCString(a: array<Byte>, b: nat, e: nat, val: seq<Byte>)
    requires |val| > 0 && Min(CLen(val), e - b) < |val|
    requires b < e ==> e <= a.Length
    modifies a
    ensures a[..] == Splice(old(a[..]), b, e, val, CLen(val))
  {
    SetNullRange(a, b, e);
    var i, j := 0, b;
    while val[i] != 0 && j < e
      invariant j == b + i && i <= CLen(val)
      invariant b < e ==> j <= e
      invariant b >= e ==> i == 0
      invariant i < |val|
      invariant forall k :: 0 <= k < a.Length && !(b <= k < e) ==> a[k] == old(a[k])
      invariant forall k :: b <= k < j ==> a[k] == val[k - b]
      invariant forall k :: j <= k < e ==> a[k] == 0
      decreases e - j
    {
      a[j] := val[i];
      i, j := i + 1, j + 1;
    }
    assert a[..] == Splice(old(a[..]), b, e, val, CLen(val));
  }

  /** `set_field_u8(buffer, val, offset)` */
  method SetFieldU8(a: array<Byte>, val: Byte, o: nat)
    requires o < a.Length
    modifies a
    ensures a[..] == old(a[..])[o := val]
  {
    a[o] := val;
  }

  /** `set_field_u16(buffer, val, offset)`: memcpy of the two host-order bytes. */
  method SetFieldU16(a: array<Byte>, val: U16, o: nat)
    requires o + 2 <= a.Length
    modifies a
    ensures a[..] == PutU16(old(a[..]), o, val)
  {
    var b := LE16(val);
    a[o], a[o + 1] := b[0], b[1];
    assert a[..] == PutU16(old(a[..]), o, val);
  }

  /** `set_field_u32(buffer, val, offset)`: memcpy of the four host-order bytes. */
  method SetFieldU32(a: array<Byte>, val: U32, o: nat)
    requires o + 4 <= a.Length
    modifies a
    ensures a[..] == PutU32(old(a[..]), o, val)
  {
    var b := LE32(val);
    a[o], a[o + 1], a[o + 2], a[o + 3] := b[0], b[1], b[2], b[3];
    assert a[..] == PutU32(old(a[..]), o, val);
  }

  /**
   * `get_field<T>(offset, buffer)`: `sizeof(T)` bytes from `offset` copied
   * into the low end of a zeroed `uint32_t`.
   */
  function GetField(s: seq<Byte>, o: nat, width: nat): (r: U32)
    requires 1 <= width <= 4 && o + width <= |s|
    ensures LE32(r) == s[o..o + width] + Zeros(4 - width)
  {
    var b := s[o..o + width] + Zeros(4 - width);
    FromLE32RoundTrip(b);
    FromLE32(b)
  }

  /** `get_field<uint32_t>(offset, buffer)`: the four bytes at `offset` are the word's image. */
  function GetFieldU32(s: seq<Byte>, o: nat): (r: U32)
    requires o + 4 <= |s|
    ensures LE32(r) == s[o..o + 4] && r == GetU32(s, o)
  {
    assert s[o..o + 4] + Zeros(0) == s[o..o + 4];
    GetField(s, o, 4)
  }

  // ---------------------------------------------------------------------------
  // header::

  /**
   * `header::set_command_len` … `header::set_receiver_id` on a raw buffer; read
   * back with `header::header_field` and its named wrappers (HeaderWord).
   */
  method SetHeaderField(a: array<Byte>, f: HeaderField, v: U32)
    requires a.Length >= HEADER_LEN
    modifies a
    ensures a[..] == SetHeaderWord(old(a[..]), f, v)
    ensures HeaderWord(a[..], f) == v
  {
    SetFieldU32(a, v, Offset(f));
    SetHeaderWordThenRead(old(a[..]), f, v, f);
  }

  /** `cuap_pdu_arr`: the ids `is_cuap_msg` accepts, i.e. every registry id but Error. */
  const CUAP_PDU_IDS: seq<Byte> := [0x65, 0x66, 0x67, 0x68, 0x6f, 0x70, 0x71, 0x72, 0x74, 0x77, 0x75, 0x76, 0x83, 0x84]

  /** `is_cuap_msg(buffer)`: the command id, truncated to its low byte, is one of the listed ids. */
  method IsCuapMsg(s: seq<Byte>) returns (r: bool)
    requires |s| >= HEADER_LEN
    ensures r <==> HeaderWord(s, CommandId) % 0x100 in CUAP_PDU_IDS
  {
    var cmd := HeaderWord(s, CommandId) % 0x100;
    var i := 0;
    while i < |CUAP_PDU_IDS|
      invariant 0 <= i <= |CUAP_PDU_IDS|
      invariant cmd !in CUAP_PDU_IDS[..i]
    {
      if CUAP_PDU_IDS[i] == cmd {
        return true;
      }
      i := i + 1;
    }
    assert CUAP_PDU_IDS[..i] == CUAP_PDU_IDS;
    return false;
  }

  /**
   * The listed ids are exactly the registry's, Error excepted; an id is
   * accepted when its low byte is one of them, so 0x16f passes although no
   * command has that id.
   */
  lemma CuapIdsAreRegistry(id: U32)
    ensures id % 0x100 in CUAP_PDU_IDS <==> CommandOf(id % 0x100).Some? && CommandOf(id % 0x100).value != Error
    ensures 0x16f % 0x100 in CUAP_PDU_IDS && CommandOf(0x16f) == None
  {
  }

  // ---------------------------------------------------------------------------
  // Readers of zero-terminated fields

  /**
   * The reader loops read `s[i]` for i from `b` while i < e and the byte is not
   * zero; that stays inside `s` when `e` does, or when a zero byte stops it first.
   */
  ghost predicate ScanInBounds(s: seq<Byte>, b: nat, e: nat)
  {
    b >= e || e <= |s| || exists k :: b <= k < |s| && s[k] == 0
  }

  /** The shared reader loop: `for (i = b; i < e; ++i) { if (buf[i] == 0) break; dest.append(buf[i]); }`. */
  method ScanCString(s: seq<Byte>, b: nat, e: nat) returns (r: seq<Byte>)
    requires ScanInBounds(s, b, e)
    ensures r == CStringAt(s, b, e)
  {
    if b >= e {
      return [];
    }
    // where the scan is bound to stop: `e` itself, or a zero byte before the end of `s`
    ghost var stop: nat := if e <= |s| then e else var k :| b <= k < |s| && s[k] == 0; k;
    var i := b;
    while i < e && s[i] != 0
      invariant b <= i <= e && i <= stop && stop <= |s|
      invariant stop < e ==> s[stop] == 0
      invariant forall k :: b <= k < i ==> s[k] != 0
      decreases e - i
    {
      i := i + 1;
    }
    r := s[b..i];
    CStringAtUnique(s, b, e, r);
  }

  // ---------------------------------------------------------------------------
  // body::bind_msg

  /** `bind_msg::set_system_id(buffer, val)`: always copies 11 bytes of `val` into [20, 31). */
  method BindSetSystemId(a: array<Byte>, val: seq<Byte>)
    requires a.Length >= BIND_PASSWORD && |val| >= 11
    modifies a
    ensures a[..] == Splice(old(a[..]), BIND_SYSTEM_ID, BIND_PASSWORD, val, 11)
  {
    SetField(a, BIND_SYSTEM_ID, BIND_PASSWORD, val, 11);
  }

  /** `bind_msg::set_password(buffer, val)`: 9 bytes into [31, 40). */
  method BindSetPassword(a: array<Byte>, val: seq<Byte>)
    requires a.Length >= BIND_SYSTEM_TYPE && |val| >= 9
    modifies a
    ensures a[..] == Splice(old(a[..]), BIND_PASSWORD, BIND_SYSTEM_TYPE, val, 9)
  {
    SetField(a, BIND_PASSWORD, BIND_SYSTEM_TYPE, val, 9);
  }

  /** `bind_msg::set_system_type(buffer, val)`: 13 bytes into [40, 53). */
  method BindSetSystemType(a: array<Byte>, val: seq<Byte>)
    requires a.Length >= BIND_INTERFACE_VERSION && |val| >= 13
    modifies a
    ensures a[..] == Splice(old(a[..]), BIND_SYSTEM_TYPE, BIND_INTERFACE_VERSION, val, 13)
  {
    SetField(a, BIND_SYSTEM_TYPE, BIND_INTERFACE_VERSION, val, 13);
  }

  /** `bind_msg::set_interface_version(buffer, val)`: the 32-bit word at 53. */
  method BindSetInterfaceVersion(a: array<Byte>, val: U32)
    requires a.Length >= BIND_INTERFACE_VERSION + 4
    modifies a
    ensures a[..] == PutU32(old(a[..]), BIND_INTERFACE_VERSION, val)
    ensures GetFieldU32(a[..], BIND_INTERFACE_VERSION) == val
  {
    SetFieldU32(a, val, BIND_INTERFACE_VERSION);
    GetPutU32(old(a[..]), BIND_INTERFACE_VERSION, val);
  }

  // ---------------------------------------------------------------------------
  // body::begin_msg (also continue_msg and end_msg)

  /** `begin_msg::msisdn(src)`: bytes from 22 up to the first zero, at most 21; no bound on `src` is checked. */
  method BeginMsisdn(src: seq<Byte>) returns (r: seq<Byte>)
    requires ScanInBounds(src, BEGIN_MSISDN, BEGIN_SERVICE_CODE)
    ensures r == CStringAt(src, BEGIN_MSISDN, BEGIN_SERVICE_CODE) && |r| <= 21
  {
    r := ScanCString(src, BEGIN_MSISDN, BEGIN_SERVICE_CODE);
  }

  /** `begin_msg::service_code(string_view)`: from 43 up to the first zero, at most 21 bytes, never past the view. */
  method BeginServiceCodeView(buffer: seq<Byte>) returns (r: seq<Byte>)
    ensures r == CStringAt(buffer, BEGIN_SERVICE_CODE, BEGIN_CODE_SCHEME) && |r| <= 21
    ensures BEGIN_SERVICE_CODE + |r| <= |buffer| || r == []
  {
    r := ScanCString(buffer, BEGIN_SERVICE_CODE, Min(BEGIN_CODE_SCHEME, |buffer|));
    CStringAtClip(buffer, BEGIN_SERVICE_CODE, BEGIN_CODE_SCHEME);
  }

  /** `begin_msg::service_code(T* buffer)`: the same read with no bound on `buffer`. */
  method BeginServiceCode(buffer: seq<Byte>) returns (r: seq<Byte>)
    requires ScanInBounds(buffer, BEGIN_SERVICE_CODE, BEGIN_CODE_SCHEME)
    ensures r == CStringAt(buffer, BEGIN_SERVICE_CODE, BEGIN_CODE_SCHEME) && |r| <= 21
  {
    r := ScanCString(buffer, BEGIN_SERVICE_CODE, BEGIN_CODE_SCHEME);
  }

  /** `begin_msg::ussd_content(string_view)`: from 65 up to the first zero or the end of the view. */
  method BeginUssdContentView(buffer: seq<Byte>) returns (r: seq<Byte>)
    ensures r == CStringAt(buffer, BEGIN_USSD_CONTENT, |buffer|)
  {
    r := ScanCString(buffer, BEGIN_USSD_CONTENT, |buffer|);
  }

  /** `begin_msg::ussd_content(T* buffer, int size)`: from 65 up to the first zero or index `size`. */
  method BeginUssdContentSized(buffer: seq<Byte>, size: int) returns (r: seq<Byte>)
    requires ScanInBounds(buffer, BEGIN_USSD_CONTENT, if size < 0 then 0 else size)
    ensures r == CStringAt(buffer, BEGIN_USSD_CONTENT, if size < 0 then 0 else size)
  {
    r := ScanCString(buffer, BEGIN_USSD_CONTENT, if size < 0 then 0 else size);
  }

  /** `begin_msg::set_msisdn(buffer, val)`: always copies 21 bytes of `val` into [22, 43). */
  method BeginSetMsisdn(a: array<Byte>, val: seq<Byte>)
    requires a.Length >= BEGIN_SERVICE_CODE && |val| >= 21
    modifies a
    ensures a[..] == Splice(old(a[..]), BEGIN_MSISDN, BEGIN_SERVICE_CODE, val, 21)
  {
    SetField(a, BEGIN_MSISDN, BEGIN_SERVICE_CODE, val, 21);
  }

  /** `begin_msg::set_service_code(buffer, val)`: 21 bytes into [43, 64). */
  method BeginSetServiceCode(a: array<Byte>, val: seq<Byte>)
    requires a.Length >= BEGIN_CODE_SCHEME && |val| >= 21
    modifies a
    ensures a[..] == Splice(old(a[..]), BEGIN_SERVICE_CODE, BEGIN_CODE_SCHEME, val, 21)
  {
    SetField(a, BEGIN_SERVICE_CODE, BEGIN_CODE_SCHEME, val, 21);
  }

  /**
   * `begin_msg::set_ussd_content(buffer, val)`: [65, 247) zero-filled, then
   * min(command_len - 65, 182) bytes of `val` copied, the size taken from the
   * buffer's own (host-order) length word.
   */
  method BeginSetUssdContent(a: array<Byte>, val: seq<Byte>)
    requires a.Length >= BEGIN_USSD_CONTENT + 182
    requires Min(ContentLength(a[..], BEGIN_USSD_CONTENT), 182) <= |val|
    modifies a
    ensures a[..] == Splice(old(a[..]), BEGIN_USSD_CONTENT, BEGIN_USSD_CONTENT + 182, val, ContentLength(old(a[..]), BEGIN_USSD_CONTENT))
  {
    var sz := (GetU32(a[..], 0) - BEGIN_USSD_CONTENT) % 0x1_0000_0000;
    SetField(a, BEGIN_USSD_CONTENT, BEGIN_USSD_CONTENT + 182, val, sz);
  }

  /** `begin_msg::set_code_scheme(buffer, val)`: the byte at 64. */
  method BeginSetCodeScheme(a: array<Byte>, val: Byte)
    requires a.Length > BEGIN_CODE_SCHEME
    modifies a
    ensures a[..] == old(a[..])[BEGIN_CODE_SCHEME := val]
  {
    a[BEGIN_CODE_SCHEME] := val;
  }

  /** `begin_msg::set_ussd_op_type(buffer, val)`: the byte at 21. */
  method BeginSetUssdOpType(a: array<Byte>, val: Byte)
    requires a.Length > BEGIN_USSD_OP_TYPE
    modifies a
    ensures a[..] == old(a[..])[BEGIN_USSD_OP_TYPE := val]
  {
    a[BEGIN_USSD_OP_TYPE] := val;
  }

  /** `begin_msg::set_ussd_version(buffer, val)`: the byte at 20. */
  method BeginSetUssdVersion(a: array<Byte>, val: Byte)
    requires a.Length > BEGIN_USSD_VERSION
    modifies a
    ensures a[..] == old(a[..])[BEGIN_USSD_VERSION := val]
  {
    a[BEGIN_USSD_VERSION] := val;
  }

  /**
   * What `begin_msg::set_msisdn` leaves readable: `msisdn` gives the first 21
   * bytes of `val` up to its first zero, and `service_code` is not disturbed.
   */
  lemma BeginSetMsisdnThenRead(s: seq<Byte>, val: seq<Byte>)
    requires |s| >= BEGIN_USSD_CONTENT && |val| >= 21
    ensures CStringAt(Splice(s, BEGIN_MSISDN, BEGIN_SERVICE_CODE, val, 21), BEGIN_MSISDN, BEGIN_SERVICE_CODE) == CStringAt(val[..21], 0, 21)
    ensures CStringAt(Splice(s, BEGIN_MSISDN, BEGIN_SERVICE_CODE, val, 21), BEGIN_SERVICE_CODE, BEGIN_CODE_SCHEME) == CStringAt(s, BEGIN_SERVICE_CODE, BEGIN_CODE_SCHEME)
  {
    var t := Splice(s, BEGIN_MSISDN, BEGIN_SERVICE_CODE, val, 21);
    assert CStringAt(t, BEGIN_MSISDN, BEGIN_SERVICE_CODE) == CStringAt(val[..21], 0, 21) by {
      SpliceThenReadPrefix(s, BEGIN_MSISDN, BEGIN_SERVICE_CODE, val, 21);
      assert Min(21, BEGIN_SERVICE_CODE - BEGIN_MSISDN) == 21;
    }
    assert CStringAt(t, BEGIN_SERVICE_CODE, BEGIN_CODE_SCHEME) == CStringAt(s, BEGIN_SERVICE_CODE, BEGIN_CODE_SCHEME) by {
      assert forall i :: BEGIN_SERVICE_CODE <= i < BEGIN_CODE_SCHEME && i < |t| ==> t[i] == s[i];
      CStringAtLocal(t, s, BEGIN_SERVICE_CODE, BEGIN_CODE_SCHEME);
    }
  }

  /** The same for `begin_msg::set_service_code`, which leaves `msisdn` undisturbed. */
  lemma BeginSetServiceCodeThenRead(s: seq<Byte>, val: seq<Byte>)
    requires |s| >= BEGIN_USSD_CONTENT && |val| >= 21
    ensures CStringAt(Splice(s, BEGIN_SERVICE_CODE, BEGIN_CODE_SCHEME, val, 21), BEGIN_SERVICE_CODE, BEGIN_CODE_SCHEME) == CStringAt(val[..21], 0, 21)
    ensures CStringAt(Splice(s, BEGIN_SERVICE_CODE, BEGIN_CODE_SCHEME, val, 21), BEGIN_MSISDN, BEGIN_SERVICE_CODE) == CStringAt(s, BEGIN_MSISDN, BEGIN_SERVICE_CODE)
  {
    var t := Splice(s, BEGIN_SERVICE_CODE, BEGIN_CODE_SCHEME, val, 21);
    assert CStringAt(t, BEGIN_SERVICE_CODE, BEGIN_CODE_SCHEME) == CStringAt(val[..21], 0, 21) by {
      SpliceThenReadPrefix(s, BEGIN_SERVICE_CODE, BEGIN_CODE_SCHEME, val, 21);
      assert Min(21, BEGIN_CODE_SCHEME - BEGIN_SERVICE_CODE) == 21;
    }
    assert CStringAt(t, BEGIN_MSISDN, BEGIN_SERVICE_CODE) == CStringAt(s, BEGIN_MSISDN, BEGIN_SERVICE_CODE) by {
      assert forall i :: BEGIN_MSISDN <= i < BEGIN_SERVICE_CODE && i < |t| ==> t[i] == s[i];
      CStringAtLocal(t, s, BEGIN_MSISDN, BEGIN_SERVICE_CODE);
    }
  }

  // ---------------------------------------------------------------------------
  // body::switch_msg

  /** `switch_msg::switchmode(buffer)`: `get_field<uint8_t>` at 20, which is the byte there. */
  function SwitchModeOf(s: seq<Byte>): (r: Byte)
    requires |s| > SWITCH_MODE
    ensures r == s[SWITCH_MODE]
  {
    var w := GetField(s, SWITCH_MODE, 1);
    LE32RoundTrip(w);
    assert LE32(w) == [s[SWITCH_MODE], 0, 0, 0];
    w
  }
}
