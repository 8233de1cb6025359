/**
 * `basic_begin`: the 256-byte PDU shared by Begin, Continue and End. After
 * the header come the USSD version (byte 20), the operation type (21), the
 * MSISDN [22, 43), the service code [43, 64), the code scheme (64) and the
 * USSD content from 65. Every operation takes the `StaticBuffer` that holds
 * the PDU.
 */
module SessionSa {
  import opened Bytes
  import opened Buffer
  import opened Types
  import Functions

  /** `LENGTH_BEGIN`: the capacity of every Begin/Continue/End buffer. */
  const LENGTH_BEGIN: nat := 256
  /** `set_ussd_content` zero-fills this many bytes from offset 65. */
  const CONTENT_WIDTH: nat := 182

  /** What `msisdn()` returns: bytes from 22 up to the first zero, at most 21. */
  function Msisdn(s: seq<Byte>): seq<Byte>
  {
    CStringAt(s, BEGIN_MSISDN, BEGIN_SERVICE_CODE)
  }

  /** What `service_code()` returns: bytes from 43 up to the first zero, at most 21. */
  function ServiceCode(s: seq<Byte>): seq<Byte>
  {
    CStringAt(s, BEGIN_SERVICE_CODE, BEGIN_CODE_SCHEME)
  }

  /** What `ussd_content()` returns: bytes from 65 up to the first zero or the end of the buffer. */
  function UssdContent(s: seq<Byte>): seq<Byte>
  {
    CStringAt(s, BEGIN_USSD_CONTENT, |s|)
  }

  function UssdVer(s: seq<Byte>): Byte
    requires |s| == LENGTH_BEGIN
  {
    s[BEGIN_USSD_VERSION]
  }

  function UssdOpType(s: seq<Byte>): Byte
    requires |s| == LENGTH_BEGIN
  {
    s[BEGIN_USSD_OP_TYPE]
  }

  function CodeScheme(s: seq<Byte>): Byte
    requires |s| == LENGTH_BEGIN
  {
    s[BEGIN_CODE_SCHEME]
  }

  // ---------------------------------------------------------------------------
  // Readers

  /** `msisdn()`: the loop over [22, 43) that stops at a zero byte. */
  method ReadMsisdn(p: StaticBuffer) returns (r: seq<Byte>)
    requires p.data.Length == LENGTH_BEGIN
    ensures r == Msisdn(p.data[..]) && |r| <= 21
  {
    r := Functions.ScanCString(p.data[..], BEGIN_MSISDN, BEGIN_SERVICE_CODE);
  }

  /** `service_code()`: the loop over [43, 64) that stops at a zero byte. */
  method ReadServiceCode(p: StaticBuffer) returns (r: seq<Byte>)
    requires p.data.Length == LENGTH_BEGIN
    ensures r == ServiceCode(p.data[..]) && |r| <= 21
  {
    r := Functions.ScanCString(p.data[..], BEGIN_SERVICE_CODE, BEGIN_CODE_SCHEME);
  }

  /** `ussd_content()`: the loop from 65 to the capacity that stops at a zero byte. */
  method ReadUssdContent(p: StaticBuffer) returns (r: seq<Byte>)
    requires p.data.Length == LENGTH_BEGIN
    ensures r == UssdContent(p.data[..]) && |r| <= LENGTH_BEGIN - BEGIN_USSD_CONTENT
  {
    r := Functions.ScanCString(p.data[..], BEGIN_USSD_CONTENT, LENGTH_BEGIN);
  }

  /** `msisdn(dest)`: `dest` cleared, then the 21 raw bytes of [22, 43) copied in. */
  method MsisdnInto(p: StaticBuffer, dest: array<Byte>)
    requires p.data.Length == LENGTH_BEGIN && p.data != dest && 21 <= dest.Length
    modifies dest
    ensures dest[..] == CopiedOut(old(dest[..]), dest.Length, p.data[BEGIN_MSISDN..BEGIN_SERVICE_CODE])
  {
    CopyOut(p.data, BEGIN_MSISDN, dest, dest.Length, 21);
  }

  /** `service_code(dest)`: `dest` cleared, then the 21 raw bytes of [43, 64) copied in. */
  method ServiceCodeInto(p: StaticBuffer, dest: array<Byte>)
    requires p.data.Length == LENGTH_BEGIN && p.data != dest && 21 <= dest.Length
    modifies dest
    ensures dest[..] == CopiedOut(old(dest[..]), dest.Length, p.data[BEGIN_SERVICE_CODE..BEGIN_CODE_SCHEME])
  {
    CopyOut(p.data, BEGIN_SERVICE_CODE, dest, dest.Length, 21);
  }

  /**
   * `ussd_content(dest, sz)` (and `ussd_content(dest)` with sz = N): `sz` bytes
   * of `dest` cleared, then `command_len() - 65` bytes copied from 65. The copy
   * is unchecked, so the length word must keep it inside both buffers.
   */
  method UssdContentInto(p: StaticBuffer, dest: array<Byte>, sz: nat)
    requires p.data.Length == LENGTH_BEGIN && p.data != dest
    requires BEGIN_USSD_CONTENT + ContentLength(p.data[..], BEGIN_USSD_CONTENT) <= LENGTH_BEGIN
    requires ContentLength(p.data[..], BEGIN_USSD_CONTENT) <= dest.Length && sz <= dest.Length
    modifies dest
    ensures dest[..] == CopiedOut(old(dest[..]), sz,
                                  p.data[BEGIN_USSD_CONTENT..BEGIN_USSD_CONTENT + ContentLength(p.data[..], BEGIN_USSD_CONTENT)])
  {
    ContentInto(p, BEGIN_USSD_CONTENT, dest, sz);
  }

  // ---------------------------------------------------------------------------
  // Setters (both overloads: a string_view passes sz = |v|)

  /** `set_msisdn(v, sz)`: `assign_n` over [22, 43). */
  method SetMsisdn(p: StaticBuffer, v: seq<Byte>, sz: nat)
    requires p.data.Length == LENGTH_BEGIN && Min(sz, 21) <= |v|
    modifies p.data
    ensures p.data[..] == Splice(old(p.data[..]), BEGIN_MSISDN, BEGIN_SERVICE_CODE, v, sz)
  {
    p.AssignN(v, sz, BEGIN_MSISDN, BEGIN_SERVICE_CODE);
  }

  /** `set_service_code(v, sz)`: `assign_n` over [43, 64). */
  method SetServiceCode(p: StaticBuffer, v: seq<Byte>, sz: nat)
    requires p.data.Length == LENGTH_BEGIN && Min(sz, 21) <= |v|
    modifies p.data
    ensures p.data[..] == Splice(old(p.data[..]), BEGIN_SERVICE_CODE, BEGIN_CODE_SCHEME, v, sz)
  {
    p.AssignN(v, sz, BEGIN_SERVICE_CODE, BEGIN_CODE_SCHEME);
  }

  /** `set_ussd_content(v, sz)`: `assign_n` over [65, 247), at most 182 bytes. */
  method SetUssdContent(p: StaticBuffer, v: seq<Byte>, sz: nat)
    requires p.data.Length == LENGTH_BEGIN && Min(sz, CONTENT_WIDTH) <= |v|
    modifies p.data
    ensures p.data[..] == Splice(old(p.data[..]), BEGIN_USSD_CONTENT, BEGIN_USSD_CONTENT + CONTENT_WIDTH, v, sz)
  {
    p.AssignN(v, sz, BEGIN_USSD_CONTENT, BEGIN_USSD_CONTENT + CONTENT_WIDTH);
  }

  /** `set_ussd_ver(v)`: the byte at 20, read back by `ussd_ver()`. */
  method SetUssdVer(p: StaticBuffer, v: Byte)
    requires p.data.Length == LENGTH_BEGIN
    modifies p.data
    ensures p.data[..] == old(p.data[..])[BEGIN_USSD_VERSION := v] && UssdVer(p.data[..]) == v
  {
    p.Assign8(v, BEGIN_USSD_VERSION);
  }

  /** `set_ussd_op_type(v)`: the byte at 21, read back by `ussd_op_type()`. */
  method SetUssdOpType(p: StaticBuffer, v: Byte)
    requires p.data.Length == LENGTH_BEGIN
    modifies p.data
    ensures p.data[..] == old(p.data[..])[BEGIN_USSD_OP_TYPE := v] && UssdOpType(p.data[..]) == v
  {
    p.Assign8(v, BEGIN_USSD_OP_TYPE);
  }

  /** `set_code_scheme(v)`: the byte at 64, read back by `code_scheme()`. */
  method SetCodeScheme(p: StaticBuffer, v: Byte)
    requires p.data.Length == LENGTH_BEGIN
    modifies p.data
    ensures p.data[..] == old(p.data[..])[BEGIN_CODE_SCHEME := v] && CodeScheme(p.data[..]) == v
  {
    p.Assign8(v, BEGIN_CODE_SCHEME);
  }

  // ---------------------------------------------------------------------------
  // Operation-type tests

  predicate OpTypeUssr(s: seq<Byte>) requires |s| == LENGTH_BEGIN { UssdOpType(s) == USSR }
  predicate OpTypeUssn(s: seq<Byte>) requires |s| == LENGTH_BEGIN { UssdOpType(s) == USSN }
  predicate OpTypeUssdcResp(s: seq<Byte>) requires |s| == LENGTH_BEGIN { UssdOpType(s) == USSDC_RESP }
  predicate OpTypeEndRelease(s: seq<Byte>) requires |s| == LENGTH_BEGIN { UssdOpType(s) == RELEASE_REQ }

  /**
   * After `set_ussd_op_type(v)` exactly the test named by `v` holds when v is
   * 1..4, and none of them when it is anything else.
   */
  lemma OpTypeAfterSet(s: seq<Byte>, v: Byte)
    requires |s| == LENGTH_BEGIN
    ensures var t := s[BEGIN_USSD_OP_TYPE := v];
      && (OpTypeUssr(t) <==> v == 1) && (OpTypeUssn(t) <==> v == 2)
      && (OpTypeUssdcResp(t) <==> v == 3) && (OpTypeEndRelease(t) <==> v == 4)
      && (OpTypeUssr(t) || OpTypeUssn(t) || OpTypeUssdcResp(t) || OpTypeEndRelease(t) <==> 1 <= v <= 4)
  {
  }

  // ---------------------------------------------------------------------------
  // Round trips and independence of the fields

  /**
   * `set_msisdn(v, sz)` then `msisdn()` yields the copied prefix of `v` up to
   * its first zero byte, which is all of it when it holds no zero; the service
   * code and the content read as before.
   */
  lemma MsisdnRoundTrip(s: seq<Byte>, v: seq<Byte>, sz: nat)
    requires |s| == LENGTH_BEGIN && Min(sz, 21) <= |v|
    ensures var t := Splice(s, BEGIN_MSISDN, BEGIN_SERVICE_CODE, v, sz);
      && Msisdn(t) == CStringAt(v[..Min(sz, 21)], 0, 21)
      && (ZeroFree(v[..Min(sz, 21)]) ==> Msisdn(t) == v[..Min(sz, 21)])
      && ServiceCode(t) == ServiceCode(s) && UssdContent(t) == UssdContent(s)
  {
    var t := Splice(s, BEGIN_MSISDN, BEGIN_SERVICE_CODE, v, sz);
    SpliceThenReadPrefix(s, BEGIN_MSISDN, BEGIN_SERVICE_CODE, v, sz);
    if ZeroFree(v[..Min(sz, 21)]) {
      ZeroFreeReadsWhole(v[..Min(sz, 21)], 21);
    }
    CStringAtLocal(t, s, BEGIN_SERVICE_CODE, BEGIN_CODE_SCHEME);
    CStringAtLocal(t, s, BEGIN_USSD_CONTENT, LENGTH_BEGIN);
  }

  /** The same for `set_service_code(v, sz)` and `service_code()`; the MSISDN and content are kept. */
  lemma ServiceCodeRoundTrip(s: seq<Byte>, v: seq<Byte>, sz: nat)
    requires |s| == LENGTH_BEGIN && Min(sz, 21) <= |v|
    ensures var t := Splice(s, BEGIN_SERVICE_CODE, BEGIN_CODE_SCHEME, v, sz);
      && ServiceCode(t) == CStringAt(v[..Min(sz, 21)], 0, 21)
      && (ZeroFree(v[..Min(sz, 21)]) ==> ServiceCode(t) == v[..Min(sz, 21)])
      && Msisdn(t) == Msisdn(s) && UssdContent(t) == UssdContent(s)
  {
    var t := Splice(s, BEGIN_SERVICE_CODE, BEGIN_CODE_SCHEME, v, sz);
    SpliceThenReadPrefix(s, BEGIN_SERVICE_CODE, BEGIN_CODE_SCHEME, v, sz);
    if ZeroFree(v[..Min(sz, 21)]) {
      ZeroFreeReadsWhole(v[..Min(sz, 21)], 21);
    }
    CStringAtLocal(t, s, BEGIN_MSISDN, BEGIN_SERVICE_CODE);
    CStringAtLocal(t, s, BEGIN_USSD_CONTENT, LENGTH_BEGIN);
  }

  /**
   * `set_ussd_content(c)` then `ussd_content()` yields `c` when `c` is
   * zero-free and shorter than 182 bytes: the zero fill ends the read. The
   * MSISDN and service code are kept.
   */
  lemma UssdContentRoundTrip(s: seq<Byte>, c: seq<Byte>)
    requires |s| == LENGTH_BEGIN && ZeroFree(c) && |c| < CONTENT_WIDTH
    ensures var t := Splice(s, BEGIN_USSD_CONTENT, BEGIN_USSD_CONTENT + CONTENT_WIDTH, c, |c|);
      && UssdContent(t) == c
      && Msisdn(t) == Msisdn(s) && ServiceCode(t) == ServiceCode(s)
  {
    var t := Splice(s, BEGIN_USSD_CONTENT, BEGIN_USSD_CONTENT + CONTENT_WIDTH, c, |c|);
    assert t[BEGIN_USSD_CONTENT..BEGIN_USSD_CONTENT + |c|] == c;
    assert t[BEGIN_USSD_CONTENT + |c|] == 0;
    CStringAtUnique(t, BEGIN_USSD_CONTENT, |t|, c);
    CStringAtLocal(t, s, BEGIN_MSISDN, BEGIN_SERVICE_CODE);
    CStringAtLocal(t, s, BEGIN_SERVICE_CODE, BEGIN_CODE_SCHEME);
  }
}
