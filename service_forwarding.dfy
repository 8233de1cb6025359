/**
 * `basic_switch_msg`: the 268-byte Switch PDU. After the header come the
 * switch mode (byte 20), the MSISDN [21, 42), the originating service code
 * [42, 63), the destination service code [63, 84) and the USSD content from
 * 84, which its setter fills over [84, 266).
 */
module SwitchMsg {
  import opened Bytes
  import opened Buffer
  import opened Types

  /** Capacity of both service-forwarding PDUs. */
  const LENGTH_SWITCH: nat := 268
  /** Width of the MSISDN and service-code fields. */
  const FIELD_WIDTH: nat := 21
  /** `set_ussd_content` fills this many bytes from the content offset. */
  const CONTENT_WIDTH: nat := 182

  function SwitchMode(s: seq<Byte>): Byte
    requires |s| == LENGTH_SWITCH
  {
    s[SWITCH_MODE]
  }

  /** `set_switch_mode(m)`: the byte at 20, read back by `switch_mode()`. */
  method SetSwitchMode(p: StaticBuffer, m: Byte)
    requires p.data.Length == LENGTH_SWITCH
    modifies p.data
    ensures p.data[..] == old(p.data[..])[SWITCH_MODE := m] && SwitchMode(p.data[..]) == m
  {
    p.Assign8(m, SWITCH_MODE);
  }

  /** `set_msisdn(v, sz)`: `assign_n` over [21, 42). */
  method SetMsisdn(p: StaticBuffer, v: seq<Byte>, sz: nat)
    requires p.data.Length == LENGTH_SWITCH && Min(sz, FIELD_WIDTH) <= |v|
    modifies p.data
    ensures p.data[..] == Splice(old(p.data[..]), SWITCH_MSISDN, SWITCH_ORG_SERVICE_CODE, v, sz)
  {
    p.AssignN(v, sz, SWITCH_MSISDN, SWITCH_ORG_SERVICE_CODE);
  }

  /** `set_originating_SC(v, sz)`: `assign_n` over [42, 63). */
  method SetOriginatingSc(p: StaticBuffer, v: seq<Byte>, sz: nat)
    requires p.data.Length == LENGTH_SWITCH && Min(sz, FIELD_WIDTH) <= |v|
    modifies p.data
    ensures p.data[..] == Splice(old(p.data[..]), SWITCH_ORG_SERVICE_CODE, SWITCH_DEST_SERVICE_CODE, v, sz)
  {
    p.AssignN(v, sz, SWITCH_ORG_SERVICE_CODE, SWITCH_DEST_SERVICE_CODE);
  }

  /** `set_destination_SC(v, sz)`: `assign_n` over [63, 84). */
  method SetDestinationSc(p: StaticBuffer, v: seq<Byte>, sz: nat)
    requires p.data.Length == LENGTH_SWITCH && Min(sz, FIELD_WIDTH) <= |v|
    modifies p.data
    ensures p.data[..] == Splice(old(p.data[..]), SWITCH_DEST_SERVICE_CODE, SWITCH_USSD_CONTENT, v, sz)
  {
    p.AssignN(v, sz, SWITCH_DEST_SERVICE_CODE, SWITCH_USSD_CONTENT);
  }

  /** `set_ussd_content(v, sz)`: `assign_n` over [84, 266), at most 182 bytes. */
  method SetUssdContent(p: StaticBuffer, v: seq<Byte>, sz: nat)
    requires p.data.Length == LENGTH_SWITCH && Min(sz, CONTENT_WIDTH) <= |v|
    modifies p.data
    ensures p.data[..] == Splice(old(p.data[..]), SWITCH_USSD_CONTENT, SWITCH_USSD_CONTENT + CONTENT_WIDTH, v, sz)
  {
    p.AssignN(v, sz, SWITCH_USSD_CONTENT, SWITCH_USSD_CONTENT + CONTENT_WIDTH);
  }

  /** `msisdn(dest)`: `dest` cleared, then the 21 raw bytes from 21 copied in. */
  method MsisdnInto(p: StaticBuffer, dest: array<Byte>)
    requires p.data.Length == LENGTH_SWITCH && p.data != dest && FIELD_WIDTH <= dest.Length
    modifies dest
    ensures dest[..] == CopiedOut(old(dest[..]), dest.Length, p.data[SWITCH_MSISDN..SWITCH_ORG_SERVICE_CODE])
  {
    CopyOut(p.data, SWITCH_MSISDN, dest, dest.Length, FIELD_WIDTH);
  }

  /** `originating_SC(dest)`: the 21 raw bytes from 42. */
  method OriginatingScInto(p: StaticBuffer, dest: array<Byte>)
    requires p.data.Length == LENGTH_SWITCH && p.data != dest && FIELD_WIDTH <= dest.Length
    modifies dest
    ensures dest[..] == CopiedOut(old(dest[..]), dest.Length, p.data[SWITCH_ORG_SERVICE_CODE..SWITCH_DEST_SERVICE_CODE])
  {
    CopyOut(p.data, SWITCH_ORG_SERVICE_CODE, dest, dest.Length, FIELD_WIDTH);
  }

  /** `destination_SC(dest)`: the 21 raw bytes from 63. */
  method DestinationScInto(p: StaticBuffer, dest: array<Byte>)
    requires p.data.Length == LENGTH_SWITCH && p.data != dest && FIELD_WIDTH <= dest.Length
    modifies dest
    ensures dest[..] == CopiedOut(old(dest[..]), dest.Length, p.data[SWITCH_DEST_SERVICE_CODE..SWITCH_USSD_CONTENT])
  {
    CopyOut(p.data, SWITCH_DEST_SERVICE_CODE, dest, dest.Length, FIELD_WIDTH);
  }

  /**
   * `ussd_content(dest, sz)`: `sz` bytes of `dest` cleared, then
   * `command_len() - 84` bytes copied from 84; the copy is unchecked.
   */
  method UssdContentInto(p: StaticBuffer, dest: array<Byte>, sz: nat)
    requires p.data.Length == LENGTH_SWITCH && p.data != dest
    requires SWITCH_USSD_CONTENT + ContentLength(p.data[..], SWITCH_USSD_CONTENT) <= LENGTH_SWITCH
    requires ContentLength(p.data[..], SWITCH_USSD_CONTENT) <= dest.Length && sz <= dest.Length
    modifies dest
    ensures dest[..] == CopiedOut(old(dest[..]), sz,
                                  p.data[SWITCH_USSD_CONTENT..SWITCH_USSD_CONTENT + ContentLength(p.data[..], SWITCH_USSD_CONTENT)])
  {
    ContentInto(p, SWITCH_USSD_CONTENT, dest, sz);
  }

  /**
   * What a field getter copies out after its setter ran: the copied prefix
   * of the value, then zeros to the field's width. The four fields and the
   * switch mode are disjoint: each setter leaves the others' bytes alone.
   */
  lemma FieldsRoundTrip(s: seq<Byte>, v: seq<Byte>, sz: nat)
    requires |s| == LENGTH_SWITCH && Min(sz, FIELD_WIDTH) <= |v|
    ensures var t := Splice(s, SWITCH_MSISDN, SWITCH_ORG_SERVICE_CODE, v, sz);
      && t[SWITCH_MSISDN..SWITCH_ORG_SERVICE_CODE] == SpliceWindow(v, sz, FIELD_WIDTH)
      && t[SWITCH_ORG_SERVICE_CODE..] == s[SWITCH_ORG_SERVICE_CODE..] && SwitchMode(t) == SwitchMode(s)
    ensures var t := Splice(s, SWITCH_ORG_SERVICE_CODE, SWITCH_DEST_SERVICE_CODE, v, sz);
      && t[SWITCH_ORG_SERVICE_CODE..SWITCH_DEST_SERVICE_CODE] == SpliceWindow(v, sz, FIELD_WIDTH)
      && t[..SWITCH_ORG_SERVICE_CODE] == s[..SWITCH_ORG_SERVICE_CODE]
      && t[SWITCH_DEST_SERVICE_CODE..] == s[SWITCH_DEST_SERVICE_CODE..]
    ensures var t := Splice(s, SWITCH_DEST_SERVICE_CODE, SWITCH_USSD_CONTENT, v, sz);
      && t[SWITCH_DEST_SERVICE_CODE..SWITCH_USSD_CONTENT] == SpliceWindow(v, sz, FIELD_WIDTH)
      && t[..SWITCH_DEST_SERVICE_CODE] == s[..SWITCH_DEST_SERVICE_CODE]
      && t[SWITCH_USSD_CONTENT..] == s[SWITCH_USSD_CONTENT..]
  {
    SpliceWindowIs(s, SWITCH_MSISDN, SWITCH_ORG_SERVICE_CODE, v, sz);
    SpliceWindowIs(s, SWITCH_ORG_SERVICE_CODE, SWITCH_DEST_SERVICE_CODE, v, sz);
    SpliceWindowIs(s, SWITCH_DEST_SERVICE_CODE, SWITCH_USSD_CONTENT, v, sz);
  }

  /** `set_ussd_content` fills [84, 266) and keeps every byte before and after it, the last two included. */
  lemma ContentRoundTrip(s: seq<Byte>, v: seq<Byte>, sz: nat)
    requires |s| == LENGTH_SWITCH && Min(sz, CONTENT_WIDTH) <= |v|
    ensures var t := Splice(s, SWITCH_USSD_CONTENT, SWITCH_USSD_CONTENT + CONTENT_WIDTH, v, sz);
      && t[SWITCH_USSD_CONTENT..SWITCH_USSD_CONTENT + CONTENT_WIDTH] == SpliceWindow(v, sz, CONTENT_WIDTH)
      && t[..SWITCH_USSD_CONTENT] == s[..SWITCH_USSD_CONTENT]
      && t[SWITCH_USSD_CONTENT + CONTENT_WIDTH..] == s[SWITCH_USSD_CONTENT + CONTENT_WIDTH..]
      && SWITCH_USSD_CONTENT + CONTENT_WIDTH == LENGTH_SWITCH - 2
  {
    SpliceWindowIs(s, SWITCH_USSD_CONTENT, SWITCH_USSD_CONTENT + CONTENT_WIDTH, v, sz);
  }
}

/**
 * `basic_switch_begin_msg`: the 268-byte SwitchBegin PDU. After the header
 * come the USSD version (20), the operation type (21), the MSISDN [22, 43),
 * the originating service code [43, 64), the destination service code from 64,
 * the code scheme (85) and the USSD content from 86.
 */
module SwitchBeginMsg {
  import opened Bytes
  import opened Buffer
  import opened Types
  import SwitchMsg

  const LENGTH_SWITCH: nat := SwitchMsg.LENGTH_SWITCH
  const FIELD_WIDTH: nat := SwitchMsg.FIELD_WIDTH
  const CONTENT_WIDTH: nat := SwitchMsg.CONTENT_WIDTH

  function UssdVer(s: seq<Byte>): Byte
    requires |s| == LENGTH_SWITCH
  {
    s[SB_USSD_VERSION]
  }

  function UssdOpType(s: seq<Byte>): Byte
    requires |s| == LENGTH_SWITCH
  {
    s[SB_USSD_OP_TYPE]
  }

  function CodeScheme(s: seq<Byte>): Byte
    requires |s| == LENGTH_SWITCH
  {
    s[SB_CODE_SCHEME]
  }

  /** `set_ussd_ver(v)`: the byte at 20. */
  method SetUssdVer(p: StaticBuffer, v: Byte)
    requires p.data.Length == LENGTH_SWITCH
    modifies p.data
    ensures p.data[..] == old(p.data[..])[SB_USSD_VERSION := v] && UssdVer(p.data[..]) == v
  {
    p.Assign8(v, SB_USSD_VERSION);
  }

  /** `set_ussd_op_type(v)`: the byte at 21. */
  method SetUssdOpType(p: StaticBuffer, v: Byte)
    requires p.data.Length == LENGTH_SWITCH
    modifies p.data
    ensures p.data[..] == old(p.data[..])[SB_USSD_OP_TYPE := v] && UssdOpType(p.data[..]) == v
  {
    p.Assign8(v, SB_USSD_OP_TYPE);
  }

  /** `set_code_scheme(v)`: the byte at 85. */
  method SetCodeScheme(p: StaticBuffer, v: Byte)
    requires p.data.Length == LENGTH_SWITCH
    modifies p.data
    ensures p.data[..] == old(p.data[..])[SB_CODE_SCHEME := v] && CodeScheme(p.data[..]) == v
  {
    p.Assign8(v, SB_CODE_SCHEME);
  }

  /** `set_msisdn(v, sz)`: `assign_n` over [22, 43). */
  method SetMsisdn(p: StaticBuffer, v: seq<Byte>, sz: nat)
    requires p.data.Length == LENGTH_SWITCH && Min(sz, FIELD_WIDTH) <= |v|
    modifies p.data
    ensures p.data[..] == Splice(old(p.data[..]), SB_MSISDN, SB_ORG_SERVICE_CODE, v, sz)
  {
    p.AssignN(v, sz, SB_MSISDN, SB_ORG_SERVICE_CODE);
  }

  /** `set_originating_SC(v, sz)`: `assign_n` over [43, 64). */
  method SetOriginatingSc(p: StaticBuffer, v: seq<Byte>, sz: nat)
    requires p.data.Length == LENGTH_SWITCH && Min(sz, FIELD_WIDTH) <= |v|
    modifies p.data
    ensures p.data[..] == Splice(old(p.data[..]), SB_ORG_SERVICE_CODE, SB_DEST_SERVICE_CODE, v, sz)
  {
    p.AssignN(v, sz, SB_ORG_SERVICE_CODE, SB_DEST_SERVICE_CODE);
  }

  /**
   * `set_destination_SC(v, sz)` as written: `assign_n` from the destination
   * offset 64 to the content offset 86, a 22-byte range that takes in the
   * code-scheme byte at 85.
   */
  method SetDestinationSc(p: StaticBuffer, v: seq<Byte>, sz: nat)
    requires p.data.Length == LENGTH_SWITCH && Min(sz, SB_USSD_CONTENT - SB_DEST_SERVICE_CODE) <= |v|
    modifies p.data
    ensures p.data[..] == Splice(old(p.data[..]), SB_DEST_SERVICE_CODE, SB_USSD_CONTENT, v, sz)
  {
    p.AssignN(v, sz, SB_DEST_SERVICE_CODE, SB_USSD_CONTENT);
  }

  /**
   * `set_destination_SC` as the 21-byte field calls for: `assign_n` from 64 to
   * the code scheme at 85.
   */
  method SetDestinationScFixed(p: StaticBuffer, v: seq<Byte>, sz: nat)
    requires p.data.Length == LENGTH_SWITCH && Min(sz, FIELD_WIDTH) <= |v|
    modifies p.data
    ensures p.data[..] == Splice(old(p.data[..]), SB_DEST_SERVICE_CODE, SB_CODE_SCHEME, v, sz)
  {
    p.AssignN(v, sz, SB_DEST_SERVICE_CODE, SB_CODE_SCHEME);
  }

  /** `set_ussd_content(v, sz)`: `assign_n` over [86, 268), which ends at the capacity. */
  method SetUssdContent(p: StaticBuffer, v: seq<Byte>, sz: nat)
    requires p.data.Length == LENGTH_SWITCH && Min(sz, CONTENT_WIDTH) <= |v|
    modifies p.data
    ensures p.data[..] == Splice(old(p.data[..]), SB_USSD_CONTENT, SB_USSD_CONTENT + CONTENT_WIDTH, v, sz)
    ensures SB_USSD_CONTENT + CONTENT_WIDTH == LENGTH_SWITCH
  {
    p.AssignN(v, sz, SB_USSD_CONTENT, SB_USSD_CONTENT + CONTENT_WIDTH);
  }

  /** `msisdn(dest)`: the 21 raw bytes from 22. */
  method MsisdnInto(p: StaticBuffer, dest: array<Byte>)
    requires p.data.Length == LENGTH_SWITCH && p.data != dest && FIELD_WIDTH <= dest.Length
    modifies dest
    ensures dest[..] == CopiedOut(old(dest[..]), dest.Length, p.data[SB_MSISDN..SB_ORG_SERVICE_CODE])
  {
    CopyOut(p.data, SB_MSISDN, dest, dest.Length, FIELD_WIDTH);
  }

  /** `originating_SC(dest)`: the 21 raw bytes from 43. */
  method OriginatingScInto(p: StaticBuffer, dest: array<Byte>)
    requires p.data.Length == LENGTH_SWITCH && p.data != dest && FIELD_WIDTH <= dest.Length
    modifies dest
    ensures dest[..] == CopiedOut(old(dest[..]), dest.Length, p.data[SB_ORG_SERVICE_CODE..SB_DEST_SERVICE_CODE])
  {
    CopyOut(p.data, SB_ORG_SERVICE_CODE, dest, dest.Length, FIELD_WIDTH);
  }

  /** `destination_SC(dest)`: the 21 raw bytes from 64, which stop short of the code scheme. */
  method DestinationScInto(p: StaticBuffer, dest: array<Byte>)
    requires p.data.Length == LENGTH_SWITCH && p.data != dest && FIELD_WIDTH <= dest.Length
    modifies dest
    ensures dest[..] == CopiedOut(old(dest[..]), dest.Length, p.data[SB_DEST_SERVICE_CODE..SB_CODE_SCHEME])
  {
    CopyOut(p.data, SB_DEST_SERVICE_CODE, dest, dest.Length, FIELD_WIDTH);
  }

  /** `ussd_content(dest, sz)`: `command_len() - 86` bytes from 86; the copy is unchecked. */
  method UssdContentInto(p: StaticBuffer, dest: array<Byte>, sz: nat)
    requires p.data.Length == LENGTH_SWITCH && p.data != dest
    requires SB_USSD_CONTENT + ContentLength(p.data[..], SB_USSD_CONTENT) <= LENGTH_SWITCH
    requires ContentLength(p.data[..], SB_USSD_CONTENT) <= dest.Length && sz <= dest.Length
    modifies dest
    ensures dest[..] == CopiedOut(old(dest[..]), sz,
                                  p.data[SB_USSD_CONTENT..SB_USSD_CONTENT + ContentLength(p.data[..], SB_USSD_CONTENT)])
  {
    ContentInto(p, SB_USSD_CONTENT, dest, sz);
  }

  /**
   * The setter as written overwrites `code_scheme()`: afterwards it holds the
   * 22nd byte of the value when at least 22 were copied, and 0 otherwise,
   * whatever it was before.
   */
  lemma DestinationScClobbersCodeScheme(s: seq<Byte>, v: seq<Byte>, sz: nat)
    requires |s| == LENGTH_SWITCH && Min(sz, SB_USSD_CONTENT - SB_DEST_SERVICE_CODE) <= |v|
    ensures var t := Splice(s, SB_DEST_SERVICE_CODE, SB_USSD_CONTENT, v, sz);
      CodeScheme(t) == if sz > FIELD_WIDTH then v[FIELD_WIDTH] else 0
  {
  }

  /**
   * An instance: a 7-bit-coded SwitchBegin whose destination service code is
   * set from a 21-byte value reads back code scheme 0.
   */
  lemma DestinationScClobbersExample()
    ensures var s := Zeros(LENGTH_SWITCH)[SB_CODE_SCHEME := CODE_SCHEME_7BIT];
      var t := Splice(s, SB_DEST_SERVICE_CODE, SB_USSD_CONTENT, seq(21, _ => '1' as int), 21);
      CodeScheme(s) == CODE_SCHEME_7BIT && CodeScheme(t) == 0
  {
    var s := Zeros(LENGTH_SWITCH)[SB_CODE_SCHEME := CODE_SCHEME_7BIT];
    DestinationScClobbersCodeScheme(s, seq(21, _ => '1' as int), 21);
  }

  /**
   * The corrected setter writes the 21-byte field only: `destination_SC`
   * copies out the value's prefix and zeros, and the code scheme, the content
   * and everything before 64 are kept.
   */
  lemma DestinationScFixedKeepsCodeScheme(s: seq<Byte>, v: seq<Byte>, sz: nat)
    requires |s| == LENGTH_SWITCH && Min(sz, FIELD_WIDTH) <= |v|
    ensures var t := Splice(s, SB_DEST_SERVICE_CODE, SB_CODE_SCHEME, v, sz);
      && t[SB_DEST_SERVICE_CODE..SB_CODE_SCHEME] == SpliceWindow(v, sz, FIELD_WIDTH)
      && CodeScheme(t) == CodeScheme(s)
      && t[..SB_DEST_SERVICE_CODE] == s[..SB_DEST_SERVICE_CODE]
      && t[SB_CODE_SCHEME..] == s[SB_CODE_SCHEME..]
  {
    SpliceWindowIs(s, SB_DEST_SERVICE_CODE, SB_CODE_SCHEME, v, sz);
  }

  /** The other two string setters stay inside their own 21 bytes. */
  lemma FieldsRoundTrip(s: seq<Byte>, v: seq<Byte>, sz: nat)
    requires |s| == LENGTH_SWITCH && Min(sz, FIELD_WIDTH) <= |v|
    ensures var t := Splice(s, SB_MSISDN, SB_ORG_SERVICE_CODE, v, sz);
      && t[SB_MSISDN..SB_ORG_SERVICE_CODE] == SpliceWindow(v, sz, FIELD_WIDTH)
      && t[..SB_MSISDN] == s[..SB_MSISDN] && t[SB_ORG_SERVICE_CODE..] == s[SB_ORG_SERVICE_CODE..]
    ensures var t := Splice(s, SB_ORG_SERVICE_CODE, SB_DEST_SERVICE_CODE, v, sz);
      && t[SB_ORG_SERVICE_CODE..SB_DEST_SERVICE_CODE] == SpliceWindow(v, sz, FIELD_WIDTH)
      && t[..SB_ORG_SERVICE_CODE] == s[..SB_ORG_SERVICE_CODE] && t[SB_DEST_SERVICE_CODE..] == s[SB_DEST_SERVICE_CODE..]
  {
    SpliceWindowIs(s, SB_MSISDN, SB_ORG_SERVICE_CODE, v, sz);
    SpliceWindowIs(s, SB_ORG_SERVICE_CODE, SB_DEST_SERVICE_CODE, v, sz);
  }
}
