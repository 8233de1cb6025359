/**
 * The bind family: `basic_bind_resp` and `basic_bind_msg`, 64-byte PDUs with
 * the system id [20, 31), the password [31, 40), the system type [40, 53) and
 * the interface version word at 53; and `generic_header_t<CMD>`, the 20-byte
 * header-only PDUs (Shake, ShakeResp, UnBind, UnBindResp).
 */
module Login {
  import opened Bytes
  import opened Buffer
  import opened Types
  import Functions

  /** Capacity of `basic_bind_resp` and `basic_bind_msg`. */
  const LENGTH_BIND: nat := 64
  /** Capacity of `generic_header_t`. */
  const LENGTH_GENERIC: nat := 20
  /** `OxFFFFFFFF`, the sender and receiver id of a header-only PDU. */
  const ALL_ONES: U32 := 0xFFFF_FFFF

  /** What `system_id()` returns: bytes from 20 up to the first zero, at most 11. */
  function SystemId(s: seq<Byte>): seq<Byte>
  {
    CStringAt(s, BIND_SYSTEM_ID, BIND_PASSWORD)
  }

  /** What `password()` returns: bytes from 31 up to the first zero, at most 9. */
  function Password(s: seq<Byte>): seq<Byte>
  {
    CStringAt(s, BIND_PASSWORD, BIND_SYSTEM_TYPE)
  }

  /** The bytes of the system type field (it has no string getter). */
  function SystemTypeBytes(s: seq<Byte>): seq<Byte>
    requires |s| == LENGTH_BIND
  {
    s[BIND_SYSTEM_TYPE..BIND_INTERFACE_VERSION]
  }

  /** `interface_ver()`: the raw word at 53. */
  function InterfaceVer(s: seq<Byte>): U32
    requires |s| == LENGTH_BIND
  {
    GetU32(s, BIND_INTERFACE_VERSION)
  }

  // ---------------------------------------------------------------------------
  // basic_bind_resp / basic_bind_msg

  /** `system_id()` (both classes loop over [20, 31) and stop at a zero byte). */
  method ReadSystemId(p: StaticBuffer) returns (r: seq<Byte>)
    requires p.data.Length == LENGTH_BIND
    ensures r == SystemId(p.data[..]) && |r| <= 11
  {
    r := Functions.ScanCString(p.data[..], BIND_SYSTEM_ID, BIND_PASSWORD);
  }

  /** `password()`: the loop over [31, 40). */
  method ReadPassword(p: StaticBuffer) returns (r: seq<Byte>)
    requires p.data.Length == LENGTH_BIND
    ensures r == Password(p.data[..]) && |r| <= 9
  {
    r := Functions.ScanCString(p.data[..], BIND_PASSWORD, BIND_SYSTEM_TYPE);
  }

  /**
   * `set_system_id(id, sz)`, and the array and string_view overloads with sz
   * the array's or view's size: `assign_n` over [20, 31).
   */
  method SetSystemId(p: StaticBuffer, v: seq<Byte>, sz: nat)
    requires p.data.Length == LENGTH_BIND && Min(sz, 11) <= |v|
    modifies p.data
    ensures p.data[..] == Splice(old(p.data[..]), BIND_SYSTEM_ID, BIND_PASSWORD, v, sz)
  {
    p.AssignN(v, sz, BIND_SYSTEM_ID, BIND_PASSWORD);
  }

  /** `set_password(pass, sz)` / `set_password(string_view)`: `assign_n` over [31, 40). */
  method SetPassword(p: StaticBuffer, v: seq<Byte>, sz: nat)
    requires p.data.Length == LENGTH_BIND && Min(sz, 9) <= |v|
    modifies p.data
    ensures p.data[..] == Splice(old(p.data[..]), BIND_PASSWORD, BIND_SYSTEM_TYPE, v, sz)
  {
    p.AssignN(v, sz, BIND_PASSWORD, BIND_SYSTEM_TYPE);
  }

  /** `set_system_type(tp, sz)` / `set_system_type(string_view)`: `assign_n` over [40, 53). */
  method SetSystemType(p: StaticBuffer, v: seq<Byte>, sz: nat)
    requires p.data.Length == LENGTH_BIND && Min(sz, 13) <= |v|
    modifies p.data
    ensures p.data[..] == Splice(old(p.data[..]), BIND_SYSTEM_TYPE, BIND_INTERFACE_VERSION, v, sz)
  {
    p.AssignN(v, sz, BIND_SYSTEM_TYPE, BIND_INTERFACE_VERSION);
  }

  /** `set_interface_ver(iv)`: `memcpy` of the word to 53; `interface_ver()` reads it back. */
  method SetInterfaceVer(p: StaticBuffer, iv: U32)
    requires p.data.Length == LENGTH_BIND
    modifies p.data
    ensures p.data[..] == PutU32(old(p.data[..]), BIND_INTERFACE_VERSION, iv)
    ensures InterfaceVer(p.data[..]) == iv
  {
    p.Assign32(iv, BIND_INTERFACE_VERSION);
  }

  /**
   * `set_system_id(v)` then `system_id()` yields the first 11 bytes of `v` up
   * to its first zero, all of them when zero-free; the password and the
   * interface version are kept.
   */
  lemma SystemIdRoundTrip(s: seq<Byte>, v: seq<Byte>, sz: nat)
    requires |s| == LENGTH_BIND && Min(sz, 11) <= |v|
    ensures var t := Splice(s, BIND_SYSTEM_ID, BIND_PASSWORD, v, sz);
      && SystemId(t) == CStringAt(v[..Min(sz, 11)], 0, 11)
      && (ZeroFree(v[..Min(sz, 11)]) ==> SystemId(t) == v[..Min(sz, 11)])
      && Password(t) == Password(s) && InterfaceVer(t) == InterfaceVer(s)
  {
    var t := Splice(s, BIND_SYSTEM_ID, BIND_PASSWORD, v, sz);
    SpliceThenReadPrefix(s, BIND_SYSTEM_ID, BIND_PASSWORD, v, sz);
    if ZeroFree(v[..Min(sz, 11)]) {
      ZeroFreeReadsWhole(v[..Min(sz, 11)], 11);
    }
    CStringAtLocal(t, s, BIND_PASSWORD, BIND_SYSTEM_TYPE);
    GetU32Local(t, s, BIND_INTERFACE_VERSION);
  }

  /** `set_password(p)` then `password()` yields `p` when it is zero-free and at most 9 bytes; the system id is kept. */
  lemma PasswordRoundTrip(s: seq<Byte>, v: seq<Byte>, sz: nat)
    requires |s| == LENGTH_BIND && Min(sz, 9) <= |v|
    ensures var t := Splice(s, BIND_PASSWORD, BIND_SYSTEM_TYPE, v, sz);
      && Password(t) == CStringAt(v[..Min(sz, 9)], 0, 9)
      && (ZeroFree(v[..Min(sz, 9)]) ==> Password(t) == v[..Min(sz, 9)])
      && SystemId(t) == SystemId(s) && InterfaceVer(t) == InterfaceVer(s)
  {
    var t := Splice(s, BIND_PASSWORD, BIND_SYSTEM_TYPE, v, sz);
    SpliceThenReadPrefix(s, BIND_PASSWORD, BIND_SYSTEM_TYPE, v, sz);
    if ZeroFree(v[..Min(sz, 9)]) {
      ZeroFreeReadsWhole(v[..Min(sz, 9)], 9);
    }
    CStringAtLocal(t, s, BIND_SYSTEM_ID, BIND_PASSWORD);
    GetU32Local(t, s, BIND_INTERFACE_VERSION);
  }

  /**
   * `set_system_type` writes only [40, 53): the system id, the password, the
   * interface version and the header read as before, and the field holds the
   * copied prefix of `v` followed by zeros.
   */
  lemma SystemTypeFrame(s: seq<Byte>, v: seq<Byte>, sz: nat)
    requires |s| == LENGTH_BIND && Min(sz, 13) <= |v|
    ensures var t := Splice(s, BIND_SYSTEM_TYPE, BIND_INTERFACE_VERSION, v, sz);
      && SystemId(t) == SystemId(s) && Password(t) == Password(s)
      && InterfaceVer(t) == InterfaceVer(s) && t[..HEADER_LEN] == s[..HEADER_LEN]
      && SystemTypeBytes(t) == v[..Min(sz, 13)] + Zeros(13 - Min(sz, 13))
  {
    var t := Splice(s, BIND_SYSTEM_TYPE, BIND_INTERFACE_VERSION, v, sz);
    CStringAtLocal(t, s, BIND_SYSTEM_ID, BIND_PASSWORD);
    CStringAtLocal(t, s, BIND_PASSWORD, BIND_SYSTEM_TYPE);
    GetU32Local(t, s, BIND_INTERFACE_VERSION);
    assert SystemTypeBytes(t) == v[..Min(sz, 13)] + Zeros(13 - Min(sz, 13));
  }

  /** `set_interface_ver` changes bytes 53..56 only: the three strings read as before. */
  lemma InterfaceVerFrame(s: seq<Byte>, iv: U32)
    requires |s| == LENGTH_BIND
    ensures var t := PutU32(s, BIND_INTERFACE_VERSION, iv);
      && InterfaceVer(t) == iv && SystemId(t) == SystemId(s) && Password(t) == Password(s)
      && SystemTypeBytes(t) == SystemTypeBytes(s)
  {
    var t := PutU32(s, BIND_INTERFACE_VERSION, iv);
    GetPutU32(s, BIND_INTERFACE_VERSION, iv);
    CStringAtLocal(t, s, BIND_SYSTEM_ID, BIND_PASSWORD);
    CStringAtLocal(t, s, BIND_PASSWORD, BIND_SYSTEM_TYPE);
  }

  // ---------------------------------------------------------------------------
  // generic_header_t<CMD>

  /**
   * The bytes of a default-constructed `generic_header_t<CMD>`: length 20, the
   * id, status 0, receiver and sender all ones, in that order, then encoded.
   */
  function GenericHeader(id: U32): (r: seq<Byte>)
    ensures |r| == LENGTH_GENERIC
  {
    var h0 := Zeros(LENGTH_GENERIC);
    var h1 := SetHeaderWord(h0, CommandLength, LENGTH_GENERIC);
    var h2 := SetHeaderWord(h1, CommandId, id);
    var h3 := SetHeaderWord(h2, CommandStatus, 0);
    var h4 := SetHeaderWord(h3, ReceiverId, ALL_ONES);
    var h5 := SetHeaderWord(h4, SenderId, ALL_ONES);
    SwapHeader(h5)
  }

  /** `generic_header_t<CMD>()`: a fresh 20-byte buffer, the five setters, then `encode_header()`. */
  method NewGenericHeader(cmd: Command) returns (p: StaticBuffer)
    ensures fresh(p) && fresh(p.data) && p.offset == 0
    ensures p.data[..] == GenericHeader(Code(cmd))
  {
    p := new StaticBuffer.Default(LENGTH_GENERIC);
    SetHeader(p, CommandLength, LENGTH_GENERIC);
    SetHeader(p, CommandId, Code(cmd));
    SetHeader(p, CommandStatus, 0);
    SetHeader(p, ReceiverId, ALL_ONES);
    SetHeader(p, SenderId, ALL_ONES);
    EncodeHeader(p);
  }

  /**
   * Decoding a header-only PDU gives back exactly the values the constructor
   * set; on the wire each word is the byte-reversed value.
   */
  lemma GenericHeaderDecodes(id: U32)
    ensures var d := SwapHeader(GenericHeader(id));
      && HeaderWord(d, CommandLength) == LENGTH_GENERIC && HeaderWord(d, CommandId) == id
      && HeaderWord(d, CommandStatus) == 0
      && HeaderWord(d, SenderId) == ALL_ONES && HeaderWord(d, ReceiverId) == ALL_ONES
    ensures HeaderWord(GenericHeader(id), CommandId) == Bswap32(id)
  {
    var h0 := Zeros(LENGTH_GENERIC);
    var h1 := SetHeaderWord(h0, CommandLength, LENGTH_GENERIC);
    var h2 := SetHeaderWord(h1, CommandId, id);
    var h3 := SetHeaderWord(h2, CommandStatus, 0);
    var h4 := SetHeaderWord(h3, ReceiverId, ALL_ONES);
    var h5 := SetHeaderWord(h4, SenderId, ALL_ONES);
    assert GenericHeader(id) == SwapHeader(h5);
    SwapHeaderInvolutive(h5);
    ReadBackFive(h0, id);
    SwapHeaderWord(h5, CommandId);
  }

  /** The five setter calls of the constructor, read back field by field. */
  lemma ReadBackFive(h0: seq<Byte>, id: U32)
    requires |h0| == LENGTH_GENERIC
    ensures var h5 := SetHeaderWord(SetHeaderWord(SetHeaderWord(SetHeaderWord(SetHeaderWord(
              h0, CommandLength, LENGTH_GENERIC), CommandId, id), CommandStatus, 0), ReceiverId, ALL_ONES), SenderId, ALL_ONES);
      && HeaderWord(h5, CommandLength) == LENGTH_GENERIC && HeaderWord(h5, CommandId) == id
      && HeaderWord(h5, CommandStatus) == 0
      && HeaderWord(h5, SenderId) == ALL_ONES && HeaderWord(h5, ReceiverId) == ALL_ONES
  {
    var h1 := SetHeaderWord(h0, CommandLength, LENGTH_GENERIC);
    var h2 := SetHeaderWord(h1, CommandId, id);
    var h3 := SetHeaderWord(h2, CommandStatus, 0);
    var h4 := SetHeaderWord(h3, ReceiverId, ALL_ONES);
    SetHeaderWordThenRead(h0, CommandLength, LENGTH_GENERIC, CommandLength);
    SetHeaderWordThenRead(h1, CommandId, id, CommandLength);
    SetHeaderWordThenRead(h1, CommandId, id, CommandId);
    SetHeaderWordThenRead(h2, CommandStatus, 0, CommandLength);
    SetHeaderWordThenRead(h2, CommandStatus, 0, CommandId);
    SetHeaderWordThenRead(h2, CommandStatus, 0, CommandStatus);
    SetHeaderWordThenRead(h3, ReceiverId, ALL_ONES, CommandLength);
    SetHeaderWordThenRead(h3, ReceiverId, ALL_ONES, CommandId);
    SetHeaderWordThenRead(h3, ReceiverId, ALL_ONES, CommandStatus);
    SetHeaderWordThenRead(h3, ReceiverId, ALL_ONES, ReceiverId);
    SetHeaderWordThenRead(h4, SenderId, ALL_ONES, CommandLength);
    SetHeaderWordThenRead(h4, SenderId, ALL_ONES, CommandId);
    SetHeaderWordThenRead(h4, SenderId, ALL_ONES, CommandStatus);
    SetHeaderWordThenRead(h4, SenderId, ALL_ONES, ReceiverId);
    SetHeaderWordThenRead(h4, SenderId, ALL_ONES, SenderId);
  }
}
