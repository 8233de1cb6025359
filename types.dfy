/**
 * The CUAP registry and header codec (`cuap::pdu` in types.h): command ids,
 * the field offsets of every PDU layout, and `basic_header`, the 20-byte
 * prefix every PDU shares. A header is five 32-bit words that the codec keeps
 * in host order while building and byte-reverses in place just before sending
 * (`encode_header`) and just after receiving (`decode_header`).
 */
module Types {
  import opened Wrappers
  import opened Bytes
  import opened Buffer

  const HEADER_LEN: nat := 20

  // BindBody
  const BIND_SYSTEM_ID: nat := 20
  const BIND_PASSWORD: nat := 31
  const BIND_SYSTEM_TYPE: nat := 40
  const BIND_INTERFACE_VERSION: nat := 53

  // BeginBody (Begin, Continue, End)
  const BEGIN_USSD_VERSION: nat := 20
  const BEGIN_USSD_OP_TYPE: nat := 21
  const BEGIN_MSISDN: nat := 22
  const BEGIN_SERVICE_CODE: nat := 43
  const BEGIN_CODE_SCHEME: nat := 64
  const BEGIN_USSD_CONTENT: nat := 65

  // Switch
  const SWITCH_MODE: nat := 20
  const SWITCH_MSISDN: nat := 21
  const SWITCH_ORG_SERVICE_CODE: nat := 42
  const SWITCH_DEST_SERVICE_CODE: nat := 63
  const SWITCH_USSD_CONTENT: nat := 84

  // SwitchBegin
  const SB_USSD_VERSION: nat := 20
  const SB_USSD_OP_TYPE: nat := 21
  const SB_MSISDN: nat := 22
  const SB_ORG_SERVICE_CODE: nat := 43
  const SB_DEST_SERVICE_CODE: nat := 64
  const SB_CODE_SCHEME: nat := 85
  const SB_USSD_CONTENT: nat := 86

  // ChargeInd
  const CHARGE_RATIO: nat := 20
  const CHARGE_TYPE: nat := 24
  const CHARGE_SOURCE: nat := 28
  const CHARGE_LOCATION: nat := 39

  // UssdVersion
  const PHASE_I: Byte := 0x10
  const PHASE_II: Byte := 0x20
  const PHASE_II_PLUS: Byte := 0x25

  // USSDOperationTypes (USSR and PSSR share 0x01)
  const USSR: Byte := 0x01
  const PSSR: Byte := 0x01
  const USSN: Byte := 0x02
  const USSDC_RESP: Byte := 0x03
  const RELEASE_REQ: Byte := 0x04

  // CodeScheme
  const CODE_SCHEME_7BIT: Byte := 0x0F
  const CODE_SCHEME_8BIT: Byte := 0x44
  const CODE_SCHEME_16BIT_A: Byte := 0x11
  const CODE_SCHEME_16BIT_B: Byte := 0x48

  /** `enum CommandIDs` */
  datatype Command =
    | Bind | UnBind | BindResp | UnBindResp
    | Begin | Continue | End | Abort
    | Switch | SwitchBegin
    | ChargeInd | ChargeIndResp
    | Shake | ShakeResp | Error

  /** The registry value of each command. */
  function Code(c: Command): U32
  {
    match c
    case Bind => 0x65
    case UnBind => 0x66
    case BindResp => 0x67
    case UnBindResp => 0x68
    case Begin => 0x6f
    case Continue => 0x70
    case End => 0x71
    case Abort => 0x72
    case Switch => 0x74
    case SwitchBegin => 0x77
    case ChargeInd => 0x75
    case ChargeIndResp => 0x76
    case Shake => 0x83
    case ShakeResp => 0x84
    case Error => 0x00
  }

  /** The command a raw id names, if any: the inverse of `Code`. */
  function CommandOf(id: U32): (r: Option<Command>)
    ensures r.Some? ==> Code(r.value) == id
    ensures forall c :: Code(c) == id ==> r == Some(c)
  {
    if id == 0x65 then Some(Bind)
    else if id == 0x66 then Some(UnBind)
    else if id == 0x67 then Some(BindResp)
    else if id == 0x68 then Some(UnBindResp)
    else if id == 0x6f then Some(Begin)
    else if id == 0x70 then Some(Continue)
    else if id == 0x71 then Some(End)
    else if id == 0x72 then Some(Abort)
    else if id == 0x74 then Some(Switch)
    else if id == 0x77 then Some(SwitchBegin)
    else if id == 0x75 then Some(ChargeInd)
    else if id == 0x76 then Some(ChargeIndResp)
    else if id == 0x83 then Some(Shake)
    else if id == 0x84 then Some(ShakeResp)
    else if id == 0 then Some(Error)
    else None
  }

  /** The registry values are pairwise distinct. */
  lemma CodeInjective(c: Command, d: Command)
    requires Code(c) == Code(d)
    ensures c == d
  {
    assert CommandOf(Code(c)) == Some(c) && CommandOf(Code(d)) == Some(d);
  }

  // ---------------------------------------------------------------------------
  // Header words

  /** `enum Header` */
  datatype HeaderField = CommandLength | CommandId | CommandStatus | SenderId | ReceiverId

  function Offset(f: HeaderField): nat
  {
    match f
    case CommandLength => 0
    case CommandId => 4
    case CommandStatus => 8
    case SenderId => 12
    case ReceiverId => 16
  }

  /** The header field whose word holds byte `i` of the header. */
  function FieldAt(i: nat): (f: HeaderField)
    requires i < HEADER_LEN
    ensures Offset(f) <= i < Offset(f) + 4
  {
    if i < 4 then CommandLength
    else if i < 8 then CommandId
    else if i < 12 then CommandStatus
    else if i < 16 then SenderId
    else ReceiverId
  }

  /**
   * The five words are disjoint 4-byte slots that tile the first HEADER_LEN
   * bytes exactly: each lies inside the header, and a byte of the header
   * belongs to one slot only.
   */
  lemma HeaderSlotsTile(f: HeaderField, i: nat)
    requires i < HEADER_LEN && Offset(f) <= i < Offset(f) + 4
    ensures f == FieldAt(i) && Offset(f) + 4 <= HEADER_LEN
  {
  }

  /** The getters `command_len()` … `receiver_id()`: the raw word, no byte swap. */
  function HeaderWord(s: seq<Byte>, f: HeaderField): U32
    requires |s| >= HEADER_LEN
  {
    GetU32(s, Offset(f))
  }

  /** The setters `set_command_len(v)` … `set_receiver_id(v)` on the bytes of a PDU. */
  function SetHeaderWord(s: seq<Byte>, f: HeaderField, v: U32): (r: seq<Byte>)
    requires |s| >= HEADER_LEN
    ensures |r| == |s| && r[HEADER_LEN..] == s[HEADER_LEN..]
  {
    PutU32(s, Offset(f), v)
  }

  /**
   * A header setter round-trips through its getter and leaves every other
   * header field, and every body byte, as it was.
   */
  lemma SetHeaderWordThenRead(s: seq<Byte>, f: HeaderField, v: U32, g: HeaderField)
    requires |s| >= HEADER_LEN
    ensures HeaderWord(SetHeaderWord(s, f, v), f) == v
    ensures g != f ==> HeaderWord(SetHeaderWord(s, f, v), g) == HeaderWord(s, g)
    ensures SetHeaderWord(s, f, v)[HEADER_LEN..] == s[HEADER_LEN..]
  {
    GetPutU32(s, Offset(f), v);
    if g != f {
      GetU32Local(SetHeaderWord(s, f, v), s, Offset(g));
    }
  }

  /**
   * `command_len() - off` in `uint32_t` arithmetic, the byte count the content
   * getters copy out of a body whose content starts at `off`; it wraps when the
   * length word is below `off`.
   */
  function ContentLength(s: seq<Byte>, off: nat): U32
    requires |s| >= HEADER_LEN
  {
    (HeaderWord(s, CommandLength) - off) % 0x1_0000_0000
  }

  /**
   * `is_Bind()` … `is_ShakeResp()`: the raw command-id word equals the
   * registry value. `IsCommand(s, Error)` has no `is_*` counterpart; it is
   * defined so that `IsCommandExclusive` ranges over every command.
   */
  predicate IsCommand(s: seq<Byte>, c: Command)
    requires |s| >= HEADER_LEN
  {
    HeaderWord(s, CommandId) == Code(c)
  }

  /** At most one of the `is_*` predicates holds of a PDU. */
  lemma IsCommandExclusive(s: seq<Byte>, c: Command, d: Command)
    requires |s| >= HEADER_LEN && IsCommand(s, c) && IsCommand(s, d)
    ensures c == d
  {
    CodeInjective(c, d);
  }

  // ---------------------------------------------------------------------------
  // encode_header / decode_header

  /** The index whose byte lands at header index `i` when its word is reversed. */
  function Mirror(i: nat): (j: nat)
    requires i < HEADER_LEN
    ensures j < HEADER_LEN && FieldAt(j) == FieldAt(i)
  {
    i - i % 4 + 3 - i % 4
  }

  /**
   * The bytes after `encode_header`: each of the five words byte-reversed in
   * place, every byte from HEADER_LEN on untouched.
   */
  function SwapHeader(s: seq<Byte>): (r: seq<Byte>)
    requires |s| >= HEADER_LEN
    ensures |r| == |s| && r[HEADER_LEN..] == s[HEADER_LEN..]
  {
    seq(|s|, i requires 0 <= i < |s| => if i < HEADER_LEN then s[Mirror(i)] else s[i])
  }

  /** Each header word's four bytes come out reversed. */
  lemma SwapHeaderReverses(s: seq<Byte>, f: HeaderField)
    requires |s| >= HEADER_LEN
    ensures SwapHeader(s)[Offset(f)..Offset(f) + 4] == Reverse4(s[Offset(f)..Offset(f) + 4])
  {
    var o := Offset(f);
    var r := SwapHeader(s);
    assert r[o] == s[o + 3] by { MirrorInWord(f, 0); }
    assert r[o + 1] == s[o + 2] by { MirrorInWord(f, 1); }
    assert r[o + 2] == s[o + 1] by { MirrorInWord(f, 2); }
    assert r[o + 3] == s[o] by { MirrorInWord(f, 3); }
    assert r[o..o + 4] == [r[o], r[o + 1], r[o + 2], r[o + 3]];
    assert Reverse4(s[o..o + 4]) == [s[o + 3], s[o + 2], s[o + 1], s[o]];
  }

  /** Every header word is `htobe32` of what it was. */
  lemma SwapHeaderWord(s: seq<Byte>, f: HeaderField)
    requires |s| >= HEADER_LEN
    ensures HeaderWord(SwapHeader(s), f) == Bswap32(HeaderWord(s, f))
  {
    var o := Offset(f);
    var b := s[o..o + 4];
    SwapHeaderReverses(s, f);
    FromLE32RoundTrip(b);
    assert LE32(Bswap32(FromLE32(b))) == Reverse4(b);
    LE32RoundTrip(Bswap32(FromLE32(b)));
  }

  lemma MirrorInvolutive(i: nat)
    requires i < HEADER_LEN
    ensures Mirror(Mirror(i)) == i
  {
  }

  /** `decode_header` is `encode_header`, so decoding an encoded PDU restores it. */
  lemma {:induction false} SwapHeaderInvolutive(s: seq<Byte>)
    requires |s| >= HEADER_LEN
    ensures SwapHeader(SwapHeader(s)) == s
  {
    var u := SwapHeader(s);
    var t := SwapHeader(u);
    forall i | 0 <= i < |s|
      ensures t[i] == s[i]
    {
      if i < HEADER_LEN {
        MirrorInvolutive(i);
        assert t[i] == u[Mirror(i)] == s[Mirror(Mirror(i))];
      } else {
        assert t[i] == u[i];
      }
    }
  }

  /** The bytes after one `set_x(htobe32(x()))` step of `encode_header`: word `f` reversed, nothing else changed. */
  function SwapWordAt(s: seq<Byte>, f: HeaderField): (r: seq<Byte>)
    requires |s| >= HEADER_LEN
    ensures |r| == |s|
    ensures r[Offset(f)..Offset(f) + 4] == Reverse4(s[Offset(f)..Offset(f) + 4])
    ensures forall i :: 0 <= i < |s| && !(Offset(f) <= i < Offset(f) + 4) ==> r[i] == s[i]
  {
    PutSwappedWord(s, Offset(f));
    PutU32(s, Offset(f), Bswap32(GetU32(s, Offset(f))))
  }

  lemma MirrorInWord(f: HeaderField, k: nat)
    requires k < 4
    ensures Offset(f) + k < HEADER_LEN && FieldAt(Offset(f) + k) == f
    ensures Mirror(Offset(f) + k) == Offset(f) + 3 - k
  {
    var i := Offset(f) + k;
    assert i % 4 == k && i - k == Offset(f);
  }

  /** A swap of word `f` keeps every other word and the body. */
  lemma SwapWordKeeps(s: seq<Byte>, f: HeaderField, g: HeaderField)
    requires |s| >= HEADER_LEN && f != g
    ensures SwapWordAt(s, f)[Offset(g)..Offset(g) + 4] == s[Offset(g)..Offset(g) + 4]
    ensures SwapWordAt(s, f)[HEADER_LEN..] == s[HEADER_LEN..]
  {
    var r := SwapWordAt(s, f);
    OffsetsApart(f, g);
    var o := Offset(g);
    assert r[o] == s[o] && r[o + 1] == s[o + 1] && r[o + 2] == s[o + 2] && r[o + 3] == s[o + 3];
    assert r[o..o + 4] == s[o..o + 4];
    assert Offset(f) + 4 <= HEADER_LEN;
    assert r[HEADER_LEN..] == s[HEADER_LEN..];
  }

  /** Two different header words do not overlap. */
  lemma OffsetsApart(f: HeaderField, g: HeaderField)
    requires f != g
    ensures Offset(g) + 4 <= Offset(f) || Offset(f) + 4 <= Offset(g)
  {
    match f
    case CommandLength =>
    case CommandId =>
    case CommandStatus =>
    case SenderId =>
    case ReceiverId =>
  }

  /** Two byte strings with the same five header words, as bytes, and the same body are equal. */
  lemma SameSlots(a: seq<Byte>, b: seq<Byte>)
    requires |a| == |b| >= HEADER_LEN && a[HEADER_LEN..] == b[HEADER_LEN..]
    requires forall f :: a[Offset(f)..Offset(f) + 4] == b[Offset(f)..Offset(f) + 4]
    ensures a == b
  {
    forall i | 0 <= i < |a| ensures a[i] == b[i] {
      if i < HEADER_LEN {
        var f := FieldAt(i);
        assert a[Offset(f)..Offset(f) + 4][i - Offset(f)] == b[Offset(f)..Offset(f) + 4][i - Offset(f)];
      } else {
        assert a[HEADER_LEN..][i - HEADER_LEN] == b[HEADER_LEN..][i - HEADER_LEN];
      }
    }
  }

  /** The five steps of `encode_header` in sequence make SwapHeader. */
  lemma SwapWordsMakeSwapHeader(s: seq<Byte>)
    requires |s| >= HEADER_LEN
    ensures SwapWordAt(SwapWordAt(SwapWordAt(SwapWordAt(SwapWordAt(s, CommandLength), CommandId),
              CommandStatus), SenderId), ReceiverId) == SwapHeader(s)
  {
    var s1 := SwapWordAt(s, CommandLength);
    var s2 := SwapWordAt(s1, CommandId);
    var s3 := SwapWordAt(s2, CommandStatus);
    var s4 := SwapWordAt(s3, SenderId);
    var s5 := SwapWordAt(s4, ReceiverId);
    var r := SwapHeader(s);
    forall g ensures s5[Offset(g)..Offset(g) + 4] == r[Offset(g)..Offset(g) + 4] {
      SwapHeaderReverses(s, g);
      StepsReverseOnce(s, g);
    }
    SwapWordKeeps(s, CommandLength, CommandId);
    SwapWordKeeps(s1, CommandId, CommandLength);
    SwapWordKeeps(s2, CommandStatus, CommandLength);
    SwapWordKeeps(s3, SenderId, CommandLength);
    SwapWordKeeps(s4, ReceiverId, CommandLength);
    SameSlots(s5, r);
  }

  /** Of the five steps exactly one touches word `g`, and it reverses it. */
  lemma StepsReverseOnce(s: seq<Byte>, g: HeaderField)
    requires |s| >= HEADER_LEN
    ensures var s5 := SwapWordAt(SwapWordAt(SwapWordAt(SwapWordAt(SwapWordAt(s, CommandLength), CommandId),
              CommandStatus), SenderId), ReceiverId);
      s5[Offset(g)..Offset(g) + 4] == Reverse4(s[Offset(g)..Offset(g) + 4])
  {
    var s1 := SwapWordAt(s, CommandLength);
    var s2 := SwapWordAt(s1, CommandId);
    var s3 := SwapWordAt(s2, CommandStatus);
    var s4 := SwapWordAt(s3, SenderId);
    if g != CommandLength { SwapWordKeeps(s, CommandLength, g); }
    if g != CommandId { SwapWordKeeps(s1, CommandId, g); }
    if g != CommandStatus { SwapWordKeeps(s2, CommandStatus, g); }
    if g != SenderId { SwapWordKeeps(s3, SenderId, g); }
    if g != ReceiverId { SwapWordKeeps(s4, ReceiverId, g); }
  }

  // ---------------------------------------------------------------------------
  // basic_header's in-place operations on a PDU buffer

  /** `set_command_len(v)`, `set_command_id(v)`, `set_command_status(v)`, `set_sender_id(v)`, `set_receiver_id(v)`. */
  method SetHeader(p: StaticBuffer, f: HeaderField, v: U32)
    requires p.data.Length >= HEADER_LEN
    modifies p.data
    ensures p.data[..] == SetHeaderWord(old(p.data[..]), f, v)
  {
    p.Assign32(v, Offset(f));
  }

  /** `set_command_len()`: the buffer's `size()`, cast to `uint32_t`, into the length word. */
  method SetCommandLenFromSize(p: StaticBuffer)
    requires p.data.Length >= HEADER_LEN
    modifies p.data
    ensures p.data[..] == SetHeaderWord(old(p.data[..]), CommandLength, UsedSize(old(p.data[..])) % 0x1_0000_0000)
  {
    var n := p.Size();
    p.Assign32(n % 0x1_0000_0000, Offset(CommandLength));
  }

  /**
   * The content getters `ussd_content(dest, sz)`: `set_null(dest, clear)`, then
   * `command_len() - off` bytes from `off` copied to the start of `dest`.
   */
  method ContentInto(p: StaticBuffer, off: nat, dest: array<Byte>, clear: nat)
    requires p.data.Length >= HEADER_LEN && p.data != dest
    requires off + ContentLength(p.data[..], off) <= p.data.Length
    requires ContentLength(p.data[..], off) <= dest.Length && clear <= dest.Length
    modifies dest
    ensures dest[..] == CopiedOut(old(dest[..]), clear, p.data[off..off + ContentLength(p.data[..], off)])
  {
    var n := (p.Get32(Offset(CommandLength)) - off) % 0x1_0000_0000;
    CopyOut(p.data, off, dest, clear, n);
  }

  /** `encode_header()`: each word replaced by its `htobe32`, in field order. */
  method EncodeHeader(p: StaticBuffer)
    requires p.data.Length >= HEADER_LEN
    modifies p.data
    ensures p.data[..] == SwapHeader(old(p.data[..]))
  {
    ghost var s := p.data[..];
    SwapWordsMakeSwapHeader(s);
    var v := p.Get32(Offset(CommandLength));
    p.Assign32(Bswap32(v), Offset(CommandLength));
    assert p.data[..] == SwapWordAt(s, CommandLength);
    v := p.Get32(Offset(CommandId));
    p.Assign32(Bswap32(v), Offset(CommandId));
    v := p.Get32(Offset(CommandStatus));
    p.Assign32(Bswap32(v), Offset(CommandStatus));
    v := p.Get32(Offset(SenderId));
    p.Assign32(Bswap32(v), Offset(SenderId));
    v := p.Get32(Offset(ReceiverId));
    p.Assign32(Bswap32(v), Offset(ReceiverId));
  }

  /** `decode_header()` is the same call as `encode_header()`. */
  method DecodeHeader(p: StaticBuffer)
    requires p.data.Length >= HEADER_LEN
    modifies p.data
    ensures p.data[..] == SwapHeader(old(p.data[..]))
  {
    EncodeHeader(p);
  }
}
