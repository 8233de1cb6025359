/**
 * The lookups of `misc`: `pdu_name` (command id to name), `op_name` (USSD
 * operation type to name) and `check_json`, the shape test an HTTP reply body
 * must pass before the gateway uses it. A JSON document is a map from member
 * names to values; a value is described by what JsonCpp's conversions return
 * for it.
 */
module Misc {
  import opened Wrappers
  import opened Bytes
  import opened Types
  import Login

  /** `pdu_name(id)`: the name of a registry id, "Unknown Command" for any other id. */
  function PduName(id: U32): (r: string)
    ensures r != "Unknown Command" <==> CommandOf(id).Some? && CommandOf(id) != Some(Error)
  {
    match CommandOf(id)
    case Some(Bind) => "Bind"
    case Some(BindResp) => "BindResp"
    case Some(UnBind) => "UnBind"
    case Some(UnBindResp) => "UnBindResp"
    case Some(Shake) => "Shake"
    case Some(ShakeResp) => "ShakeResp"
    case Some(Abort) => "Abort"
    case Some(Begin) => "Begin"
    case Some(End) => "End"
    case Some(Continue) => "Continue"
    case Some(Switch) => "Switch"
    case Some(SwitchBegin) => "SwitchBegin"
    case Some(ChargeInd) => "ChargeInd"
    case Some(ChargeIndResp) => "ChargeIndResp"
    case _ => "Unknown Command"
  }

  /**
   * `pdu_name(pdu)`: the raw command-id word of the PDU, with no byte swap; it
   * is the `htobe32` of the id that `decode_header` would give.
   */
  function PduNameOf(s: seq<Byte>): (r: string)
    requires |s| >= HEADER_LEN
    ensures r == PduName(Bswap32(HeaderWord(SwapHeader(s), CommandId)))
  {
    var w := HeaderWord(s, CommandId);
    SwapHeaderWord(s, CommandId);
    Bswap32Involutive(w);
    PduName(w)
  }

  /**
   * `pdu_name` names exactly the fourteen registry commands other than Error,
   * and gives each its own name.
   */
  lemma PduNameKnown(id: U32, other: U32)
    ensures PduName(id) != "Unknown Command" <==> CommandOf(id).Some? && CommandOf(id) != Some(Error)
    ensures PduName(Code(Error)) == "Unknown Command"
    ensures PduName(id) == PduName(other) != "Unknown Command" ==> id == other
  {
    if PduName(id) == PduName(other) != "Unknown Command" {
      assert CommandOf(id).Some? && CommandOf(other).Some?;
      var c, d := CommandOf(id).value, CommandOf(other).value;
      NamesDistinct(c, d);
    }
  }

  lemma NamesDistinct(c: Command, d: Command)
    requires c != Error && d != Error && PduName(Code(c)) == PduName(Code(d))
    ensures c == d
  {
    assert CommandOf(Code(c)) == Some(c) && CommandOf(Code(d)) == Some(d);
  }

  /**
   * Because `pdu_name(pdu)` does not byte-swap, an encoded header-only PDU is
   * an "Unknown Command"; after `decode_header` it is named by its command.
   */
  lemma PduNameNeedsDecode(c: Command)
    requires c != Error
    ensures PduNameOf(SwapHeader(Login.GenericHeader(Code(c)))) == PduName(Code(c)) != "Unknown Command"
    ensures PduNameOf(Login.GenericHeader(Code(c))) == "Unknown Command"
  {
    Login.GenericHeaderDecodes(Code(c));
    EncodedIsUnknown(Login.GenericHeader(Code(c)), c);
  }

  /** A PDU whose decoded command id is a registry command's is unnamed until decoded. */
  lemma EncodedIsUnknown(h: seq<Byte>, c: Command)
    requires |h| >= HEADER_LEN && c != Error && HeaderWord(SwapHeader(h), CommandId) == Code(c)
    ensures PduNameOf(SwapHeader(h)) == PduName(Code(c)) != "Unknown Command"
    ensures PduNameOf(h) == "Unknown Command"
  {
    assert PduName(Code(c)) != "Unknown Command" by {
      assert CommandOf(Code(c)) == Some(c);
      PduNameKnown(Code(c), Code(c));
    }
    var w := HeaderWord(h, CommandId);
    SwappedCodeWord(h, Code(c));
    assert PduName(w) == "Unknown Command" by {
      assert CommandOf(w) == None;
    }
  }

  /** The command id word of a header whose swapped id is a small code is that code times 2^24. */
  lemma SwappedCodeWord(h: seq<Byte>, v: U32)
    requires |h| >= HEADER_LEN && 1 <= v < 0x100 && HeaderWord(SwapHeader(h), CommandId) == v
    ensures HeaderWord(h, CommandId) == v * 0x100_0000 >= 0x100_0000
  {
    var w := HeaderWord(h, CommandId);
    SwapHeaderWord(h, CommandId);
    Bswap32Involutive(w);
    Bswap32Small(v);
  }

  /** A byte-sized id swapped onto the wire becomes the id times 2^24. */
  lemma Bswap32Small(v: U32)
    requires v < 0x100
    ensures Bswap32(v) == v * 0x100_0000
  {
    assert LE32(v) == [v, 0, 0, 0];
  }

  /** `op_name(v)`: the name of a USSD operation type, "" for any other value. */
  function OpName(v: Byte): (r: string)
    ensures r != "" <==> 1 <= v <= 4
  {
    if v == USSR then "USSR"
    else if v == RELEASE_REQ then "Release_Req"
    else if v == USSN then "USSN"
    else if v == USSDC_RESP then "USSDC_Resp"
    else ""
  }

  /** `op_name` names the four operation types 1..4, each differently, and nothing else. */
  lemma OpNameKnown(v: Byte, w: Byte)
    ensures OpName(v) != "" <==> 1 <= v <= 4
    ensures OpName(v) == OpName(w) != "" ==> v == w
  {
  }

  // ---------------------------------------------------------------------------
  // JSON replies

  /**
   * A JSON value as the gateway uses it: what `asUInt()`, `asString()` and the
   * string view built from `asCString()` give, None where the conversion throws.
   */
  datatype JsonValue = JsonValue(asUInt: Option<U32>, asString: Option<seq<Byte>>, asCString: Option<seq<Byte>>)

  /** A parsed JSON object: its members by name. */
  type JsonObject = map<string, JsonValue>

  /** `json[key]` for a missing key is JSON null: 0 as a number, "" as a string, and no C string. */
  const JSON_NULL: JsonValue := JsonValue(Some(0), Some([]), None)

  function Member(obj: JsonObject, key: string): JsonValue
  {
    if key in obj then obj[key] else JSON_NULL
  }

  /**
   * `check_json(body)`; None when `body["command"].asUInt()` throws, which
   * happens outside any handler.
   */
  function CheckJson(obj: JsonObject): (r: Option<bool>)
    ensures r.None? <==> "command" in obj && obj["command"].asUInt.None?
    ensures r == Some(true) <==>
      && "command" in obj && obj["command"].asUInt.Some?
      && (var cmd := obj["command"].asUInt.value;
          || (cmd in {Code(Begin), Code(Continue), Code(End)} && "msisdn" in obj && "content" in obj)
          || (cmd == Code(Bind) && "system_id" in obj))
  {
    if "command" in obj then
      match obj["command"].asUInt
      case None => None
      case Some(cmd) =>
        if cmd == Code(Begin) || cmd == Code(Continue) || cmd == Code(End) then
          Some("msisdn" in obj && "content" in obj)
        else if cmd == Code(Bind) then
          Some("system_id" in obj)
        else
          Some(false)
    else
      Some(false)
  }

  /**
   * `check_json` is false without a "command" member, and for a command
   * other than Begin, Continue, End and Bind whatever else the body holds.
   */
  lemma CheckJsonRejects(obj: JsonObject)
    ensures "command" !in obj ==> CheckJson(obj) == Some(false)
    ensures "command" in obj && obj["command"].asUInt.Some?
      && obj["command"].asUInt.value !in {Code(Begin), Code(Continue), Code(End), Code(Bind)}
      ==> CheckJson(obj) == Some(false)
  {
  }
}
