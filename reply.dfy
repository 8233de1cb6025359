/**
 * How `gateway_t::build_begin` and `gateway_t::build_continue` fill the
 * outbound Continue-family PDU: fields copied from the decoded request, then
 * one of three branches on the outcome of the HTTP exchange, then
 * `set_command_len()` and `encode_header()`.
 *
 * The reply is described by spec functions on its 256 bytes; `View` reads the
 * fields the reply carries (the header words other than the length, and the
 * body fields), host order.
 */
module Reply {
  import opened Wrappers
  import opened Bytes
  import opened Buffer
  import opened Types
  import opened SessionSa
  import Misc

  /**
   * What the HTTP exchange ended in: no response, a body that does not parse,
   * a body that parses to a JSON value that is neither an object nor null (an
   * array, a number, a string or a boolean, on which `isMember` throws), or a
   * parsed JSON object (`null` is the empty object, since `isMember` is false
   * for every key of it).
   */
  datatype HttpOutcome = Failed | OkUnparsable | OkNonObject | OkJson(body: Misc.JsonObject)

  /** The parts of the gateway's configuration the PDU builders read. */
  datatype Settings = Settings(
    systemId: seq<Byte>, password: seq<Byte>, systemType: seq<Byte>,
    couldNotFetch: seq<Byte>, invalidData: seq<Byte>, requestFailed: seq<Byte>)

  /** The three error texts fit the content field whole: no zero byte, fewer than 182 bytes. */
  ghost predicate MessagesFit(cfg: Settings)
  {
    && ZeroFree(cfg.couldNotFetch) && |cfg.couldNotFetch| < CONTENT_WIDTH
    && ZeroFree(cfg.invalidData) && |cfg.invalidData| < CONTENT_WIDTH
    && ZeroFree(cfg.requestFailed) && |cfg.requestFailed| < CONTENT_WIDTH
  }

  /** The fields of a Begin-family PDU, as its getters return them. */
  datatype BeginView = BeginView(
    command: U32, status: U32, sender: U32, receiver: U32,
    version: Byte, opType: Byte, msisdn: seq<Byte>, serviceCode: seq<Byte>,
    codeScheme: Byte, content: seq<Byte>)

  function View(s: seq<Byte>): BeginView
    requires |s| == LENGTH_BEGIN
  {
    BeginView(HeaderWord(s, CommandId), HeaderWord(s, CommandStatus), HeaderWord(s, SenderId),
              HeaderWord(s, ReceiverId), UssdVer(s), UssdOpType(s), Msisdn(s), ServiceCode(s),
              CodeScheme(s), UssdContent(s))
  }

  // ---------------------------------------------------------------------------
  // How each setter changes the view

  /** The body fields depend on the bytes from 20 on only. */
  lemma BodyView(s: seq<Byte>, t: seq<Byte>)
    requires |s| == |t| == LENGTH_BEGIN && s[HEADER_LEN..] == t[HEADER_LEN..]
    ensures UssdVer(s) == UssdVer(t) && UssdOpType(s) == UssdOpType(t) && CodeScheme(s) == CodeScheme(t)
    ensures Msisdn(s) == Msisdn(t) && ServiceCode(s) == ServiceCode(t) && UssdContent(s) == UssdContent(t)
  {
    assert forall i :: HEADER_LEN <= i < |s| ==> s[i] == t[i] by {
      forall i | HEADER_LEN <= i < |s| ensures s[i] == t[i] {
        assert s[HEADER_LEN..][i - HEADER_LEN] == t[HEADER_LEN..][i - HEADER_LEN];
      }
    }
    CStringAtLocal(s, t, BEGIN_MSISDN, BEGIN_SERVICE_CODE);
    CStringAtLocal(s, t, BEGIN_SERVICE_CODE, BEGIN_CODE_SCHEME);
    CStringAtLocal(s, t, BEGIN_USSD_CONTENT, LENGTH_BEGIN);
  }

  /** A header setter changes its own field of the view and nothing else; the length setter changes none. */
  lemma SetWordView(s: seq<Byte>, f: HeaderField, v: U32)
    requires |s| == LENGTH_BEGIN
    ensures var t := SetHeaderWord(s, f, v); var w := View(s);
      View(t) == match f
        case CommandLength => w
        case CommandId => w.(command := v)
        case CommandStatus => w.(status := v)
        case SenderId => w.(sender := v)
        case ReceiverId => w.(receiver := v)
  {
    var t := SetHeaderWord(s, f, v);
    SetHeaderWordThenRead(s, f, v, CommandId);
    SetHeaderWordThenRead(s, f, v, CommandStatus);
    SetHeaderWordThenRead(s, f, v, SenderId);
    SetHeaderWordThenRead(s, f, v, ReceiverId);
    BodyView(s, t);
  }

  /** Storing one body byte outside the three strings keeps every word and every string. */
  lemma SetByteView(s: seq<Byte>, i: nat, b: Byte)
    requires |s| == LENGTH_BEGIN && i in {BEGIN_USSD_VERSION, BEGIN_USSD_OP_TYPE, BEGIN_CODE_SCHEME}
    ensures var t := s[i := b];
      && HeaderWord(t, CommandId) == HeaderWord(s, CommandId)
      && HeaderWord(t, CommandStatus) == HeaderWord(s, CommandStatus)
      && HeaderWord(t, SenderId) == HeaderWord(s, SenderId)
      && HeaderWord(t, ReceiverId) == HeaderWord(s, ReceiverId)
      && Msisdn(t) == Msisdn(s) && ServiceCode(t) == ServiceCode(s) && UssdContent(t) == UssdContent(s)
  {
    var t := s[i := b];
    GetU32Local(t, s, Offset(CommandId));
    GetU32Local(t, s, Offset(CommandStatus));
    GetU32Local(t, s, Offset(SenderId));
    GetU32Local(t, s, Offset(ReceiverId));
    CStringAtLocal(t, s, BEGIN_MSISDN, BEGIN_SERVICE_CODE);
    CStringAtLocal(t, s, BEGIN_SERVICE_CODE, BEGIN_CODE_SCHEME);
    CStringAtLocal(t, s, BEGIN_USSD_CONTENT, LENGTH_BEGIN);
  }

  /** A splice inside the body keeps the four header words and the three single bytes. */
  lemma SpliceKeepsWords(s: seq<Byte>, b: nat, e: nat, v: seq<Byte>, sz: nat)
    requires |s| == LENGTH_BEGIN && BEGIN_MSISDN <= b < e <= LENGTH_BEGIN && Min(sz, e - b) <= |v|
    requires !(b <= BEGIN_CODE_SCHEME < e)
    ensures var t := Splice(s, b, e, v, sz);
      && HeaderWord(t, CommandId) == HeaderWord(s, CommandId)
      && HeaderWord(t, CommandStatus) == HeaderWord(s, CommandStatus)
      && HeaderWord(t, SenderId) == HeaderWord(s, SenderId)
      && HeaderWord(t, ReceiverId) == HeaderWord(s, ReceiverId)
      && UssdVer(t) == UssdVer(s) && UssdOpType(t) == UssdOpType(s) && CodeScheme(t) == CodeScheme(s)
  {
    var t := Splice(s, b, e, v, sz);
    GetU32Local(t, s, Offset(CommandId));
    GetU32Local(t, s, Offset(CommandStatus));
    GetU32Local(t, s, Offset(SenderId));
    GetU32Local(t, s, Offset(ReceiverId));
  }

  // ---------------------------------------------------------------------------
  // The reply, step by step

  /**
   * The fields set before the HTTP call: status 0, the receiver is the
   * request's sender, version PHASE_II, the request's MSISDN and service code
   * (each with its own length), code scheme 0x0F. `req` is the decoded request.
   */
  function Prepare(s: seq<Byte>, req: seq<Byte>): (r: seq<Byte>)
    requires |s| == |req| == LENGTH_BEGIN
    ensures |r| == LENGTH_BEGIN
  {
    PrepareStrings(PrepareHeader(s, req), req)
  }

  /** The first three stores of `Prepare`: status, receiver and version. */
  function PrepareHeader(s: seq<Byte>, req: seq<Byte>): (r: seq<Byte>)
    requires |s| == |req| == LENGTH_BEGIN
    ensures |r| == LENGTH_BEGIN
  {
    var t1 := SetHeaderWord(s, CommandStatus, 0);
    var t2 := SetHeaderWord(t1, ReceiverId, HeaderWord(req, SenderId));
    t2[BEGIN_USSD_VERSION := PHASE_II]
  }

  /** The last three stores of `Prepare`: MSISDN, service code and code scheme. */
  function PrepareStrings(t: seq<Byte>, req: seq<Byte>): (r: seq<Byte>)
    requires |t| == |req| == LENGTH_BEGIN
    ensures |r| == LENGTH_BEGIN
  {
    var m := Msisdn(req);
    var sc := ServiceCode(req);
    var t4 := Splice(t, BEGIN_MSISDN, BEGIN_SERVICE_CODE, m, |m|);
    var t5 := Splice(t4, BEGIN_SERVICE_CODE, BEGIN_CODE_SCHEME, sc, |sc|);
    t5[BEGIN_CODE_SCHEME := CODE_SCHEME_7BIT]
  }

  /**
   * The prepared reply carries status 0, the request's sender as receiver,
   * version 0x20, the request's MSISDN and service code and code scheme 0x0F;
   * its command, sender, op type and every byte from the content on are those
   * of the buffer it was prepared in.
   */
  lemma PrepareView(s: seq<Byte>, req: seq<Byte>)
    requires |s| == |req| == LENGTH_BEGIN
    ensures View(Prepare(s, req)) == View(s).(status := 0, receiver := HeaderWord(req, SenderId),
      version := PHASE_II, msisdn := Msisdn(req), serviceCode := ServiceCode(req), codeScheme := CODE_SCHEME_7BIT)
    ensures Prepare(s, req)[BEGIN_USSD_CONTENT..] == s[BEGIN_USSD_CONTENT..]
  {
    var t := PrepareHeader(s, req);
    PrepareHeaderView(s, req);
    PrepareStringsView(t, req);
  }

  lemma PrepareHeaderView(s: seq<Byte>, req: seq<Byte>)
    requires |s| == |req| == LENGTH_BEGIN
    ensures View(PrepareHeader(s, req)) == View(s).(status := 0, receiver := HeaderWord(req, SenderId), version := PHASE_II)
    ensures PrepareHeader(s, req)[BEGIN_USSD_CONTENT..] == s[BEGIN_USSD_CONTENT..]
  {
    var t1 := SetHeaderWord(s, CommandStatus, 0);
    var t2 := SetHeaderWord(t1, ReceiverId, HeaderWord(req, SenderId));
    SetWordView(s, CommandStatus, 0);
    SetWordView(t1, ReceiverId, HeaderWord(req, SenderId));
    SetByteView(t2, BEGIN_USSD_VERSION, PHASE_II);
    assert t2[BEGIN_USSD_CONTENT..] == t1[HEADER_LEN..][BEGIN_USSD_CONTENT - HEADER_LEN..];
    assert t1[BEGIN_USSD_CONTENT..] == s[HEADER_LEN..][BEGIN_USSD_CONTENT - HEADER_LEN..];
  }

  lemma PrepareStringsView(t: seq<Byte>, req: seq<Byte>)
    requires |t| == |req| == LENGTH_BEGIN
    ensures View(PrepareStrings(t, req)) == View(t).(msisdn := Msisdn(req), serviceCode := ServiceCode(req), codeScheme := CODE_SCHEME_7BIT)
    ensures PrepareStrings(t, req)[BEGIN_USSD_CONTENT..] == t[BEGIN_USSD_CONTENT..]
  {
    var m := Msisdn(req);
    var sc := ServiceCode(req);
    var t4 := Splice(t, BEGIN_MSISDN, BEGIN_SERVICE_CODE, m, |m|);
    var t5 := Splice(t4, BEGIN_SERVICE_CODE, BEGIN_CODE_SCHEME, sc, |sc|);
    var t6 := t5[BEGIN_CODE_SCHEME := CODE_SCHEME_7BIT];
    assert PrepareStrings(t, req) == t6;
    MsisdnView(t, m);
    ServiceCodeView(t4, sc);
    assert View(t6) == View(t5).(codeScheme := CODE_SCHEME_7BIT) by {
      SetByteView(t5, BEGIN_CODE_SCHEME, CODE_SCHEME_7BIT);
    }
    assert t6[BEGIN_USSD_CONTENT..] == t5[BEGIN_USSD_CONTENT..];
    assert t5[BEGIN_USSD_CONTENT..] == t[BEGIN_USSD_CONTENT..] by {
      assert t5[BEGIN_CODE_SCHEME..] == t[BEGIN_CODE_SCHEME..];
      assert t5[BEGIN_USSD_CONTENT..] == t5[BEGIN_CODE_SCHEME..][1..];
      assert t[BEGIN_USSD_CONTENT..] == t[BEGIN_CODE_SCHEME..][1..];
    }
  }

  /** Storing a zero-free MSISDN of at most 21 bytes changes that field of the view only, and no byte from the code scheme on. */
  lemma MsisdnView(t: seq<Byte>, m: seq<Byte>)
    requires |t| == LENGTH_BEGIN && |m| <= 21 && ZeroFree(m)
    ensures var u := Splice(t, BEGIN_MSISDN, BEGIN_SERVICE_CODE, m, |m|);
      View(u) == View(t).(msisdn := m) && u[BEGIN_CODE_SCHEME..] == t[BEGIN_CODE_SCHEME..]
  {
    assert m[..Min(|m|, 21)] == m;
    MsisdnRoundTrip(t, m, |m|);
    SpliceKeepsWords(t, BEGIN_MSISDN, BEGIN_SERVICE_CODE, m, |m|);
    SpliceWindowIs(t, BEGIN_MSISDN, BEGIN_SERVICE_CODE, m, |m|);
  }

  /** Storing a zero-free service code of at most 21 bytes changes that field of the view only, and no byte from the code scheme on. */
  lemma ServiceCodeView(t: seq<Byte>, sc: seq<Byte>)
    requires |t| == LENGTH_BEGIN && |sc| <= 21 && ZeroFree(sc)
    ensures var u := Splice(t, BEGIN_SERVICE_CODE, BEGIN_CODE_SCHEME, sc, |sc|);
      View(u) == View(t).(serviceCode := sc) && u[BEGIN_CODE_SCHEME..] == t[BEGIN_CODE_SCHEME..]
  {
    assert sc[..Min(|sc|, 21)] == sc;
    ServiceCodeRoundTrip(t, sc, |sc|);
    SpliceKeepsWords(t, BEGIN_SERVICE_CODE, BEGIN_CODE_SCHEME, sc, |sc|);
    SpliceWindowIs(t, BEGIN_SERVICE_CODE, BEGIN_CODE_SCHEME, sc, |sc|);
  }

  /** The error reply: command End, op type USSN, the message as content. */
  function Fallback(p: seq<Byte>, msg: seq<Byte>): (r: seq<Byte>)
    requires |p| == LENGTH_BEGIN
    ensures |r| == LENGTH_BEGIN
  {
    var t := Splice(p[BEGIN_USSD_OP_TYPE := USSN], BEGIN_USSD_CONTENT, BEGIN_USSD_CONTENT + CONTENT_WIDTH, msg, |msg|);
    SetHeaderWord(t, CommandId, Code(End))
  }

  /**
   * The error reply is End with op type USSN and everything else of the
   * prepared reply; its content field holds the message's first 182 bytes
   * and zeros, and reads back as the message when that fits.
   */
  lemma FallbackView(p: seq<Byte>, msg: seq<Byte>)
    requires |p| == LENGTH_BEGIN
    ensures var r := Fallback(p, msg);
      && View(r) == View(p).(command := Code(End), opType := USSN, content := UssdContent(r))
      && r[BEGIN_USSD_CONTENT..BEGIN_USSD_CONTENT + CONTENT_WIDTH] == SpliceWindow(msg, |msg|, CONTENT_WIDTH)
      && r[BEGIN_USSD_CONTENT + CONTENT_WIDTH..] == p[BEGIN_USSD_CONTENT + CONTENT_WIDTH..]
      && (ZeroFree(msg) && |msg| < CONTENT_WIDTH ==> UssdContent(r) == msg)
  {
    FallbackFields(p, msg);
    FallbackBytes(p, msg);
  }

  lemma FallbackFields(p: seq<Byte>, msg: seq<Byte>)
    requires |p| == LENGTH_BEGIN
    ensures var r := Fallback(p, msg);
      && View(r) == View(p).(command := Code(End), opType := USSN, content := UssdContent(r))
      && (ZeroFree(msg) && |msg| < CONTENT_WIDTH ==> UssdContent(r) == msg)
  {
    var t0 := p[BEGIN_USSD_OP_TYPE := USSN];
    var t := Splice(t0, BEGIN_USSD_CONTENT, BEGIN_USSD_CONTENT + CONTENT_WIDTH, msg, |msg|);
    SetByteView(p, BEGIN_USSD_OP_TYPE, USSN);
    assert View(t0) == View(p).(opType := USSN);
    ContentView(t0, msg, |msg|);
    SetWordView(t, CommandId, Code(End));
  }

  lemma FallbackBytes(p: seq<Byte>, msg: seq<Byte>)
    requires |p| == LENGTH_BEGIN
    ensures var r := Fallback(p, msg);
      && r[BEGIN_USSD_CONTENT..BEGIN_USSD_CONTENT + CONTENT_WIDTH] == SpliceWindow(msg, |msg|, CONTENT_WIDTH)
      && r[BEGIN_USSD_CONTENT + CONTENT_WIDTH..] == p[BEGIN_USSD_CONTENT + CONTENT_WIDTH..]
  {
    var t0 := p[BEGIN_USSD_OP_TYPE := USSN];
    var t := Splice(t0, BEGIN_USSD_CONTENT, BEGIN_USSD_CONTENT + CONTENT_WIDTH, msg, |msg|);
    var r := SetHeaderWord(t, CommandId, Code(End));
    SpliceWindowIs(t0, BEGIN_USSD_CONTENT, BEGIN_USSD_CONTENT + CONTENT_WIDTH, msg, |msg|);
    assert r[BEGIN_USSD_CONTENT..] == t[HEADER_LEN..][BEGIN_USSD_CONTENT - HEADER_LEN..];
    assert t0[BEGIN_USSD_CONTENT + CONTENT_WIDTH..] == p[BEGIN_USSD_CONTENT + CONTENT_WIDTH..];
  }

  /** Setting the content keeps every other field and places the value's first 182 bytes, then zeros. */
  lemma ContentView(s: seq<Byte>, c: seq<Byte>, sz: nat)
    requires |s| == LENGTH_BEGIN && Min(sz, CONTENT_WIDTH) <= |c|
    ensures var t := Splice(s, BEGIN_USSD_CONTENT, BEGIN_USSD_CONTENT + CONTENT_WIDTH, c, sz);
      && View(t) == View(s).(content := UssdContent(t))
      && t[BEGIN_USSD_CONTENT..BEGIN_USSD_CONTENT + CONTENT_WIDTH] == SpliceWindow(c, sz, CONTENT_WIDTH)
      && t[BEGIN_USSD_CONTENT + CONTENT_WIDTH..] == s[BEGIN_USSD_CONTENT + CONTENT_WIDTH..]
      && (ZeroFree(c) && sz == |c| < CONTENT_WIDTH ==> UssdContent(t) == c)
  {
    var t := Splice(s, BEGIN_USSD_CONTENT, BEGIN_USSD_CONTENT + CONTENT_WIDTH, c, sz);
    SpliceKeepsWords(s, BEGIN_USSD_CONTENT, BEGIN_USSD_CONTENT + CONTENT_WIDTH, c, sz);
    SpliceWindowIs(s, BEGIN_USSD_CONTENT, BEGIN_USSD_CONTENT + CONTENT_WIDTH, c, sz);
    CStringAtLocal(t, s, BEGIN_MSISDN, BEGIN_SERVICE_CODE);
    CStringAtLocal(t, s, BEGIN_SERVICE_CODE, BEGIN_CODE_SCHEME);
    if ZeroFree(c) && sz == |c| < CONTENT_WIDTH {
      UssdContentRoundTrip(s, c);
    }
  }

  /**
   * The JSON branch inside its `try`: content (`asCString()` for Begin,
   * `asString()` for Continue), then `op_type` truncated to a byte, then the
   * command; the first conversion that throws leaves the earlier stores in
   * place and the handler sets the command to End.
   */
  function ApplyJson(p: seq<Byte>, obj: Misc.JsonObject, fromCString: bool): (r: seq<Byte>)
    requires |p| == LENGTH_BEGIN
    ensures |r| == LENGTH_BEGIN
  {
    var content := Misc.Member(obj, "content");
    match (if fromCString then content.asCString else content.asString)
    case None => SetHeaderWord(p, CommandId, Code(End))
    case Some(c) =>
      var t1 := Splice(p, BEGIN_USSD_CONTENT, BEGIN_USSD_CONTENT + CONTENT_WIDTH, c, |c|);
      match Misc.Member(obj, "op_type").asUInt
      case None => SetHeaderWord(t1, CommandId, Code(End))
      case Some(op) =>
        var t2 := t1[BEGIN_USSD_OP_TYPE := op % 0x100];
        match Misc.Member(obj, "command").asUInt
        case None => SetHeaderWord(t2, CommandId, Code(End))
        case Some(cmd) => SetHeaderWord(t2, CommandId, cmd)
  }

  /** `set_command_len()` (the buffer's `size()`), then `encode_header()`. */
  function Finish(x: seq<Byte>): (r: seq<Byte>)
    requires |x| == LENGTH_BEGIN
    ensures |r| == LENGTH_BEGIN && r[HEADER_LEN..] == x[HEADER_LEN..]
  {
    SwapHeader(SetHeaderWord(x, CommandLength, UsedSize(x) % 0x1_0000_0000))
  }

  /**
   * Decoding a finished reply gives back every field of the reply, and a
   * length word equal to the buffer's `size()`.
   */
  lemma FinishDecodes(x: seq<Byte>)
    requires |x| == LENGTH_BEGIN
    ensures View(SwapHeader(Finish(x))) == View(x)
    ensures HeaderWord(SwapHeader(Finish(x)), CommandLength) == UsedSize(x)
    ensures SwapHeader(Finish(x))[HEADER_LEN..] == x[HEADER_LEN..]
  {
    var u := UsedSize(x);
    assert 0 <= u <= LENGTH_BEGIN;
    SmallWord(u);
    var n := u % 0x1_0000_0000;
    var h := SetHeaderWord(x, CommandLength, n);
    assert Finish(x) == SwapHeader(h);
    SwapHeaderInvolutive(h);
    assert SwapHeader(Finish(x)) == h;
    SetWordView(x, CommandLength, n);
    SetHeaderWordThenRead(x, CommandLength, n, CommandLength);
  }

  /** A count below 2^32 survives the cast to `uint32_t`. */
  lemma SmallWord(n: int)
    requires 0 <= n < 0x1_0000_0000
    ensures n % 0x1_0000_0000 == n
  {
  }

  /** The message of the failure branch: `request_failed` for Begin, `could_not_fetch` for Continue. */
  function FailureMessage(cfg: Settings, isBegin: bool): seq<Byte>
  {
    if isBegin then cfg.requestFailed else cfg.couldNotFetch
  }

  /**
   * The HTTP callback on the prepared reply `p`: the branch for the outcome,
   * then `set_command_len()` and `encode_header()`. When `check_json` throws,
   * on a body that is not an object or on a "command" member that does not
   * convert, the callback leaves with the reply only prepared.
   */
  function Respond(p: seq<Byte>, outcome: HttpOutcome, isBegin: bool, cfg: Settings): (r: seq<Byte>)
    requires |p| == LENGTH_BEGIN
    ensures |r| == LENGTH_BEGIN
  {
    match outcome
    case Failed => Finish(Fallback(p, FailureMessage(cfg, isBegin)))
    case OkUnparsable => Finish(Fallback(p, cfg.invalidData))
    case OkNonObject => p
    case OkJson(obj) =>
      match Misc.CheckJson(obj)
      case None => p
      case Some(false) => Finish(Fallback(p, cfg.invalidData))
      case Some(true) => Finish(ApplyJson(p, obj, isBegin))
  }

  /** The reply buffer after the callback, for the reply buffer `s` and the decoded request `req`. */
  function ReplyBytes(s: seq<Byte>, req: seq<Byte>, outcome: HttpOutcome, isBegin: bool, cfg: Settings): (r: seq<Byte>)
    requires |s| == |req| == LENGTH_BEGIN
    ensures |r| == LENGTH_BEGIN
  {
    Respond(Prepare(s, req), outcome, isBegin, cfg)
  }

  /**
   * Whether the callback reaches `fn()`, which sends the reply: not when
   * `check_json` throws, on a body that is not an object or on a "command"
   * member that does not convert.
   */
  predicate Replies(outcome: HttpOutcome)
    ensures Replies(outcome) <==>
      && !outcome.OkNonObject?
      && (!outcome.OkJson? || "command" !in outcome.body || outcome.body["command"].asUInt.Some?)
  {
    !outcome.OkNonObject? && !(outcome.OkJson? && Misc.CheckJson(outcome.body).None?)
  }

  /** The fields every sent reply carries from the request and the buffer it started from. */
  function Prepared(s: seq<Byte>, req: seq<Byte>, command: U32, opType: Byte, content: seq<Byte>): BeginView
    requires |s| == |req| == LENGTH_BEGIN
  {
    BeginView(command, 0, HeaderWord(s, SenderId), HeaderWord(req, SenderId), PHASE_II, opType,
              Msisdn(req), ServiceCode(req), CODE_SCHEME_7BIT, content)
  }

  // ---------------------------------------------------------------------------
  // The three branches, decoded

  /**
   * A failed request gives End, op type USSN and the branch's message
   * (`request_failed` for Begin, `could_not_fetch` for Continue), on top of
   * the prepared fields.
   */
  lemma ReplyOnFailure(s: seq<Byte>, req: seq<Byte>, isBegin: bool, cfg: Settings)
    requires |s| == |req| == LENGTH_BEGIN && MessagesFit(cfg)
    ensures View(SwapHeader(ReplyBytes(s, req, Failed, isBegin, cfg)))
         == Prepared(s, req, Code(End), USSN, FailureMessage(cfg, isBegin))
  {
    var p := Prepare(s, req);
    PrepareView(s, req);
    FallbackView(p, FailureMessage(cfg, isBegin));
    FinishDecodes(Fallback(p, FailureMessage(cfg, isBegin)));
  }

  /**
   * A body that does not parse, or that fails `check_json`, gives End, op
   * type USSN and the `invalid_data` message.
   */
  lemma ReplyOnInvalid(s: seq<Byte>, req: seq<Byte>, outcome: HttpOutcome, isBegin: bool, cfg: Settings)
    requires |s| == |req| == LENGTH_BEGIN && MessagesFit(cfg)
    requires outcome == OkUnparsable || (outcome.OkJson? && Misc.CheckJson(outcome.body) == Some(false))
    ensures Replies(outcome)
    ensures View(SwapHeader(ReplyBytes(s, req, outcome, isBegin, cfg)))
         == Prepared(s, req, Code(End), USSN, cfg.invalidData)
  {
    var p := Prepare(s, req);
    PrepareView(s, req);
    FallbackView(p, cfg.invalidData);
    FinishDecodes(Fallback(p, cfg.invalidData));
  }

  /**
   * A body that passes `check_json` and whose three conversions succeed
   * gives the JSON's command, its `op_type` truncated to a byte and its
   * content (whole, when it fits the field).
   */
  lemma ReplyOnJson(s: seq<Byte>, req: seq<Byte>, obj: Misc.JsonObject, isBegin: bool, cfg: Settings,
                    c: seq<Byte>, op: U32, cmd: U32)
    requires |s| == |req| == LENGTH_BEGIN && Misc.CheckJson(obj) == Some(true)
    requires (if isBegin then Misc.Member(obj, "content").asCString else Misc.Member(obj, "content").asString) == Some(c)
    requires Misc.Member(obj, "op_type").asUInt == Some(op) && Misc.Member(obj, "command").asUInt == Some(cmd)
    requires ZeroFree(c) && |c| < CONTENT_WIDTH
    ensures View(SwapHeader(ReplyBytes(s, req, OkJson(obj), isBegin, cfg)))
         == Prepared(s, req, cmd, op % 0x100, c)
  {
    var p := Prepare(s, req);
    var x := ApplyJson(p, obj, isBegin);
    assert ReplyBytes(s, req, OkJson(obj), isBegin, cfg) == Finish(x);
    PrepareView(s, req);
    JsonFieldsView(p, obj, isBegin, c, op, cmd);
    FinishDecodes(x);
    assert View(SwapHeader(Finish(x))) == View(x);
  }

  /** The JSON branch whose three conversions succeed stores the three converted values. */
  lemma JsonFieldsView(p: seq<Byte>, obj: Misc.JsonObject, fromCString: bool, c: seq<Byte>, op: U32, cmd: U32)
    requires |p| == LENGTH_BEGIN
    requires (if fromCString then Misc.Member(obj, "content").asCString else Misc.Member(obj, "content").asString) == Some(c)
    requires Misc.Member(obj, "op_type").asUInt == Some(op) && Misc.Member(obj, "command").asUInt == Some(cmd)
    requires ZeroFree(c) && |c| < CONTENT_WIDTH
    ensures View(ApplyJson(p, obj, fromCString)) == View(p).(command := cmd, opType := op % 0x100, content := c)
  {
    var t1 := Splice(p, BEGIN_USSD_CONTENT, BEGIN_USSD_CONTENT + CONTENT_WIDTH, c, |c|);
    var t2 := t1[BEGIN_USSD_OP_TYPE := op % 0x100];
    ContentView(p, c, |c|);
    SetByteView(t1, BEGIN_USSD_OP_TYPE, op % 0x100);
    assert View(t2) == View(t1).(opType := op % 0x100);
    SetWordView(t2, CommandId, cmd);
    assert ApplyJson(p, obj, fromCString) == SetHeaderWord(t2, CommandId, cmd);
  }

  /**
   * When the content conversion throws (a missing or non-string member for
   * `asCString()`), the handler's End is all that changes: the op type and
   * the content are those of the buffer the reply started from.
   */
  lemma ReplyOnConversionError(s: seq<Byte>, req: seq<Byte>, obj: Misc.JsonObject, isBegin: bool, cfg: Settings)
    requires |s| == |req| == LENGTH_BEGIN && Misc.CheckJson(obj) == Some(true)
    requires (if isBegin then Misc.Member(obj, "content").asCString else Misc.Member(obj, "content").asString).None?
    ensures View(SwapHeader(ReplyBytes(s, req, OkJson(obj), isBegin, cfg)))
         == Prepared(s, req, Code(End), UssdOpType(s), UssdContent(s))
  {
    var p := Prepare(s, req);
    var x := SetHeaderWord(p, CommandId, Code(End));
    assert ReplyBytes(s, req, OkJson(obj), isBegin, cfg) == Finish(x);
    PrepareView(s, req);
    SetWordView(p, CommandId, Code(End));
    FinishDecodes(x);
    assert View(SwapHeader(Finish(x))) == View(x);
  }

  /** The JSON branch changes the command, the op type and the content of the view, and nothing else. */
  lemma ApplyJsonView(p: seq<Byte>, obj: Misc.JsonObject, fromCString: bool)
    requires |p| == LENGTH_BEGIN
    ensures var w := View(ApplyJson(p, obj, fromCString));
      w == View(p).(command := w.command, opType := w.opType, content := w.content)
  {
    var content := Misc.Member(obj, "content");
    match (if fromCString then content.asCString else content.asString)
    case None =>
      SetWordView(p, CommandId, Code(End));
    case Some(c) =>
      var t1 := Splice(p, BEGIN_USSD_CONTENT, BEGIN_USSD_CONTENT + CONTENT_WIDTH, c, |c|);
      ContentView(p, c, |c|);
      match Misc.Member(obj, "op_type").asUInt
      case None =>
        SetWordView(t1, CommandId, Code(End));
      case Some(op) =>
        var t2 := t1[BEGIN_USSD_OP_TYPE := op % 0x100];
        SetByteView(t1, BEGIN_USSD_OP_TYPE, op % 0x100);
        match Misc.Member(obj, "command").asUInt
        case None =>
          SetWordView(t2, CommandId, Code(End));
        case Some(cmd) =>
          SetWordView(t2, CommandId, cmd);
  }

  /**
   * Whatever the outcome, a sent reply is addressed back to the requester:
   * every field but the command, the op type and the content is as prepared
   * (status 0, the request's sender as receiver, the buffer's sender,
   * version 0x20, the request's MSISDN and service code, code scheme 0x0F).
   */
  lemma ReplyAddressing(s: seq<Byte>, req: seq<Byte>, outcome: HttpOutcome, isBegin: bool, cfg: Settings)
    requires |s| == |req| == LENGTH_BEGIN && Replies(outcome)
    ensures var w := View(SwapHeader(ReplyBytes(s, req, outcome, isBegin, cfg)));
      w == Prepared(s, req, w.command, w.opType, w.content)
  {
    var p := Prepare(s, req);
    PrepareView(s, req);
    if outcome.OkJson? && Misc.CheckJson(outcome.body) == Some(true) {
      ApplyJsonView(p, outcome.body, isBegin);
      FinishDecodes(ApplyJson(p, outcome.body, isBegin));
    } else {
      var msg := if outcome.Failed? then FailureMessage(cfg, isBegin) else cfg.invalidData;
      FallbackView(p, msg);
      FinishDecodes(Fallback(p, msg));
    }
  }

  // ---------------------------------------------------------------------------
  // The length word of a fresh reply

  /** The content conversion of a passing JSON body, when it succeeds, gives a zero-free text shorter than 182 bytes. */
  ghost predicate JsonContentFits(outcome: HttpOutcome, isBegin: bool)
  {
    outcome.OkJson? && Misc.CheckJson(outcome.body) == Some(true) ==>
      var content := Misc.Member(outcome.body, "content");
      var c := if isBegin then content.asCString else content.asString;
      c.Some? ==> ZeroFree(c.value) && |c.value| < CONTENT_WIDTH
  }

  /** The content field holds `c` then zeros, the buffer is zero after it, and the code scheme byte before it is set. */
  ghost predicate ContentLaidOut(x: seq<Byte>, c: seq<Byte>)
    requires |x| == LENGTH_BEGIN
  {
    && x[BEGIN_CODE_SCHEME] != 0 && |c| < CONTENT_WIDTH
    && x[BEGIN_USSD_CONTENT..BEGIN_USSD_CONTENT + CONTENT_WIDTH] == SpliceWindow(c, |c|, CONTENT_WIDTH)
    && forall i :: BEGIN_USSD_CONTENT + CONTENT_WIDTH <= i < LENGTH_BEGIN ==> x[i] == 0
  }

  /** `size()` of such a buffer ends at the content's last byte, or at the code scheme byte for empty content. */
  lemma SizeOfLaidOut(x: seq<Byte>, c: seq<Byte>)
    requires |x| == LENGTH_BEGIN && ContentLaidOut(x, c) && ZeroFree(c)
    ensures UsedSize(x) == BEGIN_USSD_CONTENT + |c| && UssdContent(x) == c
  {
    var n := BEGIN_USSD_CONTENT + |c|;
    forall i | BEGIN_USSD_CONTENT <= i < LENGTH_BEGIN
      ensures x[i] == if i < n then c[i - BEGIN_USSD_CONTENT] else 0
    {
      if i < BEGIN_USSD_CONTENT + CONTENT_WIDTH {
        assert x[i] == SpliceWindow(c, |c|, CONTENT_WIDTH)[i - BEGIN_USSD_CONTENT];
      }
    }
    UsedSizeIs(x, n);
    assert x[BEGIN_USSD_CONTENT..n] == c;
    CStringAtUnique(x, BEGIN_USSD_CONTENT, |x|, c);
  }

  /**
   * On a fresh reply (zero from the content on) whose content fits, the
   * length word of the sent reply is 65 plus the length of its content: the
   * last non-zero byte is the content's last, or the code scheme byte.
   */
  lemma FreshReplyLength(s: seq<Byte>, req: seq<Byte>, outcome: HttpOutcome, isBegin: bool, cfg: Settings)
    requires |s| == |req| == LENGTH_BEGIN && forall i :: BEGIN_USSD_CONTENT <= i < LENGTH_BEGIN ==> s[i] == 0
    requires MessagesFit(cfg) && Replies(outcome) && JsonContentFits(outcome, isBegin)
    ensures var d := SwapHeader(ReplyBytes(s, req, outcome, isBegin, cfg));
      HeaderWord(d, CommandLength) == BEGIN_USSD_CONTENT + |View(d).content|
  {
    var p := Prepare(s, req);
    PrepareView(s, req);
    assert forall i :: BEGIN_USSD_CONTENT <= i < LENGTH_BEGIN ==> p[i] == 0 by {
      forall i | BEGIN_USSD_CONTENT <= i < LENGTH_BEGIN ensures p[i] == 0 {
        assert p[BEGIN_USSD_CONTENT..][i - BEGIN_USSD_CONTENT] == s[BEGIN_USSD_CONTENT..][i - BEGIN_USSD_CONTENT];
      }
    }
    var x, c := LaidOut(p, outcome, isBegin, cfg);
    SizeOfLaidOut(x, c);
    FinishDecodes(x);
  }

  /** The buffer `Respond` finishes and the content it holds, for a reply that is sent. */
  lemma LaidOut(p: seq<Byte>, outcome: HttpOutcome, isBegin: bool, cfg: Settings) returns (x: seq<Byte>, c: seq<Byte>)
    requires |p| == LENGTH_BEGIN && CodeScheme(p) == CODE_SCHEME_7BIT
    requires forall i :: BEGIN_USSD_CONTENT <= i < LENGTH_BEGIN ==> p[i] == 0
    requires MessagesFit(cfg) && Replies(outcome) && JsonContentFits(outcome, isBegin)
    ensures |x| == LENGTH_BEGIN && Respond(p, outcome, isBegin, cfg) == Finish(x)
    ensures ContentLaidOut(x, c) && ZeroFree(c)
  {
    if outcome.OkJson? && Misc.CheckJson(outcome.body) == Some(true) {
      x := ApplyJson(p, outcome.body, isBegin);
      c := JsonLaidOut(p, outcome.body, isBegin);
    } else {
      c := if outcome.Failed? then FailureMessage(cfg, isBegin) else cfg.invalidData;
      x := Fallback(p, c);
      FallbackView(p, c);
      TailLaidOut(x, p, c);
    }
  }

  /** The JSON branch lays out the converted content, or keeps the empty content when the conversion throws. */
  lemma JsonLaidOut(p: seq<Byte>, obj: Misc.JsonObject, isBegin: bool) returns (c: seq<Byte>)
    requires |p| == LENGTH_BEGIN && CodeScheme(p) == CODE_SCHEME_7BIT
    requires forall i :: BEGIN_USSD_CONTENT <= i < LENGTH_BEGIN ==> p[i] == 0
    requires JsonContentFits(OkJson(obj), isBegin) && Misc.CheckJson(obj) == Some(true)
    ensures ContentLaidOut(ApplyJson(p, obj, isBegin), c) && ZeroFree(c)
  {
    var content := Misc.Member(obj, "content");
    var cv := if isBegin then content.asCString else content.asString;
    if cv.None? {
      c := [];
      JsonThrowsLaidOut(p, obj, isBegin);
    } else {
      c := cv.value;
      JsonStoredLaidOut(p, obj, isBegin, c);
    }
  }

  /** When the content conversion gives `c`, the content field holds `c`. */
  lemma JsonStoredLaidOut(p: seq<Byte>, obj: Misc.JsonObject, isBegin: bool, c: seq<Byte>)
    requires |p| == LENGTH_BEGIN && CodeScheme(p) == CODE_SCHEME_7BIT
    requires forall i :: BEGIN_USSD_CONTENT <= i < LENGTH_BEGIN ==> p[i] == 0
    requires (if isBegin then Misc.Member(obj, "content").asCString else Misc.Member(obj, "content").asString) == Some(c)
    requires |c| < CONTENT_WIDTH
    ensures ContentLaidOut(ApplyJson(p, obj, isBegin), c)
  {
    var t1 := Splice(p, BEGIN_USSD_CONTENT, BEGIN_USSD_CONTENT + CONTENT_WIDTH, c, |c|);
    SpliceWindowIs(p, BEGIN_USSD_CONTENT, BEGIN_USSD_CONTENT + CONTENT_WIDTH, c, |c|);
    TailLaidOut(t1, p, c);
    ApplyJsonTail(p, obj, isBegin, c);
    TailLaidOut(ApplyJson(p, obj, isBegin), t1, c);
  }

  /** When the content conversion throws, only the command word changes. */
  lemma JsonThrowsLaidOut(p: seq<Byte>, obj: Misc.JsonObject, isBegin: bool)
    requires |p| == LENGTH_BEGIN && CodeScheme(p) == CODE_SCHEME_7BIT
    requires forall i :: BEGIN_USSD_CONTENT <= i < LENGTH_BEGIN ==> p[i] == 0
    requires (if isBegin then Misc.Member(obj, "content").asCString else Misc.Member(obj, "content").asString).None?
    ensures ContentLaidOut(ApplyJson(p, obj, isBegin), [])
  {
    var x := ApplyJson(p, obj, isBegin);
    assert x == SetHeaderWord(p, CommandId, Code(End));
    assert x[BEGIN_CODE_SCHEME..] == p[HEADER_LEN..][BEGIN_CODE_SCHEME - HEADER_LEN..];
    assert p[BEGIN_USSD_CONTENT..BEGIN_USSD_CONTENT + CONTENT_WIDTH] == SpliceWindow([], 0, CONTENT_WIDTH);
    TailLaidOut(x, p, []);
  }

  /** Once the content is stored, the rest of the JSON branch leaves the bytes from the code scheme on alone. */
  lemma ApplyJsonTail(p: seq<Byte>, obj: Misc.JsonObject, fromCString: bool, c: seq<Byte>)
    requires |p| == LENGTH_BEGIN
    requires (if fromCString then Misc.Member(obj, "content").asCString else Misc.Member(obj, "content").asString) == Some(c)
    ensures var t1 := Splice(p, BEGIN_USSD_CONTENT, BEGIN_USSD_CONTENT + CONTENT_WIDTH, c, |c|);
      ApplyJson(p, obj, fromCString)[BEGIN_CODE_SCHEME..] == t1[BEGIN_CODE_SCHEME..]
  {
    var t1 := Splice(p, BEGIN_USSD_CONTENT, BEGIN_USSD_CONTENT + CONTENT_WIDTH, c, |c|);
    var x := ApplyJson(p, obj, fromCString);
    match Misc.Member(obj, "op_type").asUInt
    case None =>
      assert x == SetHeaderWord(t1, CommandId, Code(End));
      assert x[BEGIN_CODE_SCHEME..] == t1[HEADER_LEN..][BEGIN_CODE_SCHEME - HEADER_LEN..];
    case Some(op) =>
      var t2 := t1[BEGIN_USSD_OP_TYPE := op % 0x100];
      var cmd := match Misc.Member(obj, "command").asUInt case None => Code(End) case Some(v) => v;
      assert x == SetHeaderWord(t2, CommandId, cmd);
      assert x[BEGIN_CODE_SCHEME..] == t2[HEADER_LEN..][BEGIN_CODE_SCHEME - HEADER_LEN..];
      assert t2[BEGIN_CODE_SCHEME..] == t1[BEGIN_CODE_SCHEME..];
  }

  /**
   * `x` has its code scheme byte and content window from `y` (or `c` laid out
   * in its window) and the rest of `y`'s tail, which is zero.
   */
  lemma TailLaidOut(x: seq<Byte>, y: seq<Byte>, c: seq<Byte>)
    requires |x| == |y| == LENGTH_BEGIN && y[BEGIN_CODE_SCHEME] != 0 && |c| < CONTENT_WIDTH
    requires x[BEGIN_CODE_SCHEME] == y[BEGIN_CODE_SCHEME]
    requires x[BEGIN_USSD_CONTENT..BEGIN_USSD_CONTENT + CONTENT_WIDTH] == SpliceWindow(c, |c|, CONTENT_WIDTH)
    requires x[BEGIN_USSD_CONTENT + CONTENT_WIDTH..] == y[BEGIN_USSD_CONTENT + CONTENT_WIDTH..]
    requires forall i :: BEGIN_USSD_CONTENT + CONTENT_WIDTH <= i < LENGTH_BEGIN ==> y[i] == 0
    ensures ContentLaidOut(x, c)
  {
    forall i | BEGIN_USSD_CONTENT + CONTENT_WIDTH <= i < LENGTH_BEGIN ensures x[i] == 0 {
      assert x[BEGIN_USSD_CONTENT + CONTENT_WIDTH..][i - BEGIN_USSD_CONTENT - CONTENT_WIDTH]
          == y[BEGIN_USSD_CONTENT + CONTENT_WIDTH..][i - BEGIN_USSD_CONTENT - CONTENT_WIDTH];
    }
  }

  // ---------------------------------------------------------------------------
  // The reply built in place

  /**
   * The stores on the reply before the HTTP request goes out, with the
   * sender id, MSISDN and service code read from the decoded request `req`.
   */
  method PrepareReply(pdu: StaticBuffer, req: StaticBuffer)
    requires pdu.data.Length == req.data.Length == LENGTH_BEGIN && pdu.data != req.data
    modifies pdu.data
    ensures pdu.data[..] == Prepare(old(pdu.data[..]), req.data[..])
  {
    var sender := req.Get32(Offset(SenderId));
    var msisdn := ReadMsisdn(req);
    var serviceCode := ReadServiceCode(req);
    SetHeader(pdu, CommandStatus, 0);
    SetHeader(pdu, ReceiverId, sender);
    SetUssdVer(pdu, PHASE_II);
    SetMsisdn(pdu, msisdn, |msisdn|);
    SetServiceCode(pdu, serviceCode, |serviceCode|);
    SetCodeScheme(pdu, CODE_SCHEME_7BIT);
  }

  /** A header store and a store into the body commute. */
  lemma HeaderSpliceCommute(s: seq<Byte>, f: HeaderField, v: U32, b: nat, e: nat, src: seq<Byte>, sz: nat)
    requires |s| >= e && HEADER_LEN <= b < e && Min(sz, e - b) <= |src|
    ensures Splice(SetHeaderWord(s, f, v), b, e, src, sz) == SetHeaderWord(Splice(s, b, e, src, sz), f, v)
  {
    var l := Splice(SetHeaderWord(s, f, v), b, e, src, sz);
    var r := SetHeaderWord(Splice(s, b, e, src, sz), f, v);
    forall i | 0 <= i < |s| ensures l[i] == r[i] {
      if i < HEADER_LEN {
        assert l[i] == SetHeaderWord(s, f, v)[i];
      } else {
        assert r[i] == r[HEADER_LEN..][i - HEADER_LEN];
        assert SetHeaderWord(s, f, v)[i] == SetHeaderWord(s, f, v)[HEADER_LEN..][i - HEADER_LEN];
      }
    }
  }

  /** The error branch as the source writes it: command, op type and content in the given order. */
  method EndWith(pdu: StaticBuffer, msg: seq<Byte>, opTypeFirst: bool)
    requires pdu.data.Length == LENGTH_BEGIN
    modifies pdu.data
    ensures pdu.data[..] == Fallback(old(pdu.data[..]), msg)
  {
    ghost var p := pdu.data[..];
    if opTypeFirst {
      SetUssdOpType(pdu, USSN);
      SetHeader(pdu, CommandId, Code(End));
    } else {
      SetHeader(pdu, CommandId, Code(End));
      SetUssdOpType(pdu, USSN);
      assert pdu.data[..] == SetHeaderWord(p[BEGIN_USSD_OP_TYPE := USSN], CommandId, Code(End));
    }
    SetUssdContent(pdu, msg, |msg|);
    HeaderSpliceCommute(p[BEGIN_USSD_OP_TYPE := USSN], CommandId, Code(End),
      BEGIN_USSD_CONTENT, BEGIN_USSD_CONTENT + CONTENT_WIDTH, msg, |msg|);
  }

  /** The `try` block of the JSON branch and its handler. */
  method FromJson(pdu: StaticBuffer, obj: Misc.JsonObject, fromCString: bool)
    requires pdu.data.Length == LENGTH_BEGIN
    modifies pdu.data
    ensures pdu.data[..] == ApplyJson(old(pdu.data[..]), obj, fromCString)
  {
    var content := Misc.Member(obj, "content");
    var c := if fromCString then content.asCString else content.asString;
    if c.None? {
      SetHeader(pdu, CommandId, Code(End));
      return;
    }
    SetUssdContent(pdu, c.value, |c.value|);
    var op := Misc.Member(obj, "op_type").asUInt;
    if op.None? {
      SetHeader(pdu, CommandId, Code(End));
      return;
    }
    SetUssdOpType(pdu, op.value % 0x100);
    var cmd := Misc.Member(obj, "command").asUInt;
    if cmd.None? {
      SetHeader(pdu, CommandId, Code(End));
      return;
    }
    SetHeader(pdu, CommandId, cmd.value);
  }

  /**
   * The HTTP callback of `build_begin` (`isBegin`) or `build_continue` on the
   * prepared reply; `sent` is whether it reaches `fn()`, which sends the reply.
   */
  method Callback(pdu: StaticBuffer, outcome: HttpOutcome, isBegin: bool, cfg: Settings) returns (sent: bool)
    requires pdu.data.Length == LENGTH_BEGIN
    modifies pdu.data
    ensures sent == Replies(outcome)
    ensures pdu.data[..] == Respond(old(pdu.data[..]), outcome, isBegin, cfg)
  {
    match outcome {
      case Failed =>
        EndWith(pdu, FailureMessage(cfg, isBegin), true);
      case OkUnparsable =>
        EndWith(pdu, cfg.invalidData, false);
      case OkNonObject =>
        return false;
      case OkJson(obj) =>
        var ok := Misc.CheckJson(obj);
        if ok.None? {
          return false;
        } else if ok.value {
          FromJson(pdu, obj, isBegin);
        } else {
          EndWith(pdu, cfg.invalidData, false);
        }
    }
    SetCommandLenFromSize(pdu);
    EncodeHeader(pdu);
    sent := true;
  }
}
