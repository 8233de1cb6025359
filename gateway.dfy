/**
 * `gateway::gateway_t`: the Bind PDU it keeps and sends on connect, and the
 * dispatch of `on_message` over the command id of each inbound PDU. A
 * message's effect is the HTTP request it makes (the fields
 * `build_http_request` selects) and the PDU it sends back.
 *
 * The HTTP exchange is synchronous here: its outcome is a parameter, and the
 * callback runs before `on_message` returns.
 */
module Gateway {
  import opened Wrappers
  import opened Bytes
  import opened Buffer
  import opened Types
  import opened SessionSa
  import Login
  import opened Reply

  /** The fields `build_http_request` formats into the request body. */
  datatype HttpRequest =
    | SessionRequest(command: U32, sid: U32, length: U32, msisdn: seq<Byte>, content: seq<Byte>)
    | AbortRequest(sid: U32, length: U32)
    | BindRequest(status: U32, length: U32, systemId: seq<Byte>)

  /** What handling one message does outside the gateway: the HTTP request made and the PDU sent. */
  datatype Effect = Effect(request: Option<HttpRequest>, sent: Option<seq<Byte>>)

  const NoEffect: Effect := Effect(None, None)

  /** `std::atomic_int` holds a signed 32-bit value. */
  predicate IsInt32(n: int)
  {
    -0x8000_0000 <= n < 0x8000_0000
  }

  /** `++id` on a 32-bit signed atomic: wraps from 2^31 - 1 to -2^31. */
  function NextId(n: int): (r: int)
    requires IsInt32(n)
    ensures IsInt32(r) && (r - n - 1) % 0x1_0000_0000 == 0
  {
    if n == 0x7FFF_FFFF then -0x8000_0000 else n + 1
  }

  /** The `uint32_t` an `int` becomes when passed to `set_sender_id`. */
  function ToU32(n: int): U32
  {
    n % 0x1_0000_0000
  }

  /** The bytes a PDU object built from a pointer and a length holds: the message's first `n` bytes, zero-padded. */
  function Loaded(n: nat, msg: seq<Byte>): (r: seq<Byte>)
    ensures |r| == n && r[..Min(n, |msg|)] == msg[..Min(n, |msg|)]
  {
    msg[..Min(n, |msg|)] + Zeros(n - Min(n, |msg|))
  }

  // ---------------------------------------------------------------------------
  // setup_bind

  /**
   * `setup_bind` on a 64-byte buffer: system id, password and system type
   * from the configuration, then id Bind, status 0, sender and receiver all
   * ones, length 64, then `encode_header()`.
   */
  function BindPdu(s: seq<Byte>, cfg: Settings): (r: seq<Byte>)
    requires |s| == Login.LENGTH_BIND
    ensures |r| == Login.LENGTH_BIND
  {
    SwapHeader(BindHeader(BindBody(s, cfg)))
  }

  /** The three body stores of `setup_bind`, each string with its own length. */
  function BindBody(s: seq<Byte>, cfg: Settings): (r: seq<Byte>)
    requires |s| == Login.LENGTH_BIND
    ensures |r| == Login.LENGTH_BIND
  {
    var t1 := Splice(s, BIND_SYSTEM_ID, BIND_PASSWORD, cfg.systemId, |cfg.systemId|);
    var t2 := Splice(t1, BIND_PASSWORD, BIND_SYSTEM_TYPE, cfg.password, |cfg.password|);
    Splice(t2, BIND_SYSTEM_TYPE, BIND_INTERFACE_VERSION, cfg.systemType, |cfg.systemType|)
  }

  /** `setup_bind(cfg, bindmsg)`. */
  method SetupBind(cfg: Settings, p: StaticBuffer)
    requires p.data.Length == Login.LENGTH_BIND
    modifies p.data
    ensures p.data[..] == BindPdu(old(p.data[..]), cfg)
  {
    Login.SetSystemId(p, cfg.systemId, |cfg.systemId|);
    Login.SetPassword(p, cfg.password, |cfg.password|);
    Login.SetSystemType(p, cfg.systemType, |cfg.systemType|);
    SetHeader(p, CommandId, Code(Bind));
    SetHeader(p, CommandStatus, 0);
    SetHeader(p, SenderId, Login.ALL_ONES);
    SetHeader(p, ReceiverId, Login.ALL_ONES);
    SetHeader(p, CommandLength, Login.LENGTH_BIND);
    EncodeHeader(p);
  }

  /**
   * `setup_bind` overwrites every byte below the interface version: what it
   * builds depends on the bytes from 53 on only, and it leaves those as they were.
   */
  lemma BindPduFrame(s: seq<Byte>, t: seq<Byte>, cfg: Settings)
    requires |s| == |t| == Login.LENGTH_BIND && s[BIND_INTERFACE_VERSION..] == t[BIND_INTERFACE_VERSION..]
    ensures BindPdu(s, cfg) == BindPdu(t, cfg)
    ensures BindPdu(s, cfg)[BIND_INTERFACE_VERSION..] == s[BIND_INTERFACE_VERSION..]
  {
    var s3 := BindBody(s, cfg);
    var t3 := BindBody(t, cfg);
    BindBodyFrame(s, t, cfg);
    BindHeaderWords(s3);
    BindHeaderWords(t3);
    HeaderFromWords(BindHeader(s3), BindHeader(t3));
    assert BindHeader(s3)[HEADER_LEN..] == BindHeader(t3)[HEADER_LEN..];
    assert BindHeader(s3) == BindHeader(s3)[..HEADER_LEN] + BindHeader(s3)[HEADER_LEN..];
    assert BindHeader(t3) == BindHeader(t3)[..HEADER_LEN] + BindHeader(t3)[HEADER_LEN..];
    assert BindPdu(s, cfg)[BIND_INTERFACE_VERSION..] == s3[HEADER_LEN..][BIND_INTERFACE_VERSION - HEADER_LEN..];
  }

  /**
   * The body stores write the bytes from 20 to 53 from the configuration
   * alone and keep every byte from 53 on.
   */
  lemma BindBodyFrame(s: seq<Byte>, t: seq<Byte>, cfg: Settings)
    requires |s| == |t| == Login.LENGTH_BIND && s[BIND_INTERFACE_VERSION..] == t[BIND_INTERFACE_VERSION..]
    ensures BindBody(s, cfg)[HEADER_LEN..] == BindBody(t, cfg)[HEADER_LEN..]
    ensures BindBody(s, cfg)[BIND_INTERFACE_VERSION..] == s[BIND_INTERFACE_VERSION..]
  {
    var rs := BindBody(s, cfg);
    var rt := BindBody(t, cfg);
    forall i | HEADER_LEN <= i < Login.LENGTH_BIND ensures rs[i] == rt[i] {
      if i >= BIND_INTERFACE_VERSION {
        assert s[i] == s[BIND_INTERFACE_VERSION..][i - BIND_INTERFACE_VERSION];
        assert t[i] == t[BIND_INTERFACE_VERSION..][i - BIND_INTERFACE_VERSION];
      }
    }
    assert rs[BIND_INTERFACE_VERSION..] == s[BIND_INTERFACE_VERSION..];
  }

  /** Running `setup_bind` again, as `on_connect` does, leaves the Bind PDU as it was. */
  lemma BindPduIdempotent(s: seq<Byte>, cfg: Settings)
    requires |s| == Login.LENGTH_BIND
    ensures BindPdu(BindPdu(s, cfg), cfg) == BindPdu(s, cfg)
  {
    BindPduFrame(s, s, cfg);
    BindPduFrame(BindPdu(s, cfg), s, cfg);
  }

  /**
   * Decoded, the Bind PDU carries id 0x65, status 0, sender and receiver all
   * ones, length 64, the configured system id and password (when they fit
   * their fields), the configured system type cut to 13 bytes and padded with
   * zeros, and the interface version of the buffer it was built in.
   */
  lemma BindPduDecodes(s: seq<Byte>, cfg: Settings)
    requires |s| == Login.LENGTH_BIND
    requires ZeroFree(cfg.systemId) && |cfg.systemId| <= 11 && ZeroFree(cfg.password) && |cfg.password| <= 9
    ensures var d := SwapHeader(BindPdu(s, cfg));
      && HeaderWord(d, CommandId) == Code(Bind) && HeaderWord(d, CommandStatus) == 0
      && HeaderWord(d, SenderId) == Login.ALL_ONES && HeaderWord(d, ReceiverId) == Login.ALL_ONES
      && HeaderWord(d, CommandLength) == Login.LENGTH_BIND
      && Login.SystemId(d) == cfg.systemId && Login.Password(d) == cfg.password
      && Login.SystemTypeBytes(d) == cfg.systemType[..Min(|cfg.systemType|, 13)] + Zeros(13 - Min(|cfg.systemType|, 13))
      && Login.InterfaceVer(d) == Login.InterfaceVer(s)
  {
    var t3 := BindBody(s, cfg);
    var t8 := BindHeader(t3);
    assert BindPdu(s, cfg) == SwapHeader(t8);
    SwapHeaderInvolutive(t8);
    BindHeaderWords(t3);
    BindBodyFromTail(t8, t3);
    BindBodyStored(s, cfg);
  }

  /** The five header stores of `setup_bind`, in host order. */
  function BindHeader(t: seq<Byte>): (r: seq<Byte>)
    requires |t| == Login.LENGTH_BIND
    ensures |r| == Login.LENGTH_BIND && r[HEADER_LEN..] == t[HEADER_LEN..]
  {
    var t4 := SetHeaderWord(t, CommandId, Code(Bind));
    var t5 := SetHeaderWord(t4, CommandStatus, 0);
    var t6 := SetHeaderWord(t5, SenderId, Login.ALL_ONES);
    var t7 := SetHeaderWord(t6, ReceiverId, Login.ALL_ONES);
    SetHeaderWord(t7, CommandLength, Login.LENGTH_BIND)
  }

  lemma BindHeaderWords(t: seq<Byte>)
    requires |t| == Login.LENGTH_BIND
    ensures var h := BindHeader(t);
      && HeaderWord(h, CommandId) == Code(Bind) && HeaderWord(h, CommandStatus) == 0
      && HeaderWord(h, SenderId) == Login.ALL_ONES && HeaderWord(h, ReceiverId) == Login.ALL_ONES
      && HeaderWord(h, CommandLength) == Login.LENGTH_BIND
  {
    var t4 := SetHeaderWord(t, CommandId, Code(Bind));
    var t5 := SetHeaderWord(t4, CommandStatus, 0);
    var t6 := SetHeaderWord(t5, SenderId, Login.ALL_ONES);
    var t7 := SetHeaderWord(t6, ReceiverId, Login.ALL_ONES);
    SetHeaderWordThenRead(t7, CommandLength, Login.LENGTH_BIND, CommandId);
    SetHeaderWordThenRead(t7, CommandLength, Login.LENGTH_BIND, CommandStatus);
    SetHeaderWordThenRead(t7, CommandLength, Login.LENGTH_BIND, SenderId);
    SetHeaderWordThenRead(t7, CommandLength, Login.LENGTH_BIND, ReceiverId);
    SetHeaderWordThenRead(t6, ReceiverId, Login.ALL_ONES, CommandId);
    SetHeaderWordThenRead(t6, ReceiverId, Login.ALL_ONES, CommandStatus);
    SetHeaderWordThenRead(t6, ReceiverId, Login.ALL_ONES, SenderId);
    SetHeaderWordThenRead(t5, SenderId, Login.ALL_ONES, CommandId);
    SetHeaderWordThenRead(t5, SenderId, Login.ALL_ONES, CommandStatus);
    SetHeaderWordThenRead(t4, CommandStatus, 0, CommandId);
    SetHeaderWordThenRead(t, CommandId, Code(Bind), CommandId);
  }

  /**
   * The three body stores of `setup_bind` read back as the configured system
   * id and password, and leave the configured system type in its field.
   */
  lemma BindBodyStored(s: seq<Byte>, cfg: Settings)
    requires |s| == Login.LENGTH_BIND
    requires ZeroFree(cfg.systemId) && |cfg.systemId| <= 11 && ZeroFree(cfg.password) && |cfg.password| <= 9
    ensures var t3 := BindBody(s, cfg);
      Login.SystemId(t3) == cfg.systemId && Login.Password(t3) == cfg.password
      && Login.SystemTypeBytes(t3) == cfg.systemType[..Min(|cfg.systemType|, 13)] + Zeros(13 - Min(|cfg.systemType|, 13))
      && Login.InterfaceVer(t3) == Login.InterfaceVer(s)
  {
    var t1 := Splice(s, BIND_SYSTEM_ID, BIND_PASSWORD, cfg.systemId, |cfg.systemId|);
    var t2 := Splice(t1, BIND_PASSWORD, BIND_SYSTEM_TYPE, cfg.password, |cfg.password|);
    var t3 := Splice(t2, BIND_SYSTEM_TYPE, BIND_INTERFACE_VERSION, cfg.systemType, |cfg.systemType|);
    assert BindBody(s, cfg) == t3;
    CredentialsStored(s, cfg);
    Login.SystemTypeFrame(t2, cfg.systemType, |cfg.systemType|);
  }

  /** The first two stores of `setup_bind`: the configured system id and password read back. */
  lemma CredentialsStored(s: seq<Byte>, cfg: Settings)
    requires |s| == Login.LENGTH_BIND
    requires ZeroFree(cfg.systemId) && |cfg.systemId| <= 11 && ZeroFree(cfg.password) && |cfg.password| <= 9
    ensures var t1 := Splice(s, BIND_SYSTEM_ID, BIND_PASSWORD, cfg.systemId, |cfg.systemId|);
      var t2 := Splice(t1, BIND_PASSWORD, BIND_SYSTEM_TYPE, cfg.password, |cfg.password|);
      Login.SystemId(t2) == cfg.systemId && Login.Password(t2) == cfg.password
      && Login.InterfaceVer(t2) == Login.InterfaceVer(s)
  {
    var t1 := Splice(s, BIND_SYSTEM_ID, BIND_PASSWORD, cfg.systemId, |cfg.systemId|);
    Login.SystemIdRoundTrip(s, cfg.systemId, |cfg.systemId|);
    assert cfg.systemId[..Min(|cfg.systemId|, 11)] == cfg.systemId;
    Login.PasswordRoundTrip(t1, cfg.password, |cfg.password|);
    assert cfg.password[..Min(|cfg.password|, 9)] == cfg.password;
  }

  /** The bind body getters read bytes from 20 on only. */
  lemma BindBodyFromTail(s: seq<Byte>, t: seq<Byte>)
    requires |s| == |t| == Login.LENGTH_BIND && s[HEADER_LEN..] == t[HEADER_LEN..]
    ensures Login.SystemId(s) == Login.SystemId(t) && Login.Password(s) == Login.Password(t)
    ensures Login.InterfaceVer(s) == Login.InterfaceVer(t) && Login.SystemTypeBytes(s) == Login.SystemTypeBytes(t)
  {
    forall i | HEADER_LEN <= i < |s| ensures s[i] == t[i] {
      assert s[i] == s[HEADER_LEN..][i - HEADER_LEN];
    }
    CStringAtLocal(s, t, BIND_SYSTEM_ID, BIND_PASSWORD);
    CStringAtLocal(s, t, BIND_PASSWORD, BIND_SYSTEM_TYPE);
    GetU32Local(s, t, BIND_INTERFACE_VERSION);
  }

  // ---------------------------------------------------------------------------
  // The shake sample

  /** `send::samples::shake`: a Shake header already in host order. */
  const SHAKE_SAMPLE: seq<Byte> := [
    0x14, 0x00, 0x00, 0x00, 0x83, 0x00, 0x00, 0x00,
    0x00, 0x00, 0x00, 0x00, 0xff, 0xff, 0xff, 0xff,
    0xff, 0xff, 0xff, 0xff]

  /**
   * The sample, loaded and encoded as `send::shake` does, is on the wire what
   * a default-constructed `shake_msg_t` is.
   */
  lemma ShakeSampleIsGeneric()
    ensures SwapHeader(Loaded(Login.LENGTH_GENERIC, SHAKE_SAMPLE)) == Login.GenericHeader(Code(Shake))
  {
    LoadedSample();
    SampleIsShakeHeader();
  }

  /** The sample is the 20 bytes of a Shake header, loaded whole. */
  lemma LoadedSample()
    ensures Loaded(Login.LENGTH_GENERIC, SHAKE_SAMPLE) == SHAKE_SAMPLE
  {
    assert SHAKE_SAMPLE[..Min(Login.LENGTH_GENERIC, |SHAKE_SAMPLE|)] == SHAKE_SAMPLE;
  }

  /** The sample holds the five words the constructor of a Shake header sets. */
  lemma SampleIsShakeHeader()
    ensures SwapHeader(SHAKE_SAMPLE) == Login.GenericHeader(Code(Shake))
  {
    var h0 := Zeros(Login.LENGTH_GENERIC);
    var h5 := SetHeaderWord(SetHeaderWord(SetHeaderWord(SetHeaderWord(SetHeaderWord(
      h0, CommandLength, Login.LENGTH_GENERIC), CommandId, Code(Shake)), CommandStatus, 0),
      ReceiverId, Login.ALL_ONES), SenderId, Login.ALL_ONES);
    assert Login.GenericHeader(Code(Shake)) == SwapHeader(h5);
    Login.ReadBackFive(h0, Code(Shake));
    ShakeSampleWords();
    forall f ensures HeaderWord(h5, f) == HeaderWord(SHAKE_SAMPLE, f) {
      match f
      case CommandLength =>
      case CommandId =>
      case CommandStatus =>
      case SenderId =>
      case ReceiverId =>
    }
    HeaderFromWords(h5, SHAKE_SAMPLE);
    assert h5 == h5[..HEADER_LEN] && SHAKE_SAMPLE == SHAKE_SAMPLE[..HEADER_LEN];
  }

  /** The sample's five words, read in host order. */
  lemma ShakeSampleWords()
    ensures HeaderWord(SHAKE_SAMPLE, CommandLength) == Login.LENGTH_GENERIC
    ensures HeaderWord(SHAKE_SAMPLE, CommandId) == Code(Shake)
    ensures HeaderWord(SHAKE_SAMPLE, CommandStatus) == 0
    ensures HeaderWord(SHAKE_SAMPLE, SenderId) == Login.ALL_ONES
    ensures HeaderWord(SHAKE_SAMPLE, ReceiverId) == Login.ALL_ONES
  {
    assert SHAKE_SAMPLE[0..4] == [0x14, 0, 0, 0];
    assert SHAKE_SAMPLE[4..8] == [0x83, 0, 0, 0];
    assert SHAKE_SAMPLE[8..12] == [0, 0, 0, 0];
    assert SHAKE_SAMPLE[12..16] == [0xff, 0xff, 0xff, 0xff];
    assert SHAKE_SAMPLE[16..20] == [0xff, 0xff, 0xff, 0xff];
  }

  /** Two PDUs with the same five header words have the same header bytes. */
  lemma HeaderFromWords(a: seq<Byte>, b: seq<Byte>)
    requires |a| >= HEADER_LEN && |b| >= HEADER_LEN
    requires forall f :: HeaderWord(a, f) == HeaderWord(b, f)
    ensures a[..HEADER_LEN] == b[..HEADER_LEN]
  {
    forall i | 0 <= i < HEADER_LEN ensures a[i] == b[i] {
      var f := FieldAt(i);
      var o := Offset(f);
      FromLE32RoundTrip(a[o..o + 4]);
      FromLE32RoundTrip(b[o..o + 4]);
      assert HeaderWord(a, f) == HeaderWord(b, f);
      assert a[o..o + 4] == b[o..o + 4];
      assert a[i] == a[o..o + 4][i - o];
      assert b[i] == b[o..o + 4][i - o];
    }
  }

  // ---------------------------------------------------------------------------
  // build_begin / build_continue

  /**
   * `build_begin` (`isBegin`) or `build_continue` with reply buffer `s` and the
   * decoded request `req`: a Begin whose MSISDN is not whitelisted ends
   * there; otherwise the request goes out with the request's sender id,
   * length word, MSISDN and content, and the reply is sent when the callback
   * reaches `fn()`.
   */
  function SessionEffect(s: seq<Byte>, req: seq<Byte>, outcome: HttpOutcome, isBegin: bool,
                         whiteList: set<seq<Byte>>, cfg: Settings): (e: Effect)
    requires |s| == |req| == LENGTH_BEGIN
    ensures e.sent.Some? ==> |e.sent.value| == LENGTH_BEGIN
  {
    if isBegin && Msisdn(req) !in whiteList then NoEffect
    else
      var request := SessionRequest(if isBegin then Code(Begin) else Code(Continue),
        HeaderWord(req, SenderId), HeaderWord(req, CommandLength), Msisdn(req), UssdContent(req));
      Effect(Some(request), if Replies(outcome) then Some(ReplyBytes(s, req, outcome, isBegin, cfg)) else None)
  }

  /** A fresh reply buffer with the sender id set: every other header word and every body byte is zero. */
  function FreshReply(sid: U32): (r: seq<Byte>)
    ensures |r| == LENGTH_BEGIN && r[HEADER_LEN..] == Zeros(LENGTH_BEGIN - HEADER_LEN)
    ensures HeaderWord(r, SenderId) == sid
    ensures forall f :: f != SenderId ==> HeaderWord(r, f) == 0
  {
    var z := Zeros(LENGTH_BEGIN);
    assert forall f :: f != SenderId ==> HeaderWord(SetHeaderWord(z, SenderId, sid), f) == 0 by {
      forall f | f != SenderId
        ensures HeaderWord(SetHeaderWord(z, SenderId, sid), f) == 0
      {
        SetHeaderWordThenRead(z, SenderId, sid, f);
        assert z[Offset(f)..Offset(f) + 4] == [0, 0, 0, 0];
      }
    }
    SetHeaderWordThenRead(z, SenderId, sid, SenderId);
    SetHeaderWord(z, SenderId, sid)
  }

  // ---------------------------------------------------------------------------
  // on_message

  /** The command id `on_message` dispatches on: the raw word at 4, byte-swapped. */
  function InboundId(msg: seq<Byte>): (r: U32)
    requires |msg| >= 8
    ensures Bswap32(r) == GetU32(msg, 4)
    ensures |msg| >= HEADER_LEN ==> r == HeaderWord(SwapHeader(msg), CommandId)
  {
    Bswap32Involutive(GetU32(msg, 4));
    if |msg| >= HEADER_LEN then SwapHeaderWord(msg, CommandId); Bswap32(GetU32(msg, 4))
    else Bswap32(GetU32(msg, 4))
  }

  /**
   * BindResp: the decoded `bind_resp_t`'s status, length and system id go to
   * the HTTP server, and nothing is sent. Decoding swaps each header word of
   * the loaded bytes and leaves the system id, which is in the body, as it is.
   */
  function BindRespEffect(msg: seq<Byte>): (e: Effect)
    ensures var l := Loaded(Login.LENGTH_BIND, msg);
      e == Effect(Some(BindRequest(Bswap32(HeaderWord(l, CommandStatus)), Bswap32(HeaderWord(l, CommandLength)),
                                   Login.SystemId(l))), None)
  {
    var l := Loaded(Login.LENGTH_BIND, msg);
    var d := SwapHeader(l);
    SwapHeaderWord(l, CommandStatus);
    SwapHeaderWord(l, CommandLength);
    BindBodyFromTail(d, l);
    Effect(Some(BindRequest(HeaderWord(d, CommandStatus), HeaderWord(d, CommandLength), Login.SystemId(d))), None)
  }

  /** Abort: the decoded header's sender id and length go to the HTTP server, and nothing is sent. */
  function AbortEffect(msg: seq<Byte>): (e: Effect)
    ensures var l := Loaded(HEADER_LEN, msg);
      e == Effect(Some(AbortRequest(Bswap32(HeaderWord(l, SenderId)), Bswap32(HeaderWord(l, CommandLength)))), None)
  {
    var l := Loaded(HEADER_LEN, msg);
    var d := SwapHeader(l);
    SwapHeaderWord(l, SenderId);
    SwapHeaderWord(l, CommandLength);
    Effect(Some(AbortRequest(HeaderWord(d, SenderId), HeaderWord(d, CommandLength))), None)
  }

  method OnBindResp(msg: seq<Byte>) returns (e: Effect)
    ensures e == BindRespEffect(msg)
  {
    var bindResp := new StaticBuffer.FromPointer(Login.LENGTH_BIND, msg, |msg|);
    assert bindResp.data[..] == Loaded(Login.LENGTH_BIND, msg);
    DecodeHeader(bindResp);
    ghost var d := SwapHeader(Loaded(Login.LENGTH_BIND, msg));
    assert bindResp.data[..] == d;
    var status := bindResp.Get32(Offset(CommandStatus));
    var length := bindResp.Get32(Offset(CommandLength));
    var systemId := Login.ReadSystemId(bindResp);
    e := Effect(Some(BindRequest(status, length, systemId)), None);
    assert e == Effect(Some(BindRequest(HeaderWord(d, CommandStatus), HeaderWord(d, CommandLength), Login.SystemId(d))), None);
  }

  method OnAbort(msg: seq<Byte>) returns (e: Effect)
    ensures e == AbortEffect(msg)
  {
    var abort := new StaticBuffer.FromPointer(HEADER_LEN, msg, |msg|);
    assert abort.data[..] == Loaded(HEADER_LEN, msg);
    DecodeHeader(abort);
    ghost var d := SwapHeader(Loaded(HEADER_LEN, msg));
    assert abort.data[..] == d;
    var sender := abort.Get32(Offset(SenderId));
    var length := abort.Get32(Offset(CommandLength));
    e := Effect(Some(AbortRequest(sender, length)), None);
    assert e == Effect(Some(AbortRequest(HeaderWord(d, SenderId), HeaderWord(d, CommandLength))), None);
  }

  /** `send::shake`: the sample loaded into a `shake_msg_t`, encoded, sent whole. */
  method SendShake() returns (sent: seq<Byte>)
    ensures sent == SwapHeader(Loaded(Login.LENGTH_GENERIC, SHAKE_SAMPLE))
  {
    var shake := new StaticBuffer.FromPointer(Login.LENGTH_GENERIC, SHAKE_SAMPLE, |SHAKE_SAMPLE|);
    EncodeHeader(shake);
    sent := shake.data[..];
  }

  /** Which branch of `on_message` handles a message. */
  datatype Handler = Ignore | ReportBind | AnswerShake | Serve(isBegin: bool) | ReportAbort

  /**
   * The `switch` of `on_message` on the command id: End, UnBindResp and
   * every other id are only logged.
   */
  function Handle(c: Option<Command>): (h: Handler)
    ensures h.Serve? <==> c == Some(Begin) || c == Some(Continue)
    ensures h.Serve? ==> (h.isBegin <==> c == Some(Begin))
    ensures h == ReportBind <==> c == Some(BindResp)
    ensures h == AnswerShake <==> c == Some(ShakeResp)
    ensures h == ReportAbort <==> c == Some(Abort)
  {
    match c
    case Some(BindResp) => ReportBind
    case Some(ShakeResp) => AnswerShake
    case Some(Begin) => Serve(true)
    case Some(Continue) => Serve(false)
    case Some(Abort) => ReportAbort
    case _ => Ignore
  }

  /**
   * One call of `on_message` with counter `id`: the new counter and the
   * effect. Begin and Continue answer with a 256-byte reply whose sender id
   * is `++id` and `id` respectively; BindResp and Abort report to the HTTP
   * server; ShakeResp sends a Shake; everything else does nothing.
   */
  function Step(id: int, whiteList: set<seq<Byte>>, cfg: Settings, msg: seq<Byte>,
                connected: bool, outcome: HttpOutcome): (r: (int, Effect))
    requires IsInt32(id) && |msg| >= 8
    ensures IsInt32(r.0)
    ensures r.1.sent.Some? ==> |r.1.sent.value| >= HEADER_LEN
  {
    var h := if connected then Handle(CommandOf(InboundId(msg))) else Ignore;
    Run(id, whiteList, cfg, msg, outcome, h)
  }

  /** What each branch of `on_message` does. */
  function Run(id: int, whiteList: set<seq<Byte>>, cfg: Settings, msg: seq<Byte>,
               outcome: HttpOutcome, h: Handler): (r: (int, Effect))
    requires IsInt32(id)
    ensures IsInt32(r.0)
    ensures r.1.sent.Some? ==> |r.1.sent.value| >= HEADER_LEN
  {
    match h
    case Ignore => (id, NoEffect)
    case ReportBind => (id, BindRespEffect(msg))
    case AnswerShake => (id, Effect(None, Some(SwapHeader(Loaded(Login.LENGTH_GENERIC, SHAKE_SAMPLE)))))
    case Serve(isBegin) => SessionResult(id, whiteList, cfg, msg, outcome, isBegin)
    case ReportAbort => (id, AbortEffect(msg))
  }

  /**
   * The Begin and Continue cases: Begin takes `++id` as the reply's sender
   * id, Continue the current `id`; the request is the message loaded into a
   * 256-byte PDU and decoded.
   */
  function SessionResult(id: int, whiteList: set<seq<Byte>>, cfg: Settings, msg: seq<Byte>,
                         outcome: HttpOutcome, isBegin: bool): (r: (int, Effect))
    requires IsInt32(id)
    ensures IsInt32(r.0)
    ensures r.1.sent.Some? ==> |r.1.sent.value| >= HEADER_LEN
  {
    var n := if isBegin then NextId(id) else id;
    (n, SessionEffect(FreshReply(ToU32(n)), SwapHeader(Loaded(LENGTH_BEGIN, msg)), outcome, isBegin, whiteList, cfg))
  }

  // ---------------------------------------------------------------------------
  // What on_message promises

  /** The counter moves on for a Begin received while connected, and for nothing else. */
  lemma CounterCountsBegins(id: int, whiteList: set<seq<Byte>>, cfg: Settings, msg: seq<Byte>,
                            connected: bool, outcome: HttpOutcome)
    requires IsInt32(id) && |msg| >= 8
    ensures Step(id, whiteList, cfg, msg, connected, outcome).0
         == if connected && InboundId(msg) == Code(Begin) then NextId(id) else id
  {
    if connected && InboundId(msg) == Code(Begin) {
      assert CommandOf(InboundId(msg)) == Some(Begin);
    }
  }

  /** Every message other than BindResp, ShakeResp, Begin, Continue and Abort, and every message while disconnected, does nothing. */
  lemma OtherMessagesIgnored(id: int, whiteList: set<seq<Byte>>, cfg: Settings, msg: seq<Byte>,
                             connected: bool, outcome: HttpOutcome)
    requires IsInt32(id) && |msg| >= 8
    requires !connected || InboundId(msg) !in {Code(BindResp), Code(ShakeResp), Code(Begin), Code(Continue), Code(Abort)}
    ensures Step(id, whiteList, cfg, msg, connected, outcome) == (id, NoEffect)
  {
  }

  /** A ShakeResp is answered with the bytes of a default-constructed Shake header. */
  lemma ShakeRespAnswered(id: int, whiteList: set<seq<Byte>>, cfg: Settings, msg: seq<Byte>, outcome: HttpOutcome)
    requires IsInt32(id) && |msg| >= 8 && InboundId(msg) == Code(ShakeResp)
    ensures Step(id, whiteList, cfg, msg, true, outcome) == (id, Effect(None, Some(Login.GenericHeader(Code(Shake)))))
  {
    assert CommandOf(InboundId(msg)) == Some(ShakeResp);
    ShakeSampleIsGeneric();
  }

  /**
   * A BindResp reports the status and length words of the message in host
   * order (byte-swapped from the wire) and the system id it carries.
   */
  lemma BindRespReported(id: int, whiteList: set<seq<Byte>>, cfg: Settings, msg: seq<Byte>, outcome: HttpOutcome)
    requires IsInt32(id) && |msg| >= 8 && InboundId(msg) == Code(BindResp)
    ensures var l := Loaded(Login.LENGTH_BIND, msg);
      Step(id, whiteList, cfg, msg, true, outcome)
        == (id, Effect(Some(BindRequest(Bswap32(HeaderWord(l, CommandStatus)), Bswap32(HeaderWord(l, CommandLength)),
                                        Login.SystemId(l))), None))
  {
    assert CommandOf(InboundId(msg)) == Some(BindResp);
  }

  /** An Abort reports the sender id and length words of the message in host order. */
  lemma AbortReported(id: int, whiteList: set<seq<Byte>>, cfg: Settings, msg: seq<Byte>, outcome: HttpOutcome)
    requires IsInt32(id) && |msg| >= 8 && InboundId(msg) == Code(Abort)
    ensures var l := Loaded(HEADER_LEN, msg);
      Step(id, whiteList, cfg, msg, true, outcome)
        == (id, Effect(Some(AbortRequest(Bswap32(HeaderWord(l, SenderId)), Bswap32(HeaderWord(l, CommandLength)))), None))
  {
    assert CommandOf(InboundId(msg)) == Some(Abort);
  }

  /** Whether `msg` is a Begin or a Continue received while connected. */
  predicate IsSession(msg: seq<Byte>, connected: bool, isBegin: bool)
    requires |msg| >= 8
  {
    connected && InboundId(msg) == if isBegin then Code(Begin) else Code(Continue)
  }

  /** A Begin or Continue step: the counter after it, and the session effect on a fresh reply. */
  lemma SessionStep(id: int, whiteList: set<seq<Byte>>, cfg: Settings, msg: seq<Byte>,
                    isBegin: bool, outcome: HttpOutcome)
    requires IsInt32(id) && |msg| >= 8 && IsSession(msg, true, isBegin)
    ensures Step(id, whiteList, cfg, msg, true, outcome) == SessionResult(id, whiteList, cfg, msg, outcome, isBegin)
  {
    assert CommandOf(InboundId(msg)) == Some(if isBegin then Begin else Continue);
  }

  /**
   * A Begin is served exactly when the MSISDN it carries is whitelisted; a
   * Continue always is. Served, the HTTP request carries the command, the
   * message's sender id and length in host order, its MSISDN and its content.
   */
  lemma SessionRequested(id: int, whiteList: set<seq<Byte>>, cfg: Settings, msg: seq<Byte>,
                         isBegin: bool, outcome: HttpOutcome)
    requires IsInt32(id) && |msg| >= 8 && IsSession(msg, true, isBegin)
    ensures var l := Loaded(LENGTH_BEGIN, msg); var e := Step(id, whiteList, cfg, msg, true, outcome).1;
      && (e.request.Some? <==> !isBegin || Msisdn(l) in whiteList)
      && (e.sent.Some? ==> e.request.Some?)
      && (e.request.Some? ==> e.request.value == SessionRequest(
            if isBegin then Code(Begin) else Code(Continue), Bswap32(HeaderWord(l, SenderId)),
            Bswap32(HeaderWord(l, CommandLength)), Msisdn(l), UssdContent(l)))
  {
    var l := Loaded(LENGTH_BEGIN, msg);
    assert CommandOf(InboundId(msg)) == Some(if isBegin then Begin else Continue);
    SwapHeaderWord(l, SenderId);
    SwapHeaderWord(l, CommandLength);
    BodyView(SwapHeader(l), l);
  }

  /** The reply is sent whenever the request is made, except when `check_json` throws. */
  lemma SessionReplied(id: int, whiteList: set<seq<Byte>>, cfg: Settings, msg: seq<Byte>,
                       isBegin: bool, outcome: HttpOutcome)
    requires IsInt32(id) && |msg| >= 8 && IsSession(msg, true, isBegin)
    ensures var e := Step(id, whiteList, cfg, msg, true, outcome).1;
      e.sent.Some? <==> e.request.Some? && Replies(outcome)
  {
    assert CommandOf(InboundId(msg)) == Some(if isBegin then Begin else Continue);
  }

  /**
   * A sent reply, decoded, is addressed back: its sender id is the counter
   * after the call (`++id` for Begin, `id` for Continue), its receiver the
   * message's sender id, status 0, version 0x20, the message's MSISDN and
   * service code, code scheme 0x0F.
   */
  lemma SessionReplyAddressed(id: int, whiteList: set<seq<Byte>>, cfg: Settings, msg: seq<Byte>,
                              isBegin: bool, outcome: HttpOutcome)
    requires IsInt32(id) && |msg| >= 8 && IsSession(msg, true, isBegin)
    ensures var l := Loaded(LENGTH_BEGIN, msg); var r := Step(id, whiteList, cfg, msg, true, outcome);
      r.1.sent.Some? ==>
        var w := View(SwapHeader(r.1.sent.value));
        w == BeginView(w.command, 0, ToU32(r.0), Bswap32(HeaderWord(l, SenderId)), PHASE_II, w.opType,
                       Msisdn(l), ServiceCode(l), CODE_SCHEME_7BIT, w.content)
  {
    var l := Loaded(LENGTH_BEGIN, msg);
    var r := Step(id, whiteList, cfg, msg, true, outcome);
    var n := if isBegin then NextId(id) else id;
    var req := SwapHeader(l);
    var s := FreshReply(ToU32(n));
    SessionStep(id, whiteList, cfg, msg, isBegin, outcome);
    if r.1.sent.Some? {
      assert r.1.sent.value == ReplyBytes(s, req, outcome, isBegin, cfg);
      ReplyAddressing(s, req, outcome, isBegin, cfg);
      SetHeaderWordThenRead(Zeros(LENGTH_BEGIN), SenderId, ToU32(n), SenderId);
      SwapHeaderWord(l, SenderId);
      BodyView(req, l);
    }
  }

  /**
   * A Continue answered after a Begin carries the sender id of the Begin's
   * reply: `++id` there and `id` here name the same session.
   */
  lemma ContinueFollowsBegin(id: int, whiteList: set<seq<Byte>>, cfg: Settings,
                             begin: seq<Byte>, next: seq<Byte>, o1: HttpOutcome, o2: HttpOutcome)
    requires IsInt32(id) && |begin| >= 8 && |next| >= 8
    requires IsSession(begin, true, true) && IsSession(next, true, false)
    ensures var r1 := Step(id, whiteList, cfg, begin, true, o1); var r2 := Step(r1.0, whiteList, cfg, next, true, o2);
      r1.1.sent.Some? && r2.1.sent.Some? ==>
        HeaderWord(SwapHeader(r1.1.sent.value), SenderId) == HeaderWord(SwapHeader(r2.1.sent.value), SenderId)
  {
    var r1 := Step(id, whiteList, cfg, begin, true, o1);
    SessionReplyAddressed(id, whiteList, cfg, begin, true, o1);
    CounterCountsBegins(id, whiteList, cfg, begin, true, o1);
    SessionReplyAddressed(r1.0, whiteList, cfg, next, false, o2);
    CounterCountsBegins(r1.0, whiteList, cfg, next, true, o2);
  }

  /**
   * The length word of a sent reply, decoded, is 65 plus the length of its
   * content, when the content that went in is zero-free and shorter than
   * 182 bytes: the reply starts zeroed, so `size()` ends at the content.
   */
  lemma SessionReplyLength(id: int, whiteList: set<seq<Byte>>, cfg: Settings, msg: seq<Byte>,
                           isBegin: bool, outcome: HttpOutcome)
    requires IsInt32(id) && |msg| >= 8 && IsSession(msg, true, isBegin)
    requires MessagesFit(cfg) && JsonContentFits(outcome, isBegin)
    ensures var e := Step(id, whiteList, cfg, msg, true, outcome).1;
      e.sent.Some? ==>
        var d := SwapHeader(e.sent.value);
        HeaderWord(d, CommandLength) == BEGIN_USSD_CONTENT + |View(d).content|
  {
    var e := Step(id, whiteList, cfg, msg, true, outcome).1;
    var n := if isBegin then NextId(id) else id;
    var s := FreshReply(ToU32(n));
    var req := SwapHeader(Loaded(LENGTH_BEGIN, msg));
    SessionStep(id, whiteList, cfg, msg, isBegin, outcome);
    if e.sent.Some? {
      assert e.sent.value == ReplyBytes(s, req, outcome, isBegin, cfg);
      forall i | BEGIN_USSD_CONTENT <= i < LENGTH_BEGIN ensures s[i] == 0 {
        assert s[i] == s[HEADER_LEN..][i - HEADER_LEN];
      }
      FreshReplyLength(s, req, outcome, isBegin, cfg);
    }
  }

  /** `gateway_t`, with the configuration, the whitelist and the Bind PDU it keeps, and the counter of `on_message`. */
  class Gateway {
    var id: int
    const whiteList: set<seq<Byte>>
    const cfg: Settings
    const bindMsg: StaticBuffer

    ghost predicate Valid()
      reads this, bindMsg, bindMsg.data
    {
      && IsInt32(id)
      && bindMsg.data.Length == Login.LENGTH_BIND
      && bindMsg.data[..] == BindPdu(Zeros(Login.LENGTH_BIND), cfg)
    }

    /** The constructor: `setup_bind` on the zeroed Bind buffer; `whiteList` is what `build_whitelist` read. */
    constructor (cfg: Settings, whiteList: set<seq<Byte>>)
      ensures Valid() && fresh(bindMsg) && fresh(bindMsg.data)
      ensures this.cfg == cfg && this.whiteList == whiteList && id == 0
    {
      this.cfg := cfg;
      this.whiteList := whiteList;
      id := 0;
      var b := new StaticBuffer.Default(Login.LENGTH_BIND);
      SetupBind(cfg, b);
      bindMsg := b;
    }

    /** `on_connect`: when connected, `setup_bind` again and send the whole Bind buffer. */
    method OnConnect(connected: bool) returns (sent: Option<seq<Byte>>)
      requires Valid()
      modifies bindMsg.data
      ensures Valid() && unchanged(this)
      ensures sent == if connected then Some(BindPdu(Zeros(Login.LENGTH_BIND), cfg)) else None
    {
      if connected {
        SetupBind(cfg, bindMsg);
        BindPduIdempotent(Zeros(Login.LENGTH_BIND), cfg);
        sent := Some(bindMsg.data[..]);
      } else {
        sent := None;
      }
    }

    /** `build_begin(pdu, pdu_req, fn)` and `build_continue(pdu, pdu_req, fn)` with the HTTP outcome given. */
    method BuildSession(pdu: StaticBuffer, req: StaticBuffer, outcome: HttpOutcome, isBegin: bool) returns (e: Effect)
      requires pdu.data.Length == req.data.Length == LENGTH_BEGIN && pdu.data != req.data
      modifies pdu.data, req.data
      ensures e == SessionEffect(old(pdu.data[..]), SwapHeader(old(req.data[..])), outcome, isBegin, whiteList, cfg)
    {
      DecodeHeader(req);
      var msisdn := ReadMsisdn(req);
      if isBegin && msisdn !in whiteList {
        return NoEffect;
      }
      var sender := req.Get32(Offset(SenderId));
      var length := req.Get32(Offset(CommandLength));
      var content := ReadUssdContent(req);
      PrepareReply(pdu, req);
      var request := SessionRequest(if isBegin then Code(Begin) else Code(Continue), sender, length, msisdn, content);
      var sent := Callback(pdu, outcome, isBegin, cfg);
      e := Effect(Some(request), if sent then Some(pdu.data[..]) else None);
    }

    /** The Begin and Continue cases: a fresh reply with sender id `sid`, and the request loaded from the message. */
    method OnSession(msg: seq<Byte>, sid: U32, outcome: HttpOutcome, isBegin: bool) returns (e: Effect)
      ensures e == SessionEffect(FreshReply(sid), SwapHeader(Loaded(LENGTH_BEGIN, msg)), outcome, isBegin, whiteList, cfg)
    {
      var pdu := new StaticBuffer.Default(LENGTH_BEGIN);
      var req := new StaticBuffer.FromPointer(LENGTH_BEGIN, msg, |msg|);
      SetHeader(pdu, SenderId, sid);
      ghost var s := pdu.data[..];
      ghost var r := req.data[..];
      assert s == FreshReply(sid);
      assert r == Loaded(LENGTH_BEGIN, msg);
      e := BuildSession(pdu, req, outcome, isBegin);
    }

    /** `on_message(conn, msg)`: `msg` is the readable bytes, `outcome` how the HTTP exchange it starts ends. */
    method OnMessage(msg: seq<Byte>, connected: bool, outcome: HttpOutcome) returns (e: Effect)
      requires Valid() && |msg| >= 8
      modifies this
      ensures Valid()
      ensures (id, e) == Step(old(id), whiteList, cfg, msg, connected, outcome)
    {
      if !connected {
        return NoEffect;
      }
      var h := Handle(CommandOf(InboundId(msg)));
      ghost var id0 := id;
      if h == ReportBind {
        e := OnBindResp(msg);
      } else if h == AnswerShake {
        var sent := SendShake();
        e := Effect(None, Some(sent));
      } else if h.Serve? {
        if h.isBegin {
          id := NextId(id);
        }
        e := OnSession(msg, ToU32(id), outcome, h.isBegin);
        assert (id, e) == SessionResult(id0, whiteList, cfg, msg, outcome, h.isBegin);
      } else if h == ReportAbort {
        e := OnAbort(msg);
      } else {
        e := NoEffect;
      }
    }
  }
}
