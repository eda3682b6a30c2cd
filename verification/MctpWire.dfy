/** The MCTP IPC wire protocol: request and response frames and the status codes they carry. */
module MctpWire {
  import opened Bytes
  import opened Bits

  const HEADER: nat := 12
  const MAX_PAYLOAD_SIZE: nat := 1023
  const MAX_RESPONSE_SIZE: nat := HEADER + MAX_PAYLOAD_SIZE
  const NO_HANDLE: u32 := 0xFFFF_FFFF

  const IC: u8 := 1
  const HAS_HANDLE: u8 := 2
  const HAS_EID: u8 := 4
  const HAS_TAG: u8 := 8

  datatype ResponseCode =
    | Success | InternalError | NoSpace | AddrInUse | TimedOut | BadArgument | ServerRestarted

  function CodeByte(c: ResponseCode): u8 {
    match c
    case Success => 0
    case InternalError => 1
    case NoSpace => 2
    case AddrInUse => 3
    case TimedOut => 4
    case BadArgument => 5
    case ServerRestarted => 6
  }

  function CodeFromByte(b: u8): ResponseCode {
    match b
    case 0 => Success
    case 2 => NoSpace
    case 3 => AddrInUse
    case 4 => TimedOut
    case 5 => BadArgument
    case 6 => ServerRestarted
    case _ => InternalError
  }

  /** One client operation. */
  datatype Call =
    | SetEid(eid: u8)
    | GetEid
    | Listener(msgType: u8)
    | Req(eid: u8)
    | Recv(handle: u32, timeout: u32)
    | Send(to: Option<u32>, msgType: u8, dest: Option<u8>, tag: Option<u8>, ic: bool, payload: seq<u8>)
    | Unbind(handle: u32)

  datatype RequestHeader = RequestHeader(op: u8, flags: u8, msgType: u8, eid: u8, handle: u32, tag: u8)

  datatype ResponseHeader = ResponseHeader(
    code: u8, flags: u8, msgType: u8, eid: u8, handle: u32, payloadLen: u16, tag: u8)

  function RequestBytes(h: RequestHeader): (b: seq<u8>)
    ensures |b| == HEADER
  {
    [h.op, h.flags, h.msgType, h.eid] + Le32(h.handle) + [h.tag, 0, 0, 0]
  }

  function ResponseBytes(h: ResponseHeader): (b: seq<u8>)
    ensures |b| == HEADER
  {
    [h.code, h.flags, h.msgType, h.eid] + Le32(h.handle) + Le16(h.payloadLen) + [h.tag, 0]
  }

  function ParseRequest(b: seq<u8>): Option<RequestHeader> {
    if |b| < HEADER then None
    else Some(RequestHeader(b[0], b[1], b[2], b[3], FromLe32(b[4..8]), b[8]))
  }

  function ParseResponse(b: seq<u8>): Option<ResponseHeader> {
    if |b| < HEADER then None
    else Some(ResponseHeader(b[0], b[1], b[2], b[3], FromLe32(b[4..8]), FromLe16(b[8..10]), b[10]))
  }

  /** Headers survive the wire whatever follows them. */
  lemma {:induction false} RequestHeaderRoundTrips(h: RequestHeader, rest: seq<u8>)
    ensures ParseRequest(RequestBytes(h) + rest) == Some(h)
  {
    assert (RequestBytes(h) + rest)[4..8] == Le32(h.handle);
  }

  lemma {:induction false} ResponseHeaderRoundTrips(h: ResponseHeader, rest: seq<u8>)
    ensures ParseResponse(ResponseBytes(h) + rest) == Some(h)
  {
    assert (ResponseBytes(h) + rest)[4..8] == Le32(h.handle);
    assert (ResponseBytes(h) + rest)[8..10] == Le16(h.payloadLen);
  }

  function Flags(ic: bool, handle: bool, eid: bool, tag: bool): u8 {
    (if ic then IC else 0) + (if handle then HAS_HANDLE else 0)
    + (if eid then HAS_EID else 0) + (if tag then HAS_TAG else 0)
  }

  /** Each flag bit can be read back, independently of the others. */
  lemma {:induction false} FlagsSeparate(ic: bool, handle: bool, eid: bool, tag: bool)
    ensures var f := Flags(ic, handle, eid, tag);
            && (And(f, IC) != 0 <==> ic)
            && (And(f, HAS_HANDLE) != 0 <==> handle)
            && (And(f, HAS_EID) != 0 <==> eid)
            && (And(f, HAS_TAG) != 0 <==> tag)
  {
    var f := Flags(ic, handle, eid, tag);
    assert f % 2 == (if ic then 1 else 0);
    assert f / 2 % 2 == (if handle then 1 else 0);
    assert f / 4 % 2 == (if eid then 1 else 0);
    assert f / 8 % 2 == (if tag then 1 else 0);
    LowBits(f);
    HighBits(f);
  }

  lemma {:induction false} LowBits(f: nat)
    ensures And(f, 1) != 0 <==> f % 2 == 1
    ensures And(f, 2) != 0 <==> f / 2 % 2 == 1
  {
    AndBit(f, 0);
    AndBit(f, 1);
    assert Pow2(1) == 2 && High(f, 1) == High(f / 2, 0);
  }

  lemma {:induction false} HighBits(f: nat)
    ensures And(f, 4) != 0 <==> f / 4 % 2 == 1
    ensures And(f, 8) != 0 <==> f / 8 % 2 == 1
  {
    AndBit(f, 2);
    AndBit(f, 3);
    assert Pow2(2) == 4 && Pow2(3) == 2 * Pow2(2) == 8;
    assert High(f, 2) == High(f / 2, 1) == High(f / 2 / 2, 0) == f / 4;
    assert High(f, 3) == High(f / 2, 2) == High(f / 2 / 2, 1) == High(f / 2 / 2 / 2, 0) == f / 8;
  }

  function OptionOr<T>(o: Option<T>, default: T): T {
    if o.Some? then o.value else default
  }

  /** The header of a request. */
  function CallHeader(c: Call): RequestHeader {
    match c
    case SetEid(eid) => RequestHeader(0, 0, 0, eid, 0, 0)
    case GetEid => RequestHeader(1, 0, 0, 0, 0, 0)
    case Listener(msgType) => RequestHeader(2, 0, msgType, 0, 0, 0)
    case Req(eid) => RequestHeader(3, 0, 0, eid, 0, 0)
    case Recv(handle, _) => RequestHeader(4, HAS_HANDLE, 0, 0, handle, 0)
    case Send(to, msgType, dest, tag, ic, _) =>
      RequestHeader(5, Flags(ic, to.Some?, dest.Some?, tag.Some?), msgType,
                    OptionOr(dest, 0), OptionOr(to, NO_HANDLE), OptionOr(tag, 0))
    case Unbind(handle) => RequestHeader(6, HAS_HANDLE, 0, 0, handle, 0)
  }

  function CallPayload(c: Call): seq<u8> {
    match c
    case Recv(_, timeout) => Le32(timeout)
    case Send(_, _, _, _, _, payload) => payload
    case _ => []
  }

  function CallBytes(c: Call): seq<u8> {
    RequestBytes(CallHeader(c)) + CallPayload(c)
  }

  /** The operation a request of arbitrary bytes asks for, if any. */
  function ParseCall(b: seq<u8>): Option<Call> {
    match ParseRequest(b)
    case None => None
    case Some(h) =>
      match h.op
      case 0 => Some(SetEid(h.eid))
      case 1 => Some(GetEid)
      case 2 => Some(Listener(h.msgType))
      case 3 => Some(Req(h.eid))
      case 4 => Some(Recv(h.handle, if |b| < HEADER + 4 then 0 else FromLe32(b[HEADER..HEADER + 4])))
      case 5 =>
        Some(Send(if And(h.flags, HAS_HANDLE) != 0 then Some(h.handle) else None, h.msgType,
                  if And(h.flags, HAS_EID) != 0 then Some(h.eid) else None,
                  if And(h.flags, HAS_TAG) != 0 then Some(h.tag) else None,
                  And(h.flags, IC) != 0, b[HEADER..]))
      case 6 => Some(Unbind(h.handle))
      case _ => None
  }

  /** Every operation, with every combination of optional fields, survives the wire. */
  lemma {:induction false} CallRoundTrips(c: Call)
    ensures ParseCall(CallBytes(c)) == Some(c)
  {
    RequestHeaderRoundTrips(CallHeader(c), CallPayload(c));
    var b := CallBytes(c);
    match c
    case Recv(_, timeout) =>
      assert b[HEADER..HEADER + 4] == Le32(timeout);
    case Send(to, _, dest, tag, ic, payload) =>
      FlagsSeparate(ic, to.Some?, dest.Some?, tag.Some?);
      assert b[HEADER..] == payload;
    case _ =>
  }

  /** A received message as the wire carries it. */
  datatype Message = Message(msgType: u8, ic: bool, tag: u8, source: u8, payload: seq<u8>)

  /** What an operation is answered with. */
  datatype Answer =
    | Done | EidIs(eid: u8) | HandleIs(handle: u32) | TagIs(tag: u8) | Got(msg: Message) | Failed(code: ResponseCode)

  const PLAIN := ResponseHeader(0, 0, 0, 0, 0, 0, 0)

  /** The frame of an answer; a message too large for the wire turns into an internal error. */
  function AnswerBytes(a: Answer): seq<u8> {
    match a
    case Done => ResponseBytes(PLAIN)
    case EidIs(eid) => ResponseBytes(PLAIN.(eid := eid))
    case HandleIs(handle) => ResponseBytes(PLAIN.(handle := handle))
    case TagIs(tag) => ResponseBytes(PLAIN.(tag := tag))
    case Got(m) =>
      if |m.payload| > MAX_PAYLOAD_SIZE then ResponseBytes(PLAIN.(code := CodeByte(InternalError)))
      else
        var h := ResponseHeader(0, if m.ic then IC else 0, m.msgType, m.source, 0, |m.payload|, m.tag);
        ResponseBytes(h) + m.payload
    case Failed(code) => ResponseBytes(PLAIN.(code := CodeByte(code)))
  }
}
