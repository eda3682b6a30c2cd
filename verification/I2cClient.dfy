/** Client side of the I2C driver, and its composition with the server over
    the in-process loopback transport. */
module I2cClient {
  import opened Bytes
  import opened I2cProtocol
  import opened I2cBus
  import Server = I2cServer

  datatype ClientError = ServerError(status: I2cError) | InvalidResponse | RequestTooBig | TooManyOps
  datatype Result<+T, +E> = Ok(value: T) | Err(error: E)

  function KindByte(op: Operation): u8 {
    if op.Read? then KIND_READ else KIND_WRITE
  }

  /** The descriptor array, in operation order. */
  function DescBytes(ops: seq<Operation>): seq<u8>
    requires forall i :: 0 <= i < |ops| ==> |ops[i].data| < 0x1_0000
  {
    if ops == [] then []
    else
      var op := ops[|ops| - 1];
      DescBytes(ops[..|ops| - 1]) + OpDesc(KindByte(op), |op.data|)
  }

  lemma {:induction false} OpFits(ops: seq<Operation>, i: nat)
    requires i < |ops|
    ensures |ops[i].data| <= |WriteBytes(ops)| || |ops[i].data| <= |ReadBytes(ops)|
  {
    if ops[i].Write? { WriteBytesAt(ops, i); } else { ReadBytesAt(ops, i); }
  }

  lemma {:induction false} FitsShort(ops: seq<Operation>)
    requires Fits(ops)
    ensures forall i :: 0 <= i < |ops| ==> |ops[i].data| <= MAX_PAYLOAD_SIZE
  {
    forall i | 0 <= i < |ops| ensures |ops[i].data| <= MAX_PAYLOAD_SIZE { OpFits(ops, i); }
  }

  /** Header, descriptor array and inline payload of a transaction. */
  function Framed(address: u8, opCount: nat, descs: seq<u8>, writes: seq<u8>): seq<u8>
    requires opCount <= MAX_OPS && |descs| == opCount * OP_DESC && |writes| <= MAX_PAYLOAD_SIZE
  {
    RequestHeader(OP_TRANSACTION, address, opCount, |descs| + |writes|) + (descs + writes)
  }

  /** One whole transaction as a request. */
  function Request(address: u8, ops: seq<Operation>): seq<u8>
    requires Fits(ops)
  {
    FitsShort(ops);
    DescBytesLength(ops);
    Framed(address, |ops|, DescBytes(ops), WriteBytes(ops))
  }

  lemma {:induction false} DescBytesAt(ops: seq<Operation>, i: nat)
    requires i < |ops|
    requires forall k :: 0 <= k < |ops| ==> |ops[k].data| < 0x1_0000
    ensures |DescBytes(ops)| == |ops| * OP_DESC
    ensures DescBytes(ops)[i * OP_DESC..i * OP_DESC + OP_DESC] == OpDesc(KindByte(ops[i]), |ops[i].data|)
  {
    var n := |ops| - 1;
    if n > 0 {
      DescBytesAt(ops[..n], if i < n then i else 0);
    }
    assert |DescBytes(ops[..n])| == n * OP_DESC;
    if i < n {
      assert DescBytes(ops)[i * OP_DESC..i * OP_DESC + OP_DESC]
          == DescBytes(ops[..n])[i * OP_DESC..i * OP_DESC + OP_DESC];
    }
  }

  lemma {:induction false} DescBytesLength(ops: seq<Operation>)
    requires forall k :: 0 <= k < |ops| ==> |ops[k].data| < 0x1_0000
    ensures |DescBytes(ops)| == |ops| * OP_DESC
  {
    if ops != [] { DescBytesAt(ops, 0); }
  }

  lemma {:induction false} DescsRoundTrip(address: u8, ops: seq<Operation>)
    requires Fits(ops)
    ensures var request := Request(address, ops);
            && Server.HeaderOk(request) && Server.KindsOk(request)
            && |Server.Descs(request)| == |ops|
            && forall i :: 0 <= i < |ops| ==> Server.Descs(request)[i] == Server.Desc(ops[i].Read?, |ops[i].data|)
  {
    HeaderRoundTrips(address, ops);
    forall i | 0 <= i < |ops|
      ensures Server.KnownKind(Request(address, ops), i)
      ensures Server.Descs(Request(address, ops))[i] == Server.Desc(ops[i].Read?, |ops[i].data|)
    {
      DescRoundTrips(address, ops, i);
    }
  }

  /** Parsing undoes encoding: address, order, kinds, lengths and write bytes all survive. */
  lemma {:induction false} RequestRoundTrips(address: u8, ops: seq<Operation>, capacity: nat)
    requires Fits(ops) && RESPONSE_HEADER + |ReadBytes(ops)| <= capacity
    ensures Server.WellFormed(Request(address, ops), capacity)
    ensures Server.Address(Request(address, ops)) == address
    ensures Server.Requested(Request(address, ops)) == Zeroed(ops)
  {
    HeaderRoundTrips(address, ops);
    DescsRoundTrip(address, ops);
    DescribedOpsRequested(Request(address, ops), ops);
  }

  /** A request that describes `ops` and carries their write bytes asks for `ops`. */
  lemma {:induction false} DescribedOpsRequested(request: seq<u8>, ops: seq<Operation>)
    requires Server.HeaderOk(request) && |Server.Descs(request)| == |ops|
    requires forall i :: 0 <= i < |ops| ==> Server.Descs(request)[i] == Server.Desc(ops[i].Read?, |ops[i].data|)
    requires request[Server.WriteBase(request)..] == WriteBytes(ops)
    ensures Server.Total(Server.Descs(request), true) == |ReadBytes(ops)|
    ensures Server.Total(Server.Descs(request), false) == |WriteBytes(ops)|
    ensures Server.Requested(request) == Zeroed(ops)
  {
    var descs, base := Server.Descs(request), Server.WriteBase(request);
    Server.TotalsAgree(ops, descs);
    forall i | 0 <= i < |ops| ensures Server.OpAt(request, descs, base, i) == Zeroed(ops)[i] {
      DescribedOp(request, descs, base, ops, i);
    }
  }

  lemma {:induction false} SliceOfTail(s: seq<u8>, base: nat, at: nat, len: nat)
    requires base + at + len <= |s|
    ensures s[base..][at..at + len] == s[base + at..base + at + len]
  {}

  lemma {:induction false} DescribedOp(request: seq<u8>, descs: seq<Server.Desc>, base: nat, ops: seq<Operation>,
                                       i: nat)
    requires |descs| == |ops| && i < |ops| && base <= |request| && request[base..] == WriteBytes(ops)
    requires forall k :: 0 <= k < |ops| ==> descs[k] == Server.Desc(ops[k].Read?, |ops[k].data|)
    ensures Server.Total(descs, false) == |WriteBytes(ops)|
    ensures Server.OpAt(request, descs, base, i) == Zeroed(ops)[i]
  {
    Server.TotalsAgree(ops, descs);
    Server.TotalsAgree(ops[..i], descs[..i]);
    assert descs[i] == Server.Desc(ops[i].Read?, |ops[i].data|);
    if ops[i].Write? {
      WriteBytesAt(ops, i);
      SliceOfTail(request, base, |WriteBytes(ops[..i])|, |ops[i].data|);
      assert Server.OpAt(request, descs, base, i) == Write(ops[i].data);
    }
  }

  lemma {:induction false} HeaderRoundTrips(address: u8, ops: seq<Operation>)
    requires Fits(ops)
    ensures var request := Request(address, ops);
            && Server.HeaderOk(request)
            && Server.OpCount(request) == |ops|
            && Server.Address(request) == address
            && request[Server.WriteBase(request)..] == WriteBytes(ops)
  {
    FitsShort(ops);
    DescBytesLength(ops);
    FrameParses(address, |ops|, DescBytes(ops), WriteBytes(ops));
  }

  lemma {:induction false} FrameParses(address: u8, opCount: nat, descs: seq<u8>, writes: seq<u8>)
    requires opCount <= MAX_OPS && |descs| == opCount * OP_DESC && |writes| <= MAX_PAYLOAD_SIZE
    ensures var request := Framed(address, opCount, descs, writes);
            && Server.HeaderOk(request)
            && Server.OpCount(request) == opCount
            && Server.Address(request) == address
            && request[REQUEST_HEADER..] == descs + writes
            && request[Server.WriteBase(request)..] == writes
  {
    HeaderFields(OP_TRANSACTION, address, opCount, |descs| + |writes|, descs + writes);
    var request := Framed(address, opCount, descs, writes);
    assert request[REQUEST_HEADER..] == descs + writes;
    assert request[4..6] == Le16(opCount) && request[2..4] == Le16(address);
    assert request[REQUEST_HEADER + |descs|..] == writes;
  }

  lemma {:induction false} DescRoundTrips(address: u8, ops: seq<Operation>, i: nat)
    requires Fits(ops) && i < |ops|
    ensures var request := Request(address, ops);
            && REQUEST_HEADER + (i + 1) * OP_DESC <= |request|
            && Server.KnownKind(request, i)
            && Server.DescAt(request, i) == Server.Desc(ops[i].Read?, |ops[i].data|)
  {
    FitsShort(ops);
    DescBytesAt(ops, i);
    var request := Request(address, ops);
    var off := REQUEST_HEADER + i * OP_DESC;
    var desc := DescBytes(ops)[i * OP_DESC..i * OP_DESC + OP_DESC];
    assert request[off..off + OP_DESC] == desc;
    assert request[off] == desc[0];
    assert request[off + 2..off + 4] == desc[2..4] == Le16(|ops[i].data|);
  }

  /** How the client reads a reply, whatever its bytes are. */
  function Interpret(reply: seq<u8>, readTotal: nat): Result<seq<u8>, ClientError> {
    if |reply| < RESPONSE_HEADER then Err(InvalidResponse)
    else if reply[0] != 0 then Err(ServerError(ErrorFromByte(reply[0])))
    else
      var n := FromLe16(reply[2..4]);
      if n != readTotal || |reply| < RESPONSE_HEADER + n then Err(InvalidResponse)
      else Ok(reply[RESPONSE_HEADER..RESPONSE_HEADER + n])
  }

  function ScatteredAt(ops: seq<Operation>, payload: seq<u8>, i: nat): (op: Operation)
    requires |ReadBytes(ops)| <= |payload| && i < |ops|
    ensures op.Read? == ops[i].Read? && |op.data| == |ops[i].data| && (op.Write? ==> op == ops[i])
  {
    if ops[i].Write? then ops[i]
    else
      ReadBytesAt(ops, i);
      var at := |ReadBytes(ops[..i])|;
      Read(payload[at..at + |ops[i].data|])
  }

  /** Reads take their bytes from `payload` in order; writes stay. */
  function Scattered(ops: seq<Operation>, payload: seq<u8>): (s: seq<Operation>)
    requires |ReadBytes(ops)| <= |payload|
    ensures SameShape(s, ops)
  {
    seq(|ops|, i requires 0 <= i < |ops| => ScatteredAt(ops, payload, i))
  }

  lemma {:induction false} ScatterUndoesGather(ops: seq<Operation>, filled: seq<Operation>)
    requires SameShape(filled, ops)
    ensures |ReadBytes(ops)| == |ReadBytes(filled)|
    ensures Scattered(ops, ReadBytes(filled)) == filled
  {
    SameShapeSameSizes(filled, ops);
    forall i | 0 <= i < |ops| ensures Scattered(ops, ReadBytes(filled))[i] == filled[i] {
      SameShapeSameSizes(filled[..i], ops[..i]);
      if ops[i].Read? { ReadBytesAt(filled, i); }
    }
  }

  lemma {:induction false} InterpretUndoesEncode(a: Server.Answer, readTotal: nat)
    requires a.Payload? ==> |a.bytes| == readTotal <= MAX_PAYLOAD_SIZE
    ensures Interpret(Server.Encoded(a), readTotal)
            == match a { case Payload(bytes) => Ok(bytes) case Failure(status) => Err(ServerError(status)) }
  {
    var reply := Server.Encoded(a);
    if a.Payload? {
      assert reply[2..4] == Le16(readTotal);
      assert reply[RESPONSE_HEADER..RESPONSE_HEADER + readTotal] == a.bytes;
    }
  }

  /** Everything a caller of the client can observe of one transaction. */
  datatype RpcOutcome<S> = RpcOutcome(
    state: S, calls: seq<(u8, seq<Operation>)>, ops: seq<Operation>, result: Result<(), ClientError>)

  /** The whole round trip: size checks, encode, serve, decode, scatter. */
  function Rpc<S>(behave: Behaviour<S>, s: S, address: u8, ops: seq<Operation>): RpcOutcome<S> {
    if |ops| > MAX_OPS then RpcOutcome(s, [], ops, Err(TooManyOps))
    else if !Fits(ops) then RpcOutcome(s, [], ops, Err(RequestTooBig))
    else
      var served := Server.Serve(behave, s, Request(address, ops), MAX_BUF_SIZE);
      match Interpret(Server.Encoded(served.answer), |ReadBytes(ops)|)
      case Err(e) => RpcOutcome(served.state, served.calls, ops, Err(e))
      case Ok(payload) => RpcOutcome(served.state, served.calls, Scattered(ops, payload), Ok(()))
  }

  /** The error kind a consumer sees. */
  function Kind(e: ClientError): ErrorKind {
    match e
    case ServerError(status) => KindFromWire(status)
    case _ => Other
  }

  lemma {:induction false} KindRoundTrips(k: ErrorKind)
    ensures KindFromWire(KindToWire(k)) == k
  {}

  /** The refinement theorem: for every bus and every transaction that fits, the round trip makes
      exactly one bus call, with the caller's address, order, write bytes and read lengths over
      zeroed read buffers. On success the caller's reads are the bus's; on failure they are
      untouched and the reported kind is the bus's. */
  lemma {:induction false} RpcRefinesBus<S>(behave: Behaviour<S>, s: S, address: u8, ops: seq<Operation>)
    requires Fits(ops)
    ensures var rpc, o := Rpc(behave, s, address, ops), behave(s, address, Zeroed(ops));
            && rpc.state == o.state
            && rpc.calls == [(address, Zeroed(ops))]
            && (o.error.None? ==> rpc.result == Ok(()) && rpc.ops == Filled(ops, o.byteAt))
            && (o.error.Some? ==> rpc.result.Err? && Kind(rpc.result.error) == o.error.value && rpc.ops == ops)
  {
    RequestRoundTrips(address, ops, MAX_BUF_SIZE);
    var o := behave(s, address, Zeroed(ops));
    var filled := Filled(Zeroed(ops), o.byteAt);
    assert filled == Filled(ops, o.byteAt);
    ScatterUndoesGather(ops, filled);
    var served := Server.Serve(behave, s, Request(address, ops), MAX_BUF_SIZE);
    InterpretUndoesEncode(served.answer, |ReadBytes(ops)|);
    if o.error.Some? { KindRoundTrips(o.error.value); }
  }

  /** Every transaction, on every bus: it succeeds exactly when the bus was called once and accepted
      it. One over a limit makes no call and changes nothing; which limit decides the error. */
  lemma {:induction false} RpcSucceedsIff<S>(behave: Behaviour<S>, s: S, address: u8, ops: seq<Operation>)
    ensures var rpc, o := Rpc(behave, s, address, ops), behave(s, address, Zeroed(ops));
            var tooMany, tooBig := |ops| > 16, |WriteBytes(ops)| > 256 || |ReadBytes(ops)| > 256;
            && (rpc.result.Ok? <==> |rpc.calls| == 1 && o.error.None?)
            && (rpc.calls == [] <==> tooMany || tooBig)
            && (rpc.calls == [] ==> rpc.state == s && rpc.ops == ops && rpc.result.Err?)
            && (rpc.result == Err(TooManyOps) <==> tooMany)
            && (rpc.result == Err(RequestTooBig) <==> !tooMany && tooBig)
            && rpc.result != Err(InvalidResponse)
  {
    if Fits(ops) {
      RpcRefinesBus(behave, s, address, ops);
      RequestRoundTrips(address, ops, MAX_BUF_SIZE);
      var served := Server.Serve(behave, s, Request(address, ops), MAX_BUF_SIZE);
      SameShapeSameSizes(Filled(Zeroed(ops), behave(s, address, Zeroed(ops)).byteAt), ops);
      InterpretUndoesEncode(served.answer, |ReadBytes(ops)|);
    }
  }

  /** A bus whose behaviour does not depend on what the read buffers held before. */
  ghost predicate FillsReads<S(!new)>(behave: Behaviour<S>) {
    forall s, address, ops, ops' :: SameShape(ops, ops') ==> behave(s, address, ops) == behave(s, address, ops')
  }

  /** Over such a bus the client cannot be told from the bus itself. */
  lemma {:induction false} RpcIsDirect<S(!new)>(behave: Behaviour<S>, s: S, address: u8, ops: seq<Operation>)
    requires Fits(ops) && FillsReads(behave)
    ensures var rpc, o := Rpc(behave, s, address, ops), behave(s, address, ops);
            && rpc.state == o.state
            && (o.error.None? ==> rpc.result == Ok(()) && rpc.ops == Filled(ops, o.byteAt))
            && (o.error.Some? ==> rpc.result.Err? && Kind(rpc.result.error) == o.error.value && rpc.ops == ops)
  {
    RpcRefinesBus(behave, s, address, ops);
    assert behave(s, address, Zeroed(ops)) == behave(s, address, ops);
  }

  /** Sum the two directions of the caller's list. */
  method Size(ops: array<Operation>) returns (writeTotal: nat, readTotal: nat)
    ensures writeTotal == |WriteBytes(ops[..])| && readTotal == |ReadBytes(ops[..])|
  {
    writeTotal, readTotal := 0, 0;
    for i := 0 to ops.Length
      invariant writeTotal == |WriteBytes(ops[..i])| && readTotal == |ReadBytes(ops[..i])|
    {
      assert ops[..i + 1][..i] == ops[..i];
      match ops[i]
      case Write(data) => writeTotal := writeTotal + |data|;
      case Read(data) => readTotal := readTotal + |data|;
    }
    assert ops[..ops.Length] == ops[..];
  }

  lemma {:induction false} Regroup(a: seq<u8>, b: seq<u8>, c: seq<u8>)
    ensures (a + b) + c == a + (b + c)
  {}

  /** Append the descriptor array to the request, in operation order. */
  method PutDescs(ops: array<Operation>, req: array<u8>, start: nat) returns (off: nat)
    requires forall i :: 0 <= i < ops.Length ==> |ops[i].data| < 0x1_0000
    requires start + ops.Length * OP_DESC <= req.Length
    modifies req
    ensures off == start + ops.Length * OP_DESC
    ensures req[..off] == old(req[..start]) + DescBytes(ops[..])
  {
    ghost var list := ops[..];
    off := start;
    for i := 0 to ops.Length
      invariant off == start + i * OP_DESC && req[..off] == old(req[..start]) + DescBytes(list[..i])
    {
      assert list[..i + 1][..i] == list[..i];
      ghost var desc := OpDesc(KindByte(ops[i]), |ops[i].data|);
      Regroup(old(req[..start]), DescBytes(list[..i]), desc);
      off := Append(req, off, OpDesc(KindByte(ops[i]), |ops[i].data|));
    }
    assert list[..ops.Length] == list;
  }

  /** Append the write payloads, concatenated in operation order. */
  method PutWrites(ops: array<Operation>, req: array<u8>, start: nat) returns (off: nat)
    requires start + |WriteBytes(ops[..])| <= req.Length
    modifies req
    ensures off == start + |WriteBytes(ops[..])|
    ensures req[..off] == old(req[..start]) + WriteBytes(ops[..])
  {
    ghost var list := ops[..];
    off := start;
    for i := 0 to ops.Length
      invariant off == start + |WriteBytes(list[..i])| <= req.Length
      invariant req[..off] == old(req[..start]) + WriteBytes(list[..i])
    {
      assert list[..i + 1][..i] == list[..i];
      if ops[i].Write? {
        WriteBytesAt(list, i);
        Regroup(old(req[..start]), WriteBytes(list[..i]), list[i].data);
        off := Append(req, off, ops[i].data);
      }
    }
    assert list[..ops.Length] == list;
  }

  lemma {:induction false} RequestLayout(address: u8, ops: seq<Operation>)
    requires Fits(ops) && forall i :: 0 <= i < |ops| ==> |ops[i].data| <= MAX_PAYLOAD_SIZE
    ensures Request(address, ops)
            == RequestHeader(OP_TRANSACTION, address, |ops|, |ops| * OP_DESC + |WriteBytes(ops)|)
               + DescBytes(ops) + WriteBytes(ops)
  {
    DescBytesLength(ops);
    var header := RequestHeader(OP_TRANSACTION, address, |ops|, |ops| * OP_DESC + |WriteBytes(ops)|);
    Regroup(header, DescBytes(ops), WriteBytes(ops));
  }

  /** Fill the request buffer: header, descriptors, then inline write payloads. */
  method BuildRequest(address: u8, ops: array<Operation>, writeTotal: nat, req: array<u8>) returns (off: nat)
    requires Fits(ops[..]) && writeTotal == |WriteBytes(ops[..])| && req.Length == MAX_BUF_SIZE
    modifies req
    ensures off <= req.Length && req[..off] == Request(address, ops[..])
  {
    FitsShort(ops[..]);
    DescBytesLength(ops[..]);
    var header := RequestHeader(OP_TRANSACTION, address, ops.Length, ops.Length * OP_DESC + writeTotal);
    off := Append(req, 0, header);
    assert req[..off] == header;
    off := PutDescs(ops, req, off);
    off := PutWrites(ops, req, off);
    RequestLayout(address, ops[..]);
  }

  /** Scatter the reply payload into the caller's read buffers, in order. */
  method Scatter(ops: array<Operation>, payload: seq<u8>)
    requires |ReadBytes(ops[..])| <= |payload|
    modifies ops
    ensures ops[..] == Scattered(old(ops[..]), payload)
  {
    ghost var list := ops[..];
    var rp := 0;
    for i := 0 to ops.Length
      invariant rp == |ReadBytes(list[..i])|
      invariant forall k :: 0 <= k < i ==> ops[k] == ScatteredAt(list, payload, k)
      invariant forall k :: i <= k < ops.Length ==> ops[k] == list[k]
    {
      ReadBytesStep(list, i);
      if ops[i].Read? {
        ReadBytesAt(list, i);
        var n := |ops[i].data|;
        ops[i] := Read(payload[rp..rp + n]);
        rp := rp + n;
      }
      assert ops[i] == ScatteredAt(list, payload, i);
    }
  }

  lemma {:induction false} ReadBytesStep(ops: seq<Operation>, i: nat)
    requires i < |ops|
    ensures |ReadBytes(ops[..i + 1])| == |ReadBytes(ops[..i])| + if ops[i].Read? then |ops[i].data| else 0
  {
    assert ops[..i + 1][..i] == ops[..i];
  }

  /** The client bound to a bus through the loopback transport. */
  method Transact<S>(bus: BusDevice<S>, address: u8, ops: array<Operation>) returns (result: Result<(), ClientError>)
    modifies bus, ops
    ensures var rpc := Rpc(bus.behave, old(bus.state), address, old(ops[..]));
            && bus.state == rpc.state
            && bus.log == old(bus.log) + rpc.calls
            && ops[..] == rpc.ops
            && result == rpc.result
  {
    if ops.Length > MAX_OPS {
      return Err(TooManyOps);
    }
    var writeTotal, readTotal := Size(ops);
    if REQUEST_HEADER + ops.Length * OP_DESC + writeTotal > MAX_BUF_SIZE || writeTotal > MAX_PAYLOAD_SIZE
       || readTotal > MAX_PAYLOAD_SIZE || RESPONSE_HEADER + readTotal > MAX_BUF_SIZE
    {
      return Err(RequestTooBig);
    }
    var req, resp := new u8[MAX_BUF_SIZE](_ => 0), new u8[MAX_BUF_SIZE](_ => 0);
    var off := BuildRequest(address, ops, writeTotal, req);
    var respLen := Server.Dispatch(bus, req[..off], resp);
    match Interpret(resp[..respLen], readTotal)
    case Err(e) =>
      result := Err(e);
    case Ok(payload) =>
      Scatter(ops, payload);
      result := Ok(());
  }
}
