/** Server side of the I2C driver: parse one request of arbitrary bytes, run
    it as a single bus transaction, encode the reply in place. */
module I2cServer {
  import opened Bytes
  import opened I2cProtocol
  import opened I2cBus

  datatype Desc = Desc(isRead: bool, len: nat)

  function OpCount(request: seq<u8>): nat
    requires REQUEST_HEADER <= |request|
  {
    FromLe16(request[4..6])
  }

  function DescAt(request: seq<u8>, i: nat): Desc
    requires REQUEST_HEADER + (i + 1) * OP_DESC <= |request|
  {
    var off := REQUEST_HEADER + i * OP_DESC;
    Desc(request[off] == KIND_READ, FromLe16(request[off + 2..off + 4]))
  }

  predicate KnownKind(request: seq<u8>, i: nat)
    requires REQUEST_HEADER + (i + 1) * OP_DESC <= |request|
  {
    var kind := request[REQUEST_HEADER + i * OP_DESC];
    kind == KIND_WRITE || kind == KIND_READ
  }

  /** Bytes read (or written) by a descriptor list. */
  function Total(descs: seq<Desc>, isRead: bool): nat {
    if descs == [] then 0
    else
      var d := descs[|descs| - 1];
      Total(descs[..|descs| - 1], isRead) + if d.isRead == isRead then d.len else 0
  }

  predicate HeaderOk(request: seq<u8>) {
    && REQUEST_HEADER <= |request|
    && request[0] == OP_TRANSACTION
    && OpCount(request) <= MAX_OPS
    && REQUEST_HEADER + OpCount(request) * OP_DESC <= |request|
  }

  function Descs(request: seq<u8>): (d: seq<Desc>)
    requires HeaderOk(request)
    ensures |d| == OpCount(request)
  {
    seq(OpCount(request), i requires 0 <= i < OpCount(request) => DescAt(request, i))
  }

  function WriteBase(request: seq<u8>): nat
    requires HeaderOk(request)
  {
    REQUEST_HEADER + OpCount(request) * OP_DESC
  }

  predicate KindsOk(request: seq<u8>)
    requires HeaderOk(request)
  {
    forall i :: 0 <= i < OpCount(request) ==> KnownKind(request, i)
  }

  /** A request the server hands to the bus, given the room in its reply buffer. */
  predicate WellFormed(request: seq<u8>, capacity: nat) {
    && HeaderOk(request)
    && KindsOk(request)
    && Total(Descs(request), false) <= MAX_PAYLOAD_SIZE
    && Total(Descs(request), true) <= MAX_PAYLOAD_SIZE
    && WriteBase(request) + Total(Descs(request), false) <= |request|
    && RESPONSE_HEADER + Total(Descs(request), true) <= capacity
  }

  /** The status a request that never reaches the bus is answered with. */
  function Rejection(request: seq<u8>, capacity: nat): I2cError
    requires !WellFormed(request, capacity)
  {
    if |request| < REQUEST_HEADER || request[0] != OP_TRANSACTION then InvalidOperation
    else if OpCount(request) > MAX_OPS then TooManyOperations
    else if !HeaderOk(request) then BufferTooSmall
    else if !KindsOk(request) then InvalidOperation
    else BufferTooSmall
  }

  /** Slices the server carves: reads partition the scratch area, writes the inline payload. */
  function Slices(descs: seq<Desc>, writeBase: nat): (s: seq<Slice>)
    ensures |s| == |descs|
  {
    seq(|descs|, i requires 0 <= i < |descs| =>
      if descs[i].isRead then ReadSlice(Total(descs[..i], true), descs[i].len)
      else WriteSlice(writeBase + Total(descs[..i], false), descs[i].len))
  }

  lemma {:induction false} TotalAppend(descs: seq<Desc>, d: Desc)
    ensures Total(descs + [d], true) == Total(descs, true) + if d.isRead then d.len else 0
    ensures Total(descs + [d], false) == Total(descs, false) + if d.isRead then 0 else d.len
  {
    assert (descs + [d])[..|descs|] == descs;
  }

  lemma {:induction false} TotalPrefix(descs: seq<Desc>, isRead: bool, i: nat)
    requires i < |descs|
    ensures Total(descs[..i], isRead) + (if descs[i].isRead == isRead then descs[i].len else 0) <= Total(descs, isRead)
  {
    var init := descs[..|descs| - 1];
    if i < |init| {
      TotalPrefix(init, isRead, i);
      assert init[..i] == descs[..i];
    }
  }

  lemma {:induction false} SlicesCarved(descs: seq<Desc>, writeBase: nat, requestLen: nat, scratchLen: nat)
    requires writeBase + Total(descs, false) <= requestLen && Total(descs, true) <= scratchLen
    ensures Carved(Slices(descs, writeBase), requestLen, scratchLen)
  {
    forall i | 0 <= i < |descs| ensures
      Total(descs[..i], descs[i].isRead) + descs[i].len <= Total(descs, descs[i].isRead)
    {
      TotalPrefix(descs, descs[i].isRead, i);
    }
    forall i, j | 0 <= i < j < |descs| ensures
      Total(descs[..i], descs[i].isRead) + descs[i].len <= Total(descs[..j], descs[i].isRead)
    {
      TotalPrefix(descs[..j], descs[i].isRead, i);
      assert descs[..j][..i] == descs[..i];
    }
  }

  /** Together with disjointness: the read slices partition the area, the write slices the payload. */
  lemma {:induction false} SlicesCover(descs: seq<Desc>, writeBase: nat, isRead: bool, k: nat) returns (i: nat)
    requires k < Total(descs, isRead)
    ensures i < |descs| && descs[i].isRead == isRead
    ensures var s := Slices(descs, writeBase)[i];
            s.off <= (if isRead then 0 else writeBase) + k < s.off + s.len
  {
    var n := |descs| - 1;
    if k < Total(descs[..n], isRead) {
      i := SlicesCover(descs[..n], writeBase, isRead, k);
      assert descs[..n][..i] == descs[..i];
    } else {
      i := n;
    }
  }

  /** The operations a well-formed request asks for; reads start out zeroed. */
  function Requested(request: seq<u8>): (ops: seq<Operation>)
    requires HeaderOk(request)
    requires WriteBase(request) + Total(Descs(request), false) <= |request|
    ensures |ops| == OpCount(request)
  {
    var descs, base := Descs(request), WriteBase(request);
    seq(|descs|, i requires 0 <= i < |descs| => OpAt(request, descs, base, i))
  }

  /** Operation `i`: a write takes its bytes after those of the writes before it. */
  function OpAt(request: seq<u8>, descs: seq<Desc>, base: nat, i: nat): Operation
    requires i < |descs| && base + Total(descs, false) <= |request|
  {
    if descs[i].isRead then Read(Zeros(descs[i].len))
    else
      TotalPrefix(descs, false, i);
      var off := base + Total(descs[..i], false);
      Write(request[off..off + descs[i].len])
  }

  /** Descriptor totals are the sizes of the operations described. */
  lemma {:induction false} TotalsAgree(ops: seq<Operation>, descs: seq<Desc>)
    requires |descs| == |ops|
    requires forall i :: 0 <= i < |ops| ==> descs[i] == Desc(ops[i].Read?, |ops[i].data|)
    ensures Total(descs, true) == |ReadBytes(ops)|
    ensures Total(descs, false) == |WriteBytes(ops)|
  {
    if ops != [] {
      TotalsAgree(ops[..|ops| - 1], descs[..|ops| - 1]);
    }
  }

  lemma {:induction false} RequestedSize(request: seq<u8>)
    requires HeaderOk(request)
    requires WriteBase(request) + Total(Descs(request), false) <= |request|
    ensures |ReadBytes(Requested(request))| == Total(Descs(request), true)
  {
    var descs, ops := Descs(request), Requested(request);
    forall i | 0 <= i < |descs| ensures descs[i] == Desc(ops[i].Read?, |ops[i].data|) {
      TotalPrefix(descs, false, i);
    }
    TotalsAgree(ops, descs);
  }

  /** The answer to a request, before it is encoded: the bytes read, or a status. */
  datatype Answer = Payload(bytes: seq<u8>) | Failure(status: I2cError)

  function Encoded(a: Answer): seq<u8>
    requires a.Payload? ==> |a.bytes| <= MAX_PAYLOAD_SIZE
  {
    match a
    case Payload(bytes) => ResponseHeader(0, |bytes|) + bytes
    case Failure(status) => ResponseHeader(ErrorByte(status), 0)
  }

  datatype Served<S> = Served(state: S, calls: seq<(u8, seq<Operation>)>, answer: Answer)

  function Address(request: seq<u8>): u8
    requires REQUEST_HEADER <= |request|
  {
    FromLe16(request[2..4]) % 0x100
  }

  /** What serving one request means: at most one bus call and one answer. */
  function Serve<S>(behave: Behaviour<S>, s: S, request: seq<u8>, capacity: nat): (r: Served<S>)
    ensures r.answer.Payload? ==>
              |r.answer.bytes| <= MAX_PAYLOAD_SIZE && RESPONSE_HEADER + |r.answer.bytes| <= capacity
  {
    if !WellFormed(request, capacity) then Served(s, [], Failure(Rejection(request, capacity)))
    else
      var ops := Requested(request);
      var o := behave(s, Address(request), ops);
      RequestedSize(request);
      SameShapeSameSizes(Filled(ops, o.byteAt), ops);
      Served(o.state, [(Address(request), ops)],
        if o.error.Some? then Failure(KindToWire(o.error.value)) else Payload(ReadBytes(Filled(ops, o.byteAt))))
  }

  /** Some of the first `count` descriptors is neither a write (0) nor a read (1). */
  predicate SomeUnknownKind(request: seq<u8>, count: nat)
    requires REQUEST_HEADER + count * OP_DESC <= |request|
  {
    exists i :: 0 <= i < count && request[REQUEST_HEADER + i * OP_DESC] > 1
  }

  /** The lengths in the first `count` descriptors of one kind, byte by byte. */
  function Asked(request: seq<u8>, count: nat, kind: u8): nat
    requires REQUEST_HEADER + count * OP_DESC <= |request|
  {
    if count == 0 then 0
    else
      var at := REQUEST_HEADER + (count - 1) * OP_DESC;
      Asked(request, count - 1, kind)
      + if request[at] == kind then request[at + 2] as int + 256 * request[at + 3] as int else 0
  }

  /** What the descriptors ask for fits the payload limit, the request and the reply. */
  predicate Roomy(request: seq<u8>, count: nat, capacity: nat)
    requires REQUEST_HEADER + count * OP_DESC <= |request|
  {
    var writes, asked := Asked(request, count, 0), Asked(request, count, 1);
    writes <= 256 && asked <= 256 && 8 + 4 * count + writes <= |request| && 4 + asked <= capacity
  }

  lemma {:induction false} AskedIsTotal(request: seq<u8>, n: nat)
    requires HeaderOk(request) && KindsOk(request) && n <= OpCount(request)
    ensures Asked(request, n, 0) == Total(Descs(request)[..n], false)
    ensures Asked(request, n, 1) == Total(Descs(request)[..n], true)
  {
    if n > 0 {
      AskedIsTotal(request, n - 1);
      assert Descs(request)[..n][..n - 1] == Descs(request)[..n - 1];
      assert KnownKind(request, n - 1) && Descs(request)[n - 1] == DescAt(request, n - 1);
    }
  }

  /** Which status a request gets, over every bus. The three statuses of a malformed request are never
      those of a bus fault, so they tell that the bus was not touched, and nothing else does. */
  lemma {:induction false} StatusTellsFault<S>(behave: Behaviour<S>, s: S, request: seq<u8>, capacity: nat)
    ensures var served := Serve(behave, s, request, capacity);
            var headed := |request| >= 8 && request[0] == 1;
            var count := if headed then request[4] as int + 256 * request[5] as int else 0;
            var whole := headed && count <= 16 && 8 + 4 * count <= |request|;
            var unknown := whole && SomeUnknownKind(request, count);
            && (served.answer == Failure(TooManyOperations) <==> headed && count > 16)
            && (served.answer == Failure(InvalidOperation) <==> !headed || unknown)
            && (served.answer == Failure(BufferTooSmall) <==>
                 && headed && count <= 16 && !unknown
                 && (!whole || !Roomy(request, count, capacity)))
            && (served.calls == [] <==>
                 served.answer in {Failure(TooManyOperations), Failure(InvalidOperation), Failure(BufferTooSmall)})
            && (served.calls == [] ==> served.state == s)
            && |served.calls| <= 1
            && (served.calls != [] ==> served.calls[0].0 == request[2] && |served.calls[0].1| == count)
  {
    if HeaderOk(request) {
      var count := OpCount(request);
      assert KindsOk(request) <==> !SomeUnknownKind(request, count) by {
        if SomeUnknownKind(request, count) {
          var i :| 0 <= i < count && request[REQUEST_HEADER + i * OP_DESC] > 1;
          assert !KnownKind(request, i);
        }
      }
      if KindsOk(request) {
        AskedIsTotal(request, count);
        assert Descs(request)[..count] == Descs(request);
      }
    }
  }

  /** Read `i`, if it is one, finds its data in its slice of `bytes`. */
  ghost predicate Stored(descs: seq<Desc>, ops: seq<Operation>, bytes: seq<u8>, i: nat)
    requires i < |descs| == |ops|
  {
    && ops[i].Read? == descs[i].isRead
    && (descs[i].isRead ==>
         var off := Total(descs[..i], true);
         off + descs[i].len <= |bytes| && bytes[off..off + descs[i].len] == ops[i].data)
  }

  /** If every read's slice of the area holds its data, the area is their concatenation. */
  lemma {:induction false} GatherReads(descs: seq<Desc>, ops: seq<Operation>, bytes: seq<u8>)
    requires |ops| == |descs| && Total(descs, true) <= |bytes|
    requires forall i :: 0 <= i < |descs| ==> Stored(descs, ops, bytes, i)
    ensures bytes[..Total(descs, true)] == ReadBytes(ops)
  {
    if descs != [] {
      var n := |descs| - 1;
      forall i | 0 <= i < n ensures Stored(descs[..n], ops[..n], bytes, i) {
        assert Stored(descs, ops, bytes, i);
        assert descs[..n][..i] == descs[..i];
      }
      GatherReads(descs[..n], ops[..n], bytes);
      assert Stored(descs, ops, bytes, n);
    }
  }

  /** Write an answer at the start of the reply buffer. */
  method Encode(response: array<u8>, a: Answer) returns (n: nat)
    requires RESPONSE_HEADER <= response.Length
    requires a.Payload? ==> |a.bytes| <= MAX_PAYLOAD_SIZE && RESPONSE_HEADER + |a.bytes| <= response.Length
    modifies response
    ensures n == |Encoded(a)| <= response.Length
    ensures response[..n] == Encoded(a)
    ensures response[n..] == old(response[n..])
  {
    match a
    case Failure(status) =>
      Copy(response, 0, ResponseHeader(ErrorByte(status), 0));
      n := RESPONSE_HEADER;
    case Payload(bytes) =>
      Copy(response, 0, ResponseHeader(0, |bytes|));
      Copy(response, RESPONSE_HEADER, bytes);
      n := RESPONSE_HEADER + |bytes|;
  }

  /** First pass: validate every descriptor, stash (is_read, len) and size both directions. */
  method ScanDescs(request: seq<u8>) returns (known: bool, meta: seq<Desc>, writeTotal: nat, readTotal: nat)
    requires HeaderOk(request)
    ensures known == KindsOk(request)
    ensures known ==> meta == Descs(request)
    ensures known ==> writeTotal == Total(meta, false) && readTotal == Total(meta, true)
  {
    var opCount := OpCount(request);
    writeTotal, readTotal, meta := 0, 0, [];
    var i := 0;
    while i < opCount
      invariant i <= opCount
      invariant |meta| == i && forall k :: 0 <= k < i ==> meta[k] == DescAt(request, k)
      invariant writeTotal == Total(meta, false) && readTotal == Total(meta, true)
      invariant forall k :: 0 <= k < i ==> KnownKind(request, k)
    {
      if !KnownKind(request, i) {
        return false, meta, writeTotal, readTotal;
      }
      var desc := DescAt(request, i);
      TotalAppend(meta, desc);
      meta := meta + [desc];
      if desc.isRead {
        readTotal := readTotal + desc.len;
      } else {
        writeTotal := writeTotal + desc.len;
      }
      i := i + 1;
    }
    known := true;
  }

  /** Second pass: carve the operation list from the stash. */
  method Carve(meta: seq<Desc>, writeBase: nat) returns (ops: seq<Slice>)
    ensures ops == Slices(meta, writeBase)
  {
    ops := [];
    var wOff, rOff := writeBase, 0;
    var i := 0;
    while i < |meta|
      invariant i <= |meta|
      invariant ops == Slices(meta, writeBase)[..i]
      invariant wOff == writeBase + Total(meta[..i], false) && rOff == Total(meta[..i], true)
    {
      assert meta[..i + 1][..i] == meta[..i];
      if meta[i].isRead {
        ops := ops + [ReadSlice(rOff, meta[i].len)];
        rOff := rOff + meta[i].len;
      } else {
        ops := ops + [WriteSlice(wOff, meta[i].len)];
        wOff := wOff + meta[i].len;
      }
      i := i + 1;
    }
  }

  /** The carved slices denote the requested operations when the scratch area is zero. */
  lemma {:induction false} SlicesAreRequested(request: seq<u8>, scratch: seq<u8>)
    requires HeaderOk(request) && scratch == Zeros(MAX_PAYLOAD_SIZE)
    requires WriteBase(request) + Total(Descs(request), false) <= |request|
    requires Total(Descs(request), true) <= MAX_PAYLOAD_SIZE
    ensures var slices := Slices(Descs(request), WriteBase(request));
            && Carved(slices, |request|, |scratch|)
            && Resolve(slices, request, scratch) == Requested(request)
  {
    var descs, base := Descs(request), WriteBase(request);
    SlicesCarved(descs, base, |request|, |scratch|);
    var seen, ops := Resolve(Slices(descs, base), request, scratch), Requested(request);
    forall i | 0 <= i < |descs| ensures seen[i] == ops[i] {
      SliceIsOp(request, descs, base, scratch, i);
    }
  }

  lemma {:induction false} SliceIsOp(request: seq<u8>, descs: seq<Desc>, base: nat, scratch: seq<u8>, i: nat)
    requires i < |descs| && base + Total(descs, false) <= |request| && Total(descs, true) <= |scratch|
    requires scratch == Zeros(|scratch|)
    ensures var s := Slices(descs, base)[i];
            && s.off + s.len <= (if s.ReadSlice? then |scratch| else |request|)
            && ResolveOne(s, request, scratch) == OpAt(request, descs, base, i)
  {
    var d := descs[i];
    TotalPrefix(descs, d.isRead, i);
    if d.isRead {
      var off := Total(descs[..i], true);
      assert Slices(descs, base)[i] == ReadSlice(off, d.len);
      ZerosSlice(|scratch|, off, d.len);
    } else {
      assert Slices(descs, base)[i] == WriteSlice(base + Total(descs[..i], false), d.len);
    }
  }

  lemma {:induction false} ZerosSlice(n: nat, off: nat, len: nat)
    requires off + len <= n
    ensures Zeros(n)[off..off + len] == Zeros(len)
  {}

  /** After the bus stored its bytes, the read area is the concatenation of the filled reads. */
  lemma {:induction false} ScratchIsReads(request: seq<u8>, byteAt: (nat, nat) -> u8, scratch: seq<u8>)
    requires HeaderOk(request)
    requires WriteBase(request) + Total(Descs(request), false) <= |request|
    requires Total(Descs(request), true) <= |scratch|
    requires Landed(Slices(Descs(request), WriteBase(request)), byteAt, scratch)
    ensures scratch[..Total(Descs(request), true)] == ReadBytes(Filled(Requested(request), byteAt))
  {
    var descs := Descs(request);
    var slices := Slices(descs, WriteBase(request));
    var filled := Filled(Requested(request), byteAt);
    forall i | 0 <= i < |descs| ensures Stored(descs, filled, scratch, i) {
      assert descs[i].isRead ==> slices[i] == ReadSlice(Total(descs[..i], true), descs[i].len);
    }
    GatherReads(descs, filled, scratch);
  }

  /** Replay a well-formed request on the bus; `data` is what its reads brought back. */
  method Replay<S>(bus: BusDevice<S>, request: seq<u8>, meta: seq<Desc>, readTotal: nat)
    returns (error: Option<ErrorKind>, data: seq<u8>)
    requires HeaderOk(request) && meta == Descs(request) && readTotal == Total(meta, true)
    requires WriteBase(request) + Total(meta, false) <= |request| && readTotal <= MAX_PAYLOAD_SIZE
    modifies bus
    ensures var outcome := bus.behave(old(bus.state), Address(request), Requested(request));
            && bus.state == outcome.state
            && error == outcome.error
            && data == ReadBytes(Filled(Requested(request), outcome.byteAt))
    ensures bus.log == old(bus.log) + [(Address(request), Requested(request))]
    ensures |data| == readTotal
  {
    var scratch := new u8[MAX_PAYLOAD_SIZE](_ => 0);
    var ops := Carve(meta, WriteBase(request));
    SlicesAreRequested(request, scratch[..]);
    error := bus.Transaction(Address(request), request, scratch, ops);
    data := scratch[..readTotal];
    assert scratch[..][..readTotal] == data;
    ScratchIsReads(request, bus.behave(old(bus.state), Address(request), Requested(request)).byteAt, scratch[..]);
  }

  /** Everything `dispatch` does up to encoding: the checks in order, then the bus. */
  method Answered<S>(bus: BusDevice<S>, request: seq<u8>, capacity: nat) returns (a: Answer)
    modifies bus
    ensures var served := Serve(bus.behave, old(bus.state), request, capacity);
            && bus.state == served.state
            && bus.log == old(bus.log) + served.calls
            && a == served.answer
  {
    if |request| < REQUEST_HEADER {
      return Failure(InvalidOperation);
    }
    if request[0] != OP_TRANSACTION {
      return Failure(InvalidOperation);
    }
    var opCount := OpCount(request);
    if opCount > MAX_OPS {
      return Failure(TooManyOperations);
    }
    if |request| < REQUEST_HEADER + opCount * OP_DESC {
      return Failure(BufferTooSmall);
    }
    var known, meta, writeTotal, readTotal := ScanDescs(request);
    if !known {
      return Failure(InvalidOperation);
    }
    if writeTotal > MAX_PAYLOAD_SIZE || readTotal > MAX_PAYLOAD_SIZE
       || |request| < WriteBase(request) + writeTotal || RESPONSE_HEADER + readTotal > capacity
    {
      return Failure(BufferTooSmall);
    }
    var error, data := Replay(bus, request, meta, readTotal);
    a := if error.Some? then Failure(KindToWire(error.value)) else Payload(data);
  }

  method Dispatch<S>(bus: BusDevice<S>, request: seq<u8>, response: array<u8>) returns (n: nat)
    requires RESPONSE_HEADER <= response.Length
    modifies bus, response
    ensures RESPONSE_HEADER <= n <= RESPONSE_HEADER + MAX_PAYLOAD_SIZE && n <= response.Length
    ensures var served := Serve(bus.behave, old(bus.state), request, response.Length);
            && bus.state == served.state
            && bus.log == old(bus.log) + served.calls
            && response[..n] == Encoded(served.answer)
    ensures response[n..] == old(response[n..])
  {
    var a := Answered(bus, request, response.Length);
    n := Encode(response, a);
  }
}
