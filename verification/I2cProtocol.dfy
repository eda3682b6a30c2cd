/** The wire protocol shared by the I2C client and server: header layouts,
    operation descriptors, opcode and status tables. */
module I2cProtocol {
  import opened Bytes

  const MAX_PAYLOAD_SIZE: nat := 256
  const MAX_OPS: nat := 16
  const MAX_BUF_SIZE: nat := 512
  const REQUEST_HEADER: nat := 8
  const OP_DESC: nat := 4
  const RESPONSE_HEADER: nat := 4

  const OP_TRANSACTION: u8 := 0x01
  const KIND_WRITE: u8 := 0x00
  const KIND_READ: u8 := 0x01

  datatype I2cError =
    | InvalidOperation | BufferTooSmall | TooManyOperations
    | AddressNack | DataNack | Nack | ArbitrationLoss | Bus | Overrun | Timeout
    | NoData | InternalError

  function ErrorByte(e: I2cError): u8 {
    match e
    case InvalidOperation => 0x01
    case BufferTooSmall => 0x02
    case TooManyOperations => 0x03
    case AddressNack => 0x04
    case DataNack => 0x05
    case Nack => 0x06
    case ArbitrationLoss => 0x07
    case Bus => 0x08
    case Overrun => 0x09
    case Timeout => 0x0A
    case NoData => 0x0B
    case InternalError => 0xFF
  }

  function ErrorFromByte(b: u8): I2cError {
    match b
    case 0x01 => InvalidOperation
    case 0x02 => BufferTooSmall
    case 0x03 => TooManyOperations
    case 0x04 => AddressNack
    case 0x05 => DataNack
    case 0x06 => Nack
    case 0x07 => ArbitrationLoss
    case 0x08 => Bus
    case 0x09 => Overrun
    case 0x0A => Timeout
    case 0x0B => NoData
    case _ => InternalError
  }

  /** The `embedded_hal` error taxonomy. */
  datatype NackSource = Address | Data | Unknown
  datatype ErrorKind = BusFault | LostArbitration | NoAcknowledge(source: NackSource) | DataOverrun | Other

  function KindToWire(kind: ErrorKind): I2cError {
    match kind
    case NoAcknowledge(Address) => AddressNack
    case NoAcknowledge(Data) => DataNack
    case NoAcknowledge(Unknown) => Nack
    case LostArbitration => ArbitrationLoss
    case BusFault => Bus
    case DataOverrun => Overrun
    case Other => InternalError
  }

  function KindFromWire(e: I2cError): ErrorKind {
    match e
    case AddressNack => NoAcknowledge(Address)
    case DataNack => NoAcknowledge(Data)
    case Nack => NoAcknowledge(Unknown)
    case ArbitrationLoss => LostArbitration
    case Bus => BusFault
    case Overrun => DataOverrun
    case _ => Other
  }

  function RequestHeader(op: u8, address: u16, opCount: u16, payloadLen: u16): (h: seq<u8>)
    ensures |h| == REQUEST_HEADER
  {
    [op, 0] + Le16(address) + Le16(opCount) + Le16(payloadLen)
  }

  lemma {:induction false} HeaderFields(op: u8, address: u16, opCount: u16, payloadLen: u16, rest: seq<u8>)
    ensures var request := RequestHeader(op, address, opCount, payloadLen) + rest;
            request[0] == op && request[2..4] == Le16(address) && request[4..6] == Le16(opCount)
  {}

  function OpDesc(kind: u8, len: u16): (d: seq<u8>)
    ensures |d| == OP_DESC
  {
    [kind, 0] + Le16(len)
  }

  function ResponseHeader(status: u8, payloadLen: u16): (h: seq<u8>)
    ensures |h| == RESPONSE_HEADER
  {
    [status, 0] + Le16(payloadLen)
  }

  /** One operation of a transaction. A read carries its buffer's contents. */
  datatype Operation = Write(data: seq<u8>) | Read(data: seq<u8>)

  /** The bytes of all writes, concatenated in operation order. */
  function WriteBytes(ops: seq<Operation>): seq<u8> {
    if ops == [] then []
    else
      var op := ops[|ops| - 1];
      WriteBytes(ops[..|ops| - 1]) + if op.Write? then op.data else []
  }

  /** The bytes of all reads, concatenated in operation order. */
  function ReadBytes(ops: seq<Operation>): seq<u8> {
    if ops == [] then []
    else
      var op := ops[|ops| - 1];
      ReadBytes(ops[..|ops| - 1]) + if op.Read? then op.data else []
  }

  /** Same kinds and lengths, and the same bytes in every write. */
  ghost predicate SameShape(a: seq<Operation>, b: seq<Operation>) {
    && |a| == |b|
    && forall i :: 0 <= i < |a| ==>
         && a[i].Read? == b[i].Read?
         && |a[i].data| == |b[i].data|
         && (a[i].Write? ==> a[i] == b[i])
  }

  function Zeroed(ops: seq<Operation>): (z: seq<Operation>)
    ensures SameShape(z, ops)
  {
    seq(|ops|, i requires 0 <= i < |ops| => if ops[i].Read? then Read(Zeros(|ops[i].data|)) else ops[i])
  }

  /** What the client accepts for one round trip. */
  predicate Fits(ops: seq<Operation>) {
    |ops| <= MAX_OPS && |WriteBytes(ops)| <= MAX_PAYLOAD_SIZE && |ReadBytes(ops)| <= MAX_PAYLOAD_SIZE
  }

  lemma {:induction false} SameShapeSameSizes(a: seq<Operation>, b: seq<Operation>)
    requires SameShape(a, b)
    ensures WriteBytes(a) == WriteBytes(b)
    ensures |ReadBytes(a)| == |ReadBytes(b)|
  {
    if a != [] {
      SameShapeSameSizes(a[..|a| - 1], b[..|b| - 1]);
    }
  }

  lemma {:induction false} WriteBytesPrefix(ops: seq<Operation>, i: nat)
    requires i <= |ops|
    ensures |WriteBytes(ops[..i])| <= |WriteBytes(ops)|
    ensures WriteBytes(ops)[..|WriteBytes(ops[..i])|] == WriteBytes(ops[..i])
    decreases |ops|
  {
    if i == |ops| {
      assert ops[..i] == ops;
    } else {
      var init := ops[..|ops| - 1];
      WriteBytesPrefix(init, i);
      assert init[..i] == ops[..i];
    }
  }

  lemma {:induction false} ReadBytesPrefix(ops: seq<Operation>, i: nat)
    requires i <= |ops|
    ensures |ReadBytes(ops[..i])| <= |ReadBytes(ops)|
    ensures ReadBytes(ops)[..|ReadBytes(ops[..i])|] == ReadBytes(ops[..i])
    decreases |ops|
  {
    if i == |ops| {
      assert ops[..i] == ops;
    } else {
      var init := ops[..|ops| - 1];
      ReadBytesPrefix(init, i);
      assert init[..i] == ops[..i];
    }
  }

  /** The bytes of write `i` sit right after the bytes of the writes before it. */
  lemma {:induction false} WriteBytesAt(ops: seq<Operation>, i: nat)
    requires i < |ops| && ops[i].Write?
    ensures var at := |WriteBytes(ops[..i])|;
            at + |ops[i].data| <= |WriteBytes(ops)| && WriteBytes(ops)[at..at + |ops[i].data|] == ops[i].data
  {
    WriteBytesPrefix(ops, i + 1);
    assert ops[..i + 1][..i] == ops[..i];
    assert WriteBytes(ops[..i + 1]) == WriteBytes(ops[..i]) + ops[i].data;
  }

  lemma {:induction false} ReadBytesAt(ops: seq<Operation>, i: nat)
    requires i < |ops| && ops[i].Read?
    ensures var at := |ReadBytes(ops[..i])|;
            at + |ops[i].data| <= |ReadBytes(ops)| && ReadBytes(ops)[at..at + |ops[i].data|] == ops[i].data
  {
    ReadBytesPrefix(ops, i + 1);
    assert ops[..i + 1][..i] == ops[..i];
    assert ReadBytes(ops[..i + 1]) == ReadBytes(ops[..i]) + ops[i].data;
  }
}
