/** The bus a server owns. Any `embedded_hal::i2c::I2c` implementation is a
    state plus a behaviour: from a state, an address and the operations it is
    handed, it reaches a next state, reports success or an error kind, and
    stores a byte at every position of every read buffer. */
module I2cBus {
  import opened Bytes
  import opened I2cProtocol

  datatype Outcome<S> = Outcome(state: S, error: Option<ErrorKind>, byteAt: (nat, nat) -> u8)

  type Behaviour<!S> = (S, u8, seq<Operation>) -> Outcome<S>

  /** What the bus stores in the `len`-byte buffer of operation `i`. */
  function ReadData(byteAt: (nat, nat) -> u8, i: nat, len: nat): (d: seq<u8>)
    ensures |d| == len
  {
    seq(len, j requires 0 <= j => byteAt(i, j))
  }

  /** The operations after the bus stored its bytes in the read buffers. */
  function Filled(ops: seq<Operation>, byteAt: (nat, nat) -> u8): (f: seq<Operation>)
    ensures SameShape(f, ops)
  {
    seq(|ops|, i requires 0 <= i < |ops| =>
      if ops[i].Read? then Read(ReadData(byteAt, i, |ops[i].data|)) else ops[i])
  }

  /** An operation as the server passes it: a borrowed slice of the request
      (writes) or of the read scratch area (reads). */
  datatype Slice = WriteSlice(off: nat, len: nat) | ReadSlice(off: nat, len: nat)

  /** Slices in bounds; those of one direction disjoint and in order. */
  ghost predicate Carved(slices: seq<Slice>, requestLen: nat, scratchLen: nat) {
    && (forall i :: 0 <= i < |slices| ==>
         slices[i].off + slices[i].len <= if slices[i].ReadSlice? then scratchLen else requestLen)
    && (forall i, j :: 0 <= i < j < |slices| && slices[i].ReadSlice? == slices[j].ReadSlice? ==>
         slices[i].off + slices[i].len <= slices[j].off)
  }

  /** The operations a slice list denotes. */
  function Resolve(slices: seq<Slice>, request: seq<u8>, scratch: seq<u8>): (ops: seq<Operation>)
    requires Carved(slices, |request|, |scratch|)
    ensures |ops| == |slices|
  {
    seq(|slices|, i requires 0 <= i < |slices| => ResolveOne(slices[i], request, scratch))
  }

  function ResolveOne(s: Slice, request: seq<u8>, scratch: seq<u8>): Operation
    requires s.off + s.len <= if s.ReadSlice? then |scratch| else |request|
  {
    if s.ReadSlice? then Read(scratch[s.off..s.off + s.len]) else Write(request[s.off..s.off + s.len])
  }

  /** Every read slice of `scratch` holds the bytes the bus stored for it. */
  ghost predicate Landed(slices: seq<Slice>, byteAt: (nat, nat) -> u8, scratch: seq<u8>) {
    forall i :: 0 <= i < |slices| && slices[i].ReadSlice? ==>
      && slices[i].off + slices[i].len <= |scratch|
      && scratch[slices[i].off..slices[i].off + slices[i].len] == ReadData(byteAt, i, slices[i].len)
  }

  /** Storing read `n` leaves the reads before it in place. */
  lemma {:induction false} LandedGrows(slices: seq<Slice>, requestLen: nat, n: nat, byteAt: (nat, nat) -> u8,
                                       before: seq<u8>, after: seq<u8>)
    requires n < |slices| && Carved(slices, requestLen, |before|) && Landed(slices[..n], byteAt, before)
    requires var s := slices[n];
             after == if s.ReadSlice? then before[..s.off] + ReadData(byteAt, n, s.len) + before[s.off + s.len..]
                      else before
    ensures Landed(slices[..n + 1], byteAt, after)
  {
    forall i | 0 <= i < n && slices[i].ReadSlice?
      ensures after[slices[i].off..slices[i].off + slices[i].len] == ReadData(byteAt, i, slices[i].len)
    {
      assert slices[..n][i] == slices[i];
      var lo, hi := slices[i].off, slices[i].off + slices[i].len;
      assert after[lo..hi] == before[lo..hi];
    }
  }

  /** `copy_from_slice` into a sub-slice of a buffer. */
  method Copy(dst: array<u8>, at: nat, src: seq<u8>)
    requires at + |src| <= dst.Length
    modifies dst
    ensures dst[..] == old(dst[..at]) + src + old(dst[at + |src|..])
  {
    forall k | 0 <= k < |src| { dst[at + k] := src[k]; }
  }

  /** Write `src` after the first `at` bytes of a buffer. */
  method Append(dst: array<u8>, at: nat, src: seq<u8>) returns (end: nat)
    requires at + |src| <= dst.Length
    modifies dst
    ensures end == at + |src| && dst[..end] == old(dst[..at]) + src
  {
    Copy(dst, at, src);
    end := at + |src|;
  }

  class BusDevice<!S> {
    const behave: Behaviour<S>
    var state: S
    /** Every transaction run so far, as the bus saw it. */
    ghost var log: seq<(u8, seq<Operation>)>

    constructor (behave: Behaviour<S>, state: S)
      ensures this.behave == behave && this.state == state && log == []
    {
      this.behave := behave;
      this.state := state;
      log := [];
    }

    /** One `I2c::transaction`. */
    method Transaction(address: u8, request: seq<u8>, scratch: array<u8>, slices: seq<Slice>)
      returns (error: Option<ErrorKind>)
      requires Carved(slices, |request|, scratch.Length)
      modifies this, scratch
      ensures var seen := Resolve(slices, request, old(scratch[..]));
              var outcome := behave(old(state), address, seen);
              && state == outcome.state
              && error == outcome.error
              && log == old(log) + [(address, seen)]
              && Landed(slices, outcome.byteAt, scratch[..])
    {
      var seen := Resolve(slices, request, scratch[..]);
      var outcome := behave(state, address, seen);
      var n := 0;
      while n < |slices|
        invariant n <= |slices|
        invariant Landed(slices[..n], outcome.byteAt, scratch[..])
        invariant state == old(state) && log == old(log)
      {
        var s := slices[n];
        ghost var before := scratch[..];
        if s.ReadSlice? {
          Copy(scratch, s.off, ReadData(outcome.byteAt, n, s.len));
        }
        LandedGrows(slices, |request|, n, outcome.byteAt, before, scratch[..]);
        n := n + 1;
      }
      assert slices[..n] == slices;
      state := outcome.state;
      error := outcome.error;
      log := log + [(address, seen)];
    }
  }
}
