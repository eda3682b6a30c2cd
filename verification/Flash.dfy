/** The blocking flash layer: unaligned reads and window-splitting programs
    over a start/complete driver, against one flat byte array. */
module Flash {
  import opened Bytes
  import opened Bits

  type byte = bv8

  const PREFIX_BUF_LEN: nat := 16
  const ADDRESS_BITS: nat := 32

  /** Flash programming clears bits: byte `i` after and-ing `data` in at `start`. */
  function AndByte(flat: seq<byte>, start: nat, data: seq<byte>, i: nat): byte
    requires i < |flat|
  {
    if start <= i < start + |data| then flat[i] & data[i - start] else flat[i]
  }

  /** One flat and-program of `data` at `start`. */
  function Programmed(was: seq<byte>, start: nat, data: seq<byte>): (now: seq<byte>)
    ensures |now| == |was|
  {
    seq(|was|, i requires 0 <= i < |was| => AndByte(was, start, data, i))
  }

  /** Bit by bit (`m` is the mask of one bit): programming never sets a bit, clears exactly those that
      are zero in the data, and touches nothing outside its range. */
  lemma {:induction false} ProgrammingClearsBits(was: seq<byte>, start: nat, data: seq<byte>, i: nat, m: byte)
    requires i < |was| && m in {0x01, 0x02, 0x04, 0x08, 0x10, 0x20, 0x40, 0x80}
    ensures var now := Programmed(was, start, data)[i];
            && (now & m != 0 ==> was[i] & m != 0)
            && (start <= i < start + |data| ==>
                 (now & m == 0 <==> was[i] & m == 0 || data[i - start] & m == 0))
            && (!(start <= i < start + |data|) ==> now == was[i])
  {
    if start <= i < start + |data| {
      AndOneBit(was[i], data[i - start], m);
    }
  }

  lemma {:induction false} AndOneBit(a: byte, b: byte, m: byte)
    requires m in {0x01, 0x02, 0x04, 0x08, 0x10, 0x20, 0x40, 0x80}
    ensures (a & b) & m == 0 <==> a & m == 0 || b & m == 0
  {}

  ghost predicate SameOutside(was: seq<byte>, now: seq<byte>, lo: nat, hi: nat) {
    |now| == |was| && forall i :: 0 <= i < |was| && !(lo <= i < hi) ==> now[i] == was[i]
  }

  /** Programming a prefix and then the piece after it programs both. */
  lemma {:induction false} ProgramExtends(was: seq<byte>, start: nat, payload: seq<byte>, done: nat, len: nat)
    requires done + len <= |payload|
    ensures Programmed(Programmed(was, start, payload[..done]), start + done, payload[done..done + len])
            == Programmed(was, start, payload[..done + len])
  {
    var mid := Programmed(was, start, payload[..done]);
    var two := Programmed(mid, start + done, payload[done..done + len]);
    var one := Programmed(was, start, payload[..done + len]);
    forall i | 0 <= i < |was| ensures two[i] == one[i] {
      assert mid[i] == AndByte(was, start, payload[..done], i);
      assert two[i] == AndByte(mid, start + done, payload[done..done + len], i);
    }
  }

  /** A piece of a program: where it goes and how many bytes. */
  datatype Piece = Piece(addr: nat, len: nat)

  /** Pieces from `start` up to `upto`: in order, without gaps, none empty, none crossing a window. */
  ghost predicate Legal(pieces: seq<Piece>, start: nat, upto: nat, window: nat)
    requires window > 0
  {
    if pieces == [] then upto == start
    else
      var last := pieces[|pieces| - 1];
      && last.len >= 1 && last.addr + last.len == upto
      && last.addr / window == (upto - 1) / window
      && Legal(pieces[..|pieces| - 1], start, last.addr, window)
  }

  /** The length of the piece the loop takes at `addr` when the data ends at `end`. */
  function PieceLen(addr: nat, end: nat, bits: nat): nat
    requires addr <= end
  {
    Min(end - addr, Pow2(bits) - Low(addr, bits))
  }

  /** The pieces the loop has started when it has come from `start` to `upto`. */
  ghost predicate Started(pieces: seq<Piece>, start: nat, upto: nat, end: nat, bits: nat) {
    if pieces == [] then upto == start
    else
      var last := pieces[|pieces| - 1];
      && last.addr < end && last.len == PieceLen(last.addr, end, bits) && last.addr + last.len == upto
      && Started(pieces[..|pieces| - 1], start, last.addr, end, bits)
  }

  lemma {:induction false} SameWindow(addr: nat, len: nat, bits: nat)
    requires 1 <= len <= Pow2(bits) - Low(addr, bits)
    ensures addr / Pow2(bits) == (addr + len - 1) / Pow2(bits)
    ensures High(addr, bits) == High(addr + len - 1, bits)
  {
    LowHigh(addr, bits);
    LowHigh(addr + len - 1, bits);
    DivModUnique(addr + len - 1, Pow2(bits), High(addr, bits), Low(addr, bits) + len - 1);
  }

  /** The loop's pieces are legal, and there is exactly one per window touched so far. */
  lemma {:induction false} StartedIsLegal(pieces: seq<Piece>, start: nat, upto: nat, end: nat, bits: nat)
    requires Started(pieces, start, upto, end, bits) && upto <= end
    ensures Legal(pieces, start, upto, Pow2(bits))
    ensures pieces != [] ==> upto > start && |pieces| == (upto - 1) / Pow2(bits) - start / Pow2(bits) + 1
    ensures pieces != [] && upto < end ==> upto / Pow2(bits) == (upto - 1) / Pow2(bits) + 1
  {
    if pieces != [] {
      var last := pieces[|pieces| - 1];
      StartedIsLegal(pieces[..|pieces| - 1], start, last.addr, end, bits);
      SameWindow(last.addr, last.len, bits);
      if upto < end {
        WindowBoundary(last.addr, bits);
      }
    }
  }

  lemma {:induction false} WindowBoundary(addr: nat, bits: nat)
    ensures var next := addr + (Pow2(bits) - Low(addr, bits));
            next / Pow2(bits) == addr / Pow2(bits) + 1
  {
    LowHigh(addr, bits);
    MulSucc(Pow2(bits), High(addr, bits));
    DivModUnique(addr + (Pow2(bits) - Low(addr, bits)), Pow2(bits), High(addr, bits) + 1, 0);
  }

  /** The windows a range touches. */
  function Windows(start: nat, end: nat, bits: nat): nat
    requires start <= end
  {
    if start == end then 0
    else
      DivMonotone(start, end - 1, Pow2(bits));
      (end - 1) / Pow2(bits) - start / Pow2(bits) + 1
  }

  /** The loop takes one piece per window: fewer before the end, all of them at the end. */
  lemma {:induction false} StartedCounts(pieces: seq<Piece>, start: nat, upto: nat, end: nat, bits: nat)
    requires Started(pieces, start, upto, end, bits) && start <= upto <= end
    ensures upto < end ==> |pieces| < Windows(start, end, bits)
    ensures upto == end ==> |pieces| == Windows(start, end, bits)
  {
    StartedIsLegal(pieces, start, upto, end, bits);
    if upto < end {
      DivMonotone(upto, end - 1, Pow2(bits));
    }
  }

  /** No legal split of the same range has fewer pieces. */
  lemma {:induction false} LegalNeedsWindows(pieces: seq<Piece>, start: nat, upto: nat, window: nat)
    requires window > 0 && Legal(pieces, start, upto, window) && upto > start
    ensures |pieces| >= (upto - 1) / window - start / window + 1
  {
    var last := pieces[|pieces| - 1];
    if last.addr > start {
      LegalNeedsWindows(pieces[..|pieces| - 1], start, last.addr, window);
      NextWindow(last.addr - 1, window);
    } else {
      LegalReaches(pieces[..|pieces| - 1], start, last.addr, window);
    }
  }

  lemma {:induction false} LegalReaches(pieces: seq<Piece>, start: nat, upto: nat, window: nat)
    requires window > 0 && Legal(pieces, start, upto, window)
    ensures upto >= start
  {
    if pieces != [] {
      LegalReaches(pieces[..|pieces| - 1], start, pieces[|pieces| - 1].addr, window);
    }
  }

  lemma {:induction false} NextWindow(a: nat, window: nat)
    requires window > 0
    ensures (a + 1) / window <= a / window + 1
  {
    if a % window + 1 < window {
      DivModUnique(a + 1, window, a / window, a % window + 1);
    } else {
      MulSucc(window, a / window);
      DivModUnique(a + 1, window, a / window + 1, 0);
    }
  }

  /** Static parameters of a driver, with the requirements the blocking layer's own checks and the
      driver contract put on them. */
  datatype Geometry = Geometry(alignBits: nat, maxRead: nat, windowBits: nat) {
    ghost predicate Valid() {
      && Pow2(alignBits) <= PREFIX_BUF_LEN <= maxRead
      && Low(maxRead, alignBits) == 0
      && windowBits < ADDRESS_BITS
    }
  }

  /** A driver: memory, and a schedule that decides which of its operations, numbered in the order
      they are started, is refused or fails to complete, and what a failed program leaves in the
      bytes it covered. */
  class Driver {
    const geometry: Geometry
    const refuses: nat -> bool
    const fails: nat -> bool
    const torn: (nat, nat) -> byte
    const data: array<byte>
    var operations: nat
    var pending: Option<(nat, seq<byte>)>
    ghost var started: seq<Piece>

    constructor (geometry: Geometry, data: array<byte>, refuses: nat -> bool, fails: nat -> bool,
                 torn: (nat, nat) -> byte)
      ensures this.geometry == geometry && this.data == data && pending == None && started == []
      ensures this.refuses == refuses && this.fails == fails && this.torn == torn && operations == 0
    {
      this.geometry, this.data := geometry, data;
      this.refuses, this.fails, this.torn := refuses, fails, torn;
      operations, pending, started := 0, None, [];
    }

    /** Aligned, bounded read; refused past the end of the flash, or whenever the schedule says so. */
    method Read(addr: nat, len: nat) returns (r: Option<seq<byte>>)
      requires Low(addr, geometry.alignBits) == 0 && len <= geometry.maxRead
      modifies `operations
      ensures r == if addr + len <= data.Length && !refuses(old(operations)) then Some(data[addr..addr + len]) else None
      ensures operations == old(operations) + 1
    {
      r := if addr + len <= data.Length && !refuses(operations) then Some(data[addr..addr + len]) else None;
      operations := operations + 1;
    }

    method StartProgram(addr: nat, chunk: seq<byte>) returns (ok: bool)
      requires 1 <= |chunk| && High(addr, geometry.windowBits) == High(addr + |chunk| - 1, geometry.windowBits)
      requires pending.None?
      modifies this
      ensures ok == (addr + |chunk| <= data.Length && !refuses(old(operations)))
      ensures operations == old(operations) + 1
      ensures pending == if ok then Some((addr, chunk)) else None
      ensures started == if ok then old(started) + [Piece(addr, |chunk|)] else old(started)
    {
      ok := addr + |chunk| <= data.Length && !refuses(operations);
      operations := operations + 1;
      if ok {
        pending := Some((addr, chunk));
        started := started + [Piece(addr, |chunk|)];
      }
    }

    /** Finish the pending program. Success and-s the data in; failure leaves unspecified bytes,
        but only in the range the operation covered. */
    method CompleteProgram() returns (ok: bool)
      requires pending.Some? && pending.value.0 + |pending.value.1| <= data.Length && operations > 0
      modifies `pending, data
      ensures ok == !fails(operations - 1) && pending == None
      ensures var (addr, chunk) := old(pending.value);
              && (ok ==> data[..] == Programmed(old(data[..]), addr, chunk))
              && (!ok ==> forall i :: addr <= i < addr + |chunk| ==> data[i] == torn(operations - 1, i - addr))
              && SameOutside(old(data[..]), data[..], addr, addr + |chunk|)
    {
      var (addr, chunk) := pending.value;
      var op := operations - 1;
      ok := !fails(op);
      if ok {
        forall k | 0 <= k < |chunk| { data[addr + k] := data[addr + k] & chunk[k]; }
      } else {
        forall k | 0 <= k < |chunk| { data[addr + k] := torn(op, k); }
      }
      pending := None;
    }
  }

  /** A range a read can serve: it is in bounds and so is the 16-byte read that an unaligned start
      costs. `Low` is the offset of the start in its alignment unit. */
  predicate Readable(size: nat, alignBits: nat, start: nat, len: nat) {
    && (len == 0 || start + len <= size)
    && (Low(start, alignBits) != 0 ==> start - Low(start, alignBits) + PREFIX_BUF_LEN <= size)
  }

  /** An in-bounds read near the end of the flash can still be refused: bytes 253 and 254 of a
      255-byte flash with 4-byte alignment need a prefix read of bytes 252 to 267. */
  lemma {:induction false} PrefixReadOverruns()
    ensures 253 + 2 <= 255 && !Readable(255, 2, 253, 2)
  {
    assert Low(253, 2) == 2 * Low(126, 1) + 1;
  }

  lemma {:induction false} AlignedAdvance(addr: nat, k: nat, bits: nat)
    requires Low(addr, bits) == 0 && Low(k, bits) == 0
    ensures Low(addr + k, bits) == 0
    decreases bits
  {
    if bits > 0 {
      AlignedAdvance(addr / 2, k / 2, bits - 1);
      assert (addr + k) / 2 == addr / 2 + k / 2;
    }
  }

  lemma {:induction false} LowOfDouble(a: nat, bits: nat)
    requires bits > 0
    ensures Low(2 * a, bits) == 2 * Low(a, bits - 1)
  {
    HalfOfDouble(a);
  }

  lemma {:induction false} HalfOfDouble(a: nat)
    ensures 2 * a / 2 == a && 2 * a % 2 == 0
  {}

  lemma {:induction false} RoundDown(start: nat, bits: nat)
    ensures Low(start, bits) <= start && Low(start - Low(start, bits), bits) == 0
    ensures Low(start - Low(start, bits) + Pow2(bits), bits) == 0
    decreases bits
  {
    if bits > 0 {
      RoundDown(start / 2, bits - 1);
      var base := start / 2 - Low(start / 2, bits - 1);
      assert start - Low(start, bits) == 2 * base;
      LowOfDouble(base, bits);
      LowOfDouble(base + Pow2(bits - 1), bits);
    }
  }

  method CopyAt(buf: array<byte>, at: nat, bytes: seq<byte>)
    requires at + |bytes| <= buf.Length
    modifies buf
    ensures forall k :: 0 <= k < buf.Length ==> buf[k] == if at <= k < at + |bytes| then bytes[k - at] else old(buf[k])
  {
    forall k | 0 <= k < |bytes| { buf[at + k] := bytes[k]; }
  }

  /** The driver reads that `len` bytes take, at most `max` at a time. */
  function Reads(len: nat, max: nat): nat
    requires max > 0
  {
    if len == 0 then 0 else 1 + Reads(len - Min(max, len), max)
  }

  /** None of the `n` operations from number `op` on is refused. */
  ghost predicate Served(refuses: nat -> bool, op: nat, n: nat) {
    forall o :: op <= o < op + n ==> !refuses(o)
  }

  /** The aligned tail of a read, in pieces of at most `maxRead`. */
  method ReadAligned(driver: Driver, start: nat, buf: array<byte>, from: nat) returns (ok: bool)
    requires driver.geometry.Valid() && buf != driver.data && from <= buf.Length
    requires from == buf.Length || Low(start, driver.geometry.alignBits) == 0
    modifies buf, driver`operations
    ensures var needed := Reads(buf.Length - from, driver.geometry.maxRead);
            && ok == ((from == buf.Length || start + (buf.Length - from) <= driver.data.Length)
                      && Served(driver.refuses, old(driver.operations), needed))
            && (ok ==> driver.operations == old(driver.operations) + needed)
    ensures forall k :: 0 <= k < from ==> buf[k] == old(buf[k])
    ensures ok ==> forall k :: from <= k < buf.Length ==> buf[k] == driver.data[start + (k - from)]
  {
    var addr, at := start, from;
    ghost var needed, first := Reads(buf.Length - from, driver.geometry.maxRead), driver.operations;
    while at < buf.Length
      invariant from <= at <= buf.Length && addr == start + (at - from)
      invariant at == buf.Length || Low(addr, driver.geometry.alignBits) == 0
      invariant at > from ==> addr <= driver.data.Length
      invariant first <= driver.operations && Served(driver.refuses, first, driver.operations - first)
      invariant driver.operations - first + Reads(buf.Length - at, driver.geometry.maxRead) == needed
      invariant forall k :: 0 <= k < from ==> buf[k] == old(buf[k])
      invariant forall k :: from <= k < at ==> buf[k] == driver.data[start + (k - from)]
    {
      var len := Min(driver.geometry.maxRead, buf.Length - at);
      ghost var op := driver.operations;
      var piece := driver.Read(addr, len);
      if piece.None? {
        assert driver.refuses(op) ==> !Served(driver.refuses, first, needed);
        return false;
      }
      CopyAt(buf, at, piece.value);
      forall k | at <= k < at + len ensures buf[k] == driver.data[start + (k - from)] {
        assert piece.value[k - at] == driver.data[addr + (k - at)];
      }
      if at + len < buf.Length {
        AlignedAdvance(addr, len, driver.geometry.alignBits);
      }
      at, addr := at + len, addr + len;
    }
    ok := true;
  }

  /** The masks of the source: offset into the alignment unit, and the unit's address. */
  lemma {:induction false} Masks(start: u32, alignBits: nat)
    requires Pow2(alignBits) <= PREFIX_BUF_LEN
    ensures var align := Pow2(alignBits);
            && And(start, align - 1) == Low(start, alignBits)
            && Low(start, alignBits) <= start
            && And(start, 0x1_0000_0000 - align) == start - Low(start, alignBits)
  {
    Pow2Word();
    if alignBits > ADDRESS_BITS { Pow2Monotone(ADDRESS_BITS, alignBits); }
    AndLowMask(start, alignBits);
    RoundDown(start, alignBits);
    AndHighMask(start, alignBits, ADDRESS_BITS);
  }

  /** Driver reads for a range: one for the prefix of an unaligned start, then the aligned rest. */
  function ReadsOf(g: Geometry, start: nat, len: nat): nat
    requires g.maxRead > 0
  {
    var skip := Low(start, g.alignBits);
    if skip == 0 then Reads(len, g.maxRead)
    else 1 + Reads(len - Min(Pow2(g.alignBits) - skip, len), g.maxRead)
  }

  /** Fill `buf` from `start`, whatever its alignment. Succeeds exactly when the range and the
      16-byte prefix read are in bounds and the driver serves every read it takes; then it yields
      exactly the flat bytes. */
  method Read(driver: Driver, start: u32, buf: array<byte>) returns (ok: bool)
    requires driver.geometry.Valid() && buf != driver.data && driver.data.Length < 0x1_0000_0000
    modifies buf, driver`operations
    ensures var needed := ReadsOf(driver.geometry, start, buf.Length);
            && ok == (Readable(driver.data.Length, driver.geometry.alignBits, start, buf.Length)
                      && Served(driver.refuses, old(driver.operations), needed))
            && (ok ==> driver.operations == old(driver.operations) + needed)
    ensures ok ==> forall k :: 0 <= k < buf.Length ==> buf[k] == driver.data[start + k]
  {
    var align := Pow2(driver.geometry.alignBits);
    Masks(start, driver.geometry.alignBits);
    var skip := And(start, align - 1);
    if skip == 0 {
      ok := ReadAligned(driver, start, buf, 0);
      return;
    }
    RoundDown(start, driver.geometry.alignBits);
    var count := Min(align - skip, buf.Length);
    ghost var op, needed := driver.operations, Reads(buf.Length - count, driver.geometry.maxRead);
    ok := ReadPrefix(driver, start, And(start, 0x1_0000_0000 - align), buf, count);
    ServedFirst(driver.refuses, op, needed);
    if ok {
      ok := ReadAligned(driver, start + count, buf, count);
    }
  }

  lemma {:induction false} ServedFirst(refuses: nat -> bool, op: nat, n: nat)
    ensures Served(refuses, op, 1 + n) <==> !refuses(op) && Served(refuses, op + 1, n)
  {}

  /** The first `count` bytes, out of a full prefix buffer read from the aligned address before them. */
  method ReadPrefix(driver: Driver, start: nat, base: nat, buf: array<byte>, count: nat) returns (ok: bool)
    requires driver.geometry.Valid() && buf != driver.data && count <= buf.Length
    requires base <= start && start - base + count <= PREFIX_BUF_LEN && Low(base, driver.geometry.alignBits) == 0
    modifies buf, driver`operations
    ensures ok == (base + PREFIX_BUF_LEN <= driver.data.Length && !driver.refuses(old(driver.operations)))
    ensures driver.operations == old(driver.operations) + 1
    ensures ok ==> forall k :: 0 <= k < count ==> buf[k] == driver.data[start + k]
  {
    var prefix := driver.Read(base, PREFIX_BUF_LEN);
    if prefix.None? {
      return false;
    }
    var skip := start - base;
    CopyAt(buf, 0, prefix.value[skip..skip + count]);
    forall k | 0 <= k < count ensures buf[k] == driver.data[start + k] {
      assert prefix.value[skip + k] == driver.data[base + (skip + k)];
    }
    ok := true;
  }

  /** How a program ended: `pieces` started, `done` bytes applied, the `doubt` bytes after them in doubt. */
  datatype Progress = Progress(pieces: seq<Piece>, done: nat, doubt: nat)

  /** `now` is `was` with the first `done` bytes programmed, except for the bytes in doubt. */
  ghost predicate Applied(was: seq<byte>, now: seq<byte>, start: nat, payload: seq<byte>, p: Progress) {
    && p.done + p.doubt <= |payload|
    && SameOutside(Programmed(was, start, payload[..p.done]), now, start + p.done, start + p.done + p.doubt)
  }

  /** The `n` programs from number `op` on all start and complete. */
  ghost predicate Quiet(driver: Driver, op: nat, n: nat) {
    forall o :: op <= o < op + n ==> !driver.refuses(o) && !driver.fails(o)
  }

  /** The range is in bounds and every piece of it, one per window, starts and completes. */
  ghost predicate Succeeds(driver: Driver, op: nat, start: nat, payload: seq<byte>) {
    && (payload == [] || start + |payload| <= driver.data.Length)
    && Quiet(driver, op, Windows(start, start + |payload|, driver.geometry.windowBits))
  }

  /** Why a program that started `p.pieces` from operation `op` on stopped short: the next piece was
      refused, or out of bounds, or the last one failed to complete. */
  ghost predicate Stopped(driver: Driver, op: nat, start: nat, payload: seq<byte>, p: Progress) {
    && p.done < |payload|
    && if p.doubt == 0 then
         var addr := start + p.done;
         || driver.refuses(op + |p.pieces|)
         || addr + PieceLen(addr, start + |payload|, driver.geometry.windowBits) > driver.data.Length
       else
         |p.pieces| > 0 && driver.fails(op + |p.pieces| - 1)
  }

  /** Between two pieces: everything before `done` is applied, by pieces that all started and completed. */
  ghost predicate Underway(driver: Driver, op: nat, start: nat, payload: seq<byte>, done: nat, sofar: seq<Piece>) {
    && done <= |payload|
    && (sofar == [] ==> done == 0)
    && (sofar != [] ==> start + done <= driver.data.Length)
    && Started(sofar, start, start + done, start + |payload|, driver.geometry.windowBits)
    && Quiet(driver, op, |sofar|)
  }

  lemma {:induction false} GoesOn(driver: Driver, op: nat, start: nat, payload: seq<byte>, done: nat,
                                  sofar: seq<Piece>, len: nat)
    requires Underway(driver, op, start, payload, done, sofar) && done < |payload|
    requires len == PieceLen(start + done, start + |payload|, driver.geometry.windowBits)
    requires 1 <= len <= |payload| - done
    requires ChunkFate(driver, op + |sofar|, start + done, len) == Done
    ensures Underway(driver, op, start, payload, done + len, sofar + [Piece(start + done, len)])
  {
    var next := sofar + [Piece(start + done, len)];
    assert next[..|next| - 1] == sofar;
  }

  lemma {:induction false} StopsHere(driver: Driver, op: nat, start: nat, payload: seq<byte>, done: nat,
                                     sofar: seq<Piece>, len: nat, p: Progress)
    requires Underway(driver, op, start, payload, done, sofar) && done < |payload|
    requires len == PieceLen(start + done, start + |payload|, driver.geometry.windowBits)
    requires 1 <= len <= |payload| - done
    requires match ChunkFate(driver, op + |sofar|, start + done, len)
             case Done => false
             case Refused => p == Progress(sofar, done, 0)
             case Failed => p == Progress(sofar + [Piece(start + done, len)], done, len)
    ensures !Succeeds(driver, op, start, payload) && Stopped(driver, op, start, payload, p)
    ensures Started(p.pieces, start, start + p.done + p.doubt, start + |payload|, driver.geometry.windowBits)
  {
    var next := sofar + [Piece(start + done, len)];
    assert next[..|next| - 1] == sofar;
    StartedCounts(sofar, start, start + done, start + |payload|, driver.geometry.windowBits);
  }

  lemma {:induction false} Finishes(driver: Driver, op: nat, start: nat, payload: seq<byte>, sofar: seq<Piece>)
    requires Underway(driver, op, start, payload, |payload|, sofar)
    ensures Succeeds(driver, op, start, payload)
  {
    StartedCounts(sofar, start, start + |payload|, start + |payload|, driver.geometry.windowBits);
  }

  /** Program `payload` at `start`. It succeeds exactly when the range is in bounds and every piece,
      one per window touched, starts and completes. Otherwise it stops at the first piece that does
      not: every earlier piece stays applied, no later one is started, and only bytes of a piece that
      failed to complete are in doubt. */
  method Program(driver: Driver, start: u32, payload: seq<byte>) returns (ok: bool, ghost p: Progress)
    requires driver.geometry.Valid() && driver.pending.None? && driver.data.Length < 0x1_0000_0000
    modifies driver, driver.data
    ensures driver.pending.None?
    ensures driver.started == old(driver.started) + p.pieces
    ensures Started(p.pieces, start, start + p.done + p.doubt, start + |payload|, driver.geometry.windowBits)
    ensures p.doubt > 0 ==> |p.pieces| > 0 && p.doubt == p.pieces[|p.pieces| - 1].len
    ensures ok <==> Succeeds(driver, old(driver.operations), start, payload)
    ensures ok ==> p.done == |payload| && p.doubt == 0
    ensures !ok ==> Stopped(driver, old(driver.operations), start, payload, p)
    ensures Applied(old(driver.data[..]), driver.data[..], start, payload, p)
    ensures ok ==> driver.data[..] == Programmed(old(driver.data[..]), start, payload)
  {
    ghost var was, log, op := driver.data[..], driver.started, driver.operations;
    ghost var sofar: seq<Piece> := [];
    var addr, done := start as nat, 0;
    assert Programmed(was, start, []) == was;
    while done < |payload|
      invariant addr == start + done && driver.pending.None?
      invariant driver.started == log + sofar && driver.operations == op + |sofar|
      invariant Underway(driver, op, start, payload, done, sofar)
      invariant driver.data[..] == Programmed(was, start, payload[..done])
    {
      var outcome, len := ProgramNext(driver, addr, payload, done, was);
      if outcome != Done {
        p := if outcome == Refused then Progress(sofar, done, 0) else Progress(sofar + [Piece(addr, len)], done, len);
        StopsHere(driver, op, start, payload, done, sofar, len, p);
        return false, p;
      }
      GoesOn(driver, op, start, payload, done, sofar, len);
      sofar, done, addr := sofar + [Piece(addr, len)], done + len, addr + len;
    }
    assert payload[..done] == payload;
    ok, p := true, Progress(sofar, done, 0);
    Finishes(driver, op, start, payload, sofar);
  }

  /** The next piece of a program of `payload` into what was `was`. */
  method ProgramNext(driver: Driver, addr: nat, payload: seq<byte>, done: nat, ghost was: seq<byte>)
    returns (r: ChunkOutcome, len: nat)
    requires driver.pending.None? && done < |payload| && done <= addr
    requires driver.data[..] == Programmed(was, addr - done, payload[..done])
    modifies driver, driver.data
    ensures driver.pending.None?
    ensures len == PieceLen(addr, addr + |payload| - done, driver.geometry.windowBits) && 1 <= len <= |payload| - done
    ensures r == ChunkFate(driver, old(driver.operations), addr, len)
    ensures driver.started == if r == Refused then old(driver.started) else old(driver.started) + [Piece(addr, len)]
    ensures driver.operations == old(driver.operations) + 1
    ensures r == Done ==> driver.data[..] == Programmed(was, addr - done, payload[..done + len])
    ensures r != Done ==>
              SameOutside(Programmed(was, addr - done, payload[..done]), driver.data[..],
                          addr, if r == Refused then addr else addr + len)
  {
    len := NextLen(addr, addr + |payload| - done, driver.geometry.windowBits);
    r := ProgramChunk(driver, addr, payload[done..done + len]);
    ProgramExtends(was, addr - done, payload, done, len);
  }

  /** Bytes left in the current window, by the mask; never zero, so the loop makes progress. */
  method NextLen(addr: nat, end: nat, bits: nat) returns (len: nat)
    requires addr < end
    ensures len == PieceLen(addr, end, bits) && 1 <= len <= end - addr
    ensures High(addr, bits) == High(addr + len - 1, bits)
  {
    AndLowMask(addr, bits);
    len := Min(end - addr, Pow2(bits) - And(addr, Pow2(bits) - 1));
    SameWindow(addr, len, bits);
  }

  datatype ChunkOutcome = Done | Refused | Failed

  /** What the driver makes of a piece that is its operation `op`. */
  ghost function ChunkFate(driver: Driver, op: nat, addr: nat, len: nat): ChunkOutcome {
    if addr + len > driver.data.Length || driver.refuses(op) then Refused
    else if driver.fails(op) then Failed
    else Done
  }

  /** Start one piece, wait for the notification, complete it. */
  method ProgramChunk(driver: Driver, addr: nat, chunk: seq<byte>) returns (r: ChunkOutcome)
    requires driver.pending.None? && |chunk| >= 1
    requires High(addr, driver.geometry.windowBits) == High(addr + |chunk| - 1, driver.geometry.windowBits)
    modifies driver, driver.data
    ensures driver.pending.None?
    ensures r == Refused <==> addr + |chunk| > driver.data.Length || driver.refuses(old(driver.operations))
    ensures r == Failed <==> r != Refused && driver.fails(old(driver.operations))
    ensures driver.operations == old(driver.operations) + 1
    ensures driver.started == if r == Refused then old(driver.started) else old(driver.started) + [Piece(addr, |chunk|)]
    ensures r == Refused ==> driver.data[..] == old(driver.data[..])
    ensures r == Done ==> driver.data[..] == Programmed(old(driver.data[..]), addr, chunk)
    ensures SameOutside(old(driver.data[..]), driver.data[..], addr, addr + |chunk|)
  {
    var ok := driver.StartProgram(addr, chunk);
    if !ok {
      return Refused;
    }
    ok := driver.CompleteProgram();
    r := if ok then Done else Failed;
  }

  /** Programming an erased range and reading it back returns the payload. */
  lemma {:induction false} ErasedProgramReadsBack(was: seq<byte>, start: nat, payload: seq<byte>)
    requires start + |payload| <= |was|
    requires forall i :: start <= i < start + |payload| ==> was[i] == 0xFF
    ensures Programmed(was, start, payload)[start..start + |payload|] == payload
  {
    var now := Programmed(was, start, payload);
    forall i | 0 <= i < |payload| ensures now[start + i] == payload[i] {
      assert now[start + i] == was[start + i] & payload[i];
    }
  }
}
