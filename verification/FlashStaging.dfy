/** Polled staging on a direct-flash device: erase the next sector, program the next page, or read a
    written page back, one step per poll. */
module FlashStaging {
  import opened Bytes
  import Bits

  /** Page and sector sizes; a sector is `pages` pages. */
  datatype Geometry = Geometry(page: nat, pages: nat, sectors: nat) {
    ghost predicate Valid() {
      page > 0 && pages > 0
    }

    function Sector(): nat {
      page * pages
    }

    function SlotSize(): nat {
      Sector() * sectors
    }

    /** The sector a byte lies in. */
    function SectorOf(i: nat): nat
      requires Valid()
    {
      i / page / pages
    }
  }

  datatype Readback = Readback(start: nat, expected: seq<u8>)

  datatype Device = Device(slot: seq<u8>, erased: seq<bool>, pending: Option<Readback>, count: nat, ready: bool)

  datatype Fault = OutOfRange | Storage
  datatype Error = PayloadFault(fault: Fault) | DeviceError | ReadbackMismatch | EmptyPayload
  datatype Progress = Transferring(written: nat, total: nat) | Ready
  datatype Result = Ok(progress: Progress) | Err(error: Error)

  /** What the surroundings do during one poll: fail the payload read, or make the flash store other
      bytes than were written. */
  datatype Env = Env(readFault: Option<Fault>, glitch: Option<seq<u8>>)

  /** What happens to the flash: a sector erased, bytes programmed, or the erase marks given up. */
  datatype Op = Forget | Erase(sector: nat) | Program(start: nat, len: nat)

  datatype Step = Step(dev: Device, result: Result, ops: seq<Op>)

  function Abandoned(d: Device): Device {
    d.(erased := seq(|d.erased|, _ => false), pending := None, count := 0, ready := false)
  }

  function Fill(slot: seq<u8>, lo: nat, hi: nat): (r: seq<u8>)
    requires lo <= hi <= |slot|
    ensures |r| == |slot|
  {
    slot[..lo] + seq(hi - lo, _ => 0xFF) + slot[hi..]
  }

  function Store(slot: seq<u8>, start: nat, bytes: seq<u8>): (r: seq<u8>)
    requires start + |bytes| <= |slot|
    ensures |r| == |slot|
  {
    slot[..start] + bytes + slot[start + |bytes|..]
  }

  /** The two ways a poll goes wrong: the sector index runs past the erase marks, or the page length
      `end - count` underflows because the payload is shorter than what is already verified. */
  predicate Panics(g: Geometry, d: Device, payload: seq<u8>)
    requires g.Valid() && |d.erased| == g.sectors
  {
    && !d.ready && d.pending.None? && 0 < |payload| <= |d.slot|
    && (g.SectorOf(d.count) >= g.sectors || (d.erased[g.SectorOf(d.count)] && |payload| < d.count))
  }

  ghost predicate Sane(g: Geometry, d: Device, payload: seq<u8>) {
    && g.Valid() && |d.slot| == g.SlotSize() && |d.erased| == g.sectors
    && (d.pending.Some? ==> d.pending.value.start + |d.pending.value.expected| <= |d.slot|)
    && !Panics(g, d, payload)
  }

  lemma {:induction false} SectorFits(g: Geometry, i: nat)
    requires g.Valid() && i < g.SlotSize()
    ensures g.SectorOf(i) < g.sectors
    ensures g.SectorOf(i) * g.Sector() <= i < g.SectorOf(i) * g.Sector() + g.Sector() <= g.SlotSize()
  {
    SectorBounds(g, i);
    var s := g.SectorOf(i);
    if s >= g.sectors {
      MulMonotone(g.sectors, s, g.Sector());
    }
    MulMonotone(s + 1, g.sectors, g.Sector());
    assert (s + 1) * g.Sector() == s * g.Sector() + g.Sector();
  }

  lemma {:induction false} SectorInSlot(g: Geometry, i: nat)
    requires g.Valid()
    ensures g.SectorOf(i) < g.sectors <==> i < g.SlotSize()
  {
    if g.SectorOf(i) < g.sectors {
      SectorBounds(g, i);
      var s := g.SectorOf(i);
      MulMonotone(s + 1, g.sectors, g.Sector());
      assert (s + 1) * g.Sector() == s * g.Sector() + g.Sector();
    } else if i < g.SlotSize() {
      SectorFits(g, i);
    }
  }

  lemma {:induction false} MulMonotone(a: nat, b: nat, c: nat)
    requires a <= b
    ensures a * c <= b * c
  {}

  lemma {:induction false} SectorBounds(g: Geometry, i: nat)
    requires g.Valid()
    ensures g.SectorOf(i) * g.Sector() <= i < g.SectorOf(i) * g.Sector() + g.Sector()
  {
    var m := i / g.page;
    var s := m / g.pages;
    assert i == g.page * m + i % g.page;
    assert m == g.pages * s + m % g.pages;
    assert g.page * m == g.page * (g.pages * s) + g.page * (m % g.pages);
    assert g.page * (g.pages * s) == s * (g.page * g.pages);
    MulMonotone(m % g.pages, g.pages - 1, g.page);
    assert (g.pages - 1) * g.page == g.page * g.pages - g.page;
    assert (m % g.pages) * g.page == g.page * (m % g.pages);
  }

  /** A page that starts on a page boundary lies in one sector. */
  lemma {:induction false} PageInSector(g: Geometry, start: nat, i: nat)
    requires g.Valid() && start % g.page == 0 && start <= i < start + g.page
    ensures g.SectorOf(i) == g.SectorOf(start)
  {
    assert i / g.page == start / g.page by {
      var q := start / g.page;
      assert start == g.page * q;
      Bits.DivModUnique(i, g.page, q, i - start);
    }
  }

  lemma {:induction false} NextPageAligned(start: nat, page: nat)
    requires page > 0 && start % page == 0
    ensures (start + page) % page == 0
  {
    assert start + page == page * (start / page + 1);
    Bits.DivModUnique(start + page, page, start / page + 1, 0);
  }

  function PageEnd(g: Geometry, count: nat, total: nat): nat {
    Min(count + g.page, total)
  }

  /** Re-verify the page written last; only now does it count as staged. */
  function ReadbackStep(d: Device, total: nat): Step
    requires d.pending.Some? && d.pending.value.start + |d.pending.value.expected| <= |d.slot|
  {
    var Readback(start, expected) := d.pending.value;
    var count := start + |expected|;
    if d.slot[start..count] != expected then Step(Abandoned(d), Err(ReadbackMismatch), [Forget])
    else if count == total then Step(d.(pending := None, count := count, ready := true), Ok(Ready), [])
    else Step(d.(pending := None, count := count), Ok(Transferring(count, total)), [])
  }

  function EraseStep(g: Geometry, d: Device, total: nat): Step
    requires g.Valid() && |d.slot| == g.SlotSize() && |d.erased| == g.sectors && d.count < |d.slot|
  {
    SectorFits(g, d.count);
    var s := g.SectorOf(d.count);
    Step(d.(slot := Fill(d.slot, s * g.Sector(), s * g.Sector() + g.Sector()), erased := d.erased[s := true]),
         Ok(Transferring(d.count, total)), [Erase(s)])
  }

  function ProgramStep(g: Geometry, d: Device, payload: seq<u8>, env: Env): Step
    requires d.count <= |payload| <= |d.slot|
  {
    if env.readFault.Some? then Step(d, Err(PayloadFault(env.readFault.value)), [])
    else
      var end := PageEnd(g, d.count, |payload|);
      var page := payload[d.count..end];
      var stored := if env.glitch.Some? && |env.glitch.value| == |page| then env.glitch.value else page;
      Step(d.(slot := Store(d.slot, d.count, stored), pending := Some(Readback(d.count, page))),
           Ok(Transferring(d.count, |payload|)), [Program(d.count, |page|)])
  }

  /** The device a poll starts from: one that is ready gives up its image first. */
  function Entry(d: Device): Device {
    if d.ready then Abandoned(d) else d
  }

  function EntryOps(d: Device): seq<Op> {
    if d.ready then [Forget] else []
  }

  /** The poll of a device that is not ready. */
  function PollIdle(g: Geometry, d: Device, payload: seq<u8>, env: Env): Step
    requires Sane(g, d, payload) && !d.ready && payload != []
  {
    if |payload| > |d.slot| then Step(d, Err(DeviceError), [])
    else if d.pending.Some? then ReadbackStep(d, |payload|)
    else
      SectorInSlot(g, d.count);
      if !d.erased[g.SectorOf(d.count)] then EraseStep(g, d, |payload|)
      else ProgramStep(g, d, payload, env)
  }

  lemma {:induction false} EntryIsSane(g: Geometry, d: Device, payload: seq<u8>)
    requires Sane(g, d, payload)
    ensures Sane(g, Entry(d), payload)
  {
    if d.ready && 0 < |payload| <= |d.slot| {
      SectorInSlot(g, 0);
    }
  }

  function Poll(g: Geometry, d: Device, payload: seq<u8>, env: Env): Step
    requires Sane(g, d, payload)
  {
    if payload == [] then Step(d, Err(EmptyPayload), [])
    else
      EntryIsSane(g, d, payload);
      var step := PollIdle(g, Entry(d), payload, env);
      step.(ops := EntryOps(d) + step.ops)
  }

  // ---- the invariant of a staging ----

  /** Byte `i` has been erased since the erase marks were last given up, and not programmed since. */
  ghost predicate Blank(g: Geometry, log: seq<Op>, i: nat)
    requires g.Valid()
  {
    exists e :: 0 <= e < |log| && log[e] == Erase(g.SectorOf(i)) && Untouched(log, e, i)
  }

  ghost predicate Untouched(log: seq<Op>, e: nat, i: nat) {
    forall k :: e < k < |log| ==>
      log[k] != Forget && (log[k].Program? ==> !(log[k].start <= i < log[k].start + log[k].len))
  }

  /** Up to where bytes may have been programmed. */
  function Frontier(d: Device): nat {
    if d.pending.Some? then d.pending.value.start + |d.pending.value.expected| else d.count
  }

  ghost predicate Shape(g: Geometry, d: Device) {
    && g.Valid() && |d.slot| == g.SlotSize() && |d.erased| == g.sectors
    && (d.ready ==> d.pending.None?)
    && (d.pending.Some? ==> d.pending.value.start + |d.pending.value.expected| <= |d.slot|)
  }

  predicate SectorErased(g: Geometry, d: Device)
    requires g.Valid()
  {
    g.SectorOf(d.count) < |d.erased| && d.erased[g.SectorOf(d.count)]
  }

  /** A page that leaves its sector ends exactly where the next one starts. */
  lemma {:induction false} NextSector(g: Geometry, start: nat)
    requires g.Valid() && start % g.page == 0
    ensures g.SectorOf(start + g.page) == g.SectorOf(start)
            || start + g.page == g.SectorOf(start + g.page) * g.Sector()
  {
    var m := start / g.page;
    NextPage(start, g.page);
    NextMultiple(m, g.pages);
    var q := (m + 1) / g.pages;
    if m + 1 == g.pages * q {
      MulThree(g.page, g.pages, q);
    }
  }

  lemma {:induction false} NextPage(start: nat, page: nat)
    requires page > 0 && start % page == 0
    ensures (start + page) / page == start / page + 1
    ensures start + page == page * (start / page + 1)
  {
    var m := start / page;
    assert page * (m + 1) == page * m + page;
    Bits.DivModUnique(start + page, page, m + 1, 0);
  }

  lemma {:induction false} NextMultiple(m: nat, n: nat)
    requires n > 0
    ensures (m + 1) / n == m / n || m + 1 == n * ((m + 1) / n)
  {
    var k, r := m / n, m % n;
    if r + 1 < n {
      Bits.DivModUnique(m + 1, n, k, r + 1);
    } else {
      assert n * (k + 1) == n * k + n;
      Bits.DivModUnique(m + 1, n, k + 1, 0);
    }
  }

  lemma {:induction false} MulThree(a: nat, b: nat, c: nat)
    ensures a * (b * c) == c * (a * b)
  {}

  /** What is staged so far is a verified prefix of the payload, ending on a page boundary. */
  ghost predicate Staged(g: Geometry, d: Device, payload: seq<u8>)
    requires Shape(g, d)
  {
    0 < |payload| <= |d.slot| && !d.ready ==>
      && d.count <= |payload| && d.count < |d.slot| && d.count % g.page == 0
      && d.slot[..d.count] == payload[..d.count]
      && (d.pending.Some? ==>
           && d.pending.value == Readback(d.count, payload[d.count..PageEnd(g, d.count, |payload|)])
           && SectorErased(g, d))
      && (SectorErased(g, d) || d.count == g.SectorOf(d.count) * g.Sector())
  }

  /** Erased sectors are blank beyond the frontier. */
  ghost predicate BlankAhead(g: Geometry, d: Device, log: seq<Op>)
    requires Shape(g, d)
  {
    !d.ready ==>
      forall i :: Frontier(d) <= i < |d.slot| && g.SectorOf(i) < g.sectors && d.erased[g.SectorOf(i)] ==>
        Blank(g, log, i)
  }

  lemma {:induction false} BlankExtends(g: Geometry, log: seq<Op>, op: Op, i: nat)
    requires g.Valid() && Blank(g, log, i)
    requires op != Forget && (op.Program? ==> !(op.start <= i < op.start + op.len))
    ensures Blank(g, log + [op], i)
  {
    var e :| 0 <= e < |log| && log[e] == Erase(g.SectorOf(i)) && Untouched(log, e, i);
    assert (log + [op])[e] == Erase(g.SectorOf(i));
    assert Untouched(log + [op], e, i);
  }

  /** A device that a new payload may be handed to. */
  predicate Restartable(d: Device) {
    d.ready || (d.count == 0 && d.pending.None?)
  }

  /** Everything a poll relies on and keeps. */
  ghost predicate Inv(g: Geometry, d: Device, payload: seq<u8>, log: seq<Op>) {
    Shape(g, d) && Staged(g, d, payload) && BlankAhead(g, d, log)
  }

  lemma {:induction false} RestartKeepsInv(g: Geometry, d: Device, payload: seq<u8>, log: seq<Op>)
    requires Shape(g, d) && BlankAhead(g, d, log) && Restartable(d)
    ensures Inv(g, d, payload, log)
  {}

  lemma {:induction false} AbandonKeepsInv(g: Geometry, d: Device, payload: seq<u8>, log: seq<Op>)
    requires Shape(g, d)
    ensures Inv(g, Abandoned(d), payload, log) && Restartable(Abandoned(d))
  {}

  /** Where in the cycle erase, program, read back the device is. */
  function Phase(g: Geometry, d: Device): nat
    requires g.Valid()
  {
    if d.pending.Some? then 0
    else if SectorErased(g, d) then 1
    else 2
  }

  /** A poll that keeps transferring gets closer: it verifies bytes, or moves on in the cycle. */
  ghost predicate Closer(g: Geometry, before: Device, after: Device, total: nat)
    requires g.Valid()
  {
    before.count <= after.count <= total && (before.count < after.count || Phase(g, after) < Phase(g, before))
  }

  /** What one step on a non-ready device establishes. */
  ghost predicate Good(g: Geometry, before: Device, payload: seq<u8>, log: seq<Op>, step: Step)
    requires g.Valid()
  {
    && |step.ops| <= 1
    && Inv(g, step.dev, payload, log + step.ops)
    && (step.ops != [] && step.ops[0].Program? ==>
         forall i :: step.ops[0].start <= i < step.ops[0].start + step.ops[0].len ==> Blank(g, log, i))
    && (step.result == Ok(Ready) ==> |payload| <= |step.dev.slot| && step.dev.slot[..|payload|] == payload)
    && (step.result.Ok? && step.result.progress.Transferring? ==>
         && step.result.progress == Transferring(step.dev.count, |payload|) && Closer(g, before, step.dev, |payload|)
         && !step.dev.ready
         && (step.dev.count == |payload| <==> before.count == |payload|))
  }

  lemma {:induction false} ReadbackIsGood(g: Geometry, d: Device, payload: seq<u8>, log: seq<Op>)
    requires Inv(g, d, payload, log) && !d.ready && 0 < |payload| <= |d.slot| && d.pending.Some?
    ensures Good(g, d, payload, log, ReadbackStep(d, |payload|))
  {
    var step := ReadbackStep(d, |payload|);
    var end := PageEnd(g, d.count, |payload|);
    assert log + [] == log;
    if d.slot[d.count..end] == payload[d.count..end] {
      assert d.slot[..end] == d.slot[..d.count] + d.slot[d.count..end];
      assert payload[..end] == payload[..d.count] + payload[d.count..end];
      if end < |payload| {
        NextPageAligned(d.count, g.page);
        NextSector(g, d.count);
        SectorFits(g, d.count);
      }
      assert payload[..|payload|] == payload;
    } else {
      AbandonKeepsInv(g, d, payload, log + [Forget]);
    }
  }

  lemma {:induction false} EraseIsGood(g: Geometry, d: Device, payload: seq<u8>, log: seq<Op>)
    requires Inv(g, d, payload, log) && !d.ready && 0 < |payload| <= |d.slot| && d.pending.None?
    requires g.SectorOf(d.count) < g.sectors && !d.erased[g.SectorOf(d.count)]
    ensures Good(g, d, payload, log, EraseStep(g, d, |payload|))
  {
    var step := EraseStep(g, d, |payload|);
    var s := g.SectorOf(d.count);
    SectorFits(g, d.count);
    // The bytes already staged lie in earlier sectors, so the fill leaves them alone.
    assert step.dev.slot[..d.count] == d.slot[..d.count];
    var log' := log + [Erase(s)];
    forall i | d.count <= i < |d.slot| && g.SectorOf(i) < g.sectors && step.dev.erased[g.SectorOf(i)]
      ensures Blank(g, log', i)
    {
      if g.SectorOf(i) == s {
        assert log'[|log|] == Erase(s) && Untouched(log', |log|, i);
      } else {
        BlankExtends(g, log, Erase(s), i);
      }
    }
  }

  lemma {:induction false} ProgramIsGood(g: Geometry, d: Device, payload: seq<u8>, log: seq<Op>, env: Env)
    requires Inv(g, d, payload, log) && !d.ready && 0 < |payload| <= |d.slot| && d.pending.None?
    requires SectorErased(g, d)
    ensures Good(g, d, payload, log, ProgramStep(g, d, payload, env))
  {
    var step := ProgramStep(g, d, payload, env);
    assert log + [] == log;
    if env.readFault.None? {
      var end := PageEnd(g, d.count, |payload|);
      var op := step.ops[0];
      assert step.dev.slot[..d.count] == d.slot[..d.count];
      forall i | d.count <= i < end ensures Blank(g, log, i) {
        PageInSector(g, d.count, i);
        SectorFits(g, i);
      }
      forall i | end <= i < |d.slot| && g.SectorOf(i) < g.sectors && d.erased[g.SectorOf(i)]
        ensures Blank(g, log + [op], i)
      {
        BlankExtends(g, log, op, i);
      }
    }
  }

  lemma {:induction false} IdlePollIsGood(g: Geometry, d: Device, payload: seq<u8>, log: seq<Op>, env: Env)
    requires Inv(g, d, payload, log) && !d.ready && payload != []
    ensures Sane(g, d, payload)
    ensures Good(g, d, payload, log, PollIdle(g, d, payload, env))
  {
    assert log + [] == log;
    if |payload| <= |d.slot| {
      if d.pending.Some? {
        ReadbackIsGood(g, d, payload, log);
      } else {
        SectorFits(g, d.count);
        if SectorErased(g, d) {
          ProgramIsGood(g, d, payload, log, env);
        } else {
          EraseIsGood(g, d, payload, log);
        }
      }
    }
  }

  /** One poll with the payload being staged: it does not panic, and it keeps everything. */
  lemma {:induction false} PollIsGood(g: Geometry, d: Device, payload: seq<u8>, log: seq<Op>, env: Env)
    requires Inv(g, d, payload, log) && payload != []
    ensures Sane(g, d, payload)
    ensures var step := Poll(g, d, payload, env);
            && step.ops == EntryOps(d) + step.ops[|EntryOps(d)|..]
            && Good(g, Entry(d), payload, log + EntryOps(d), step.(ops := step.ops[|EntryOps(d)|..]))
            && log + step.ops == log + EntryOps(d) + step.ops[|EntryOps(d)|..]
  {
    assert log + [] == log;
    if d.ready {
      AbandonKeepsInv(g, d, payload, log + [Forget]);
    }
    IdlePollIsGood(g, Entry(d), payload, log + EntryOps(d), env);
  }

  // ---- what each result comes from ----

  /** The page written last, if any, reads back as written. */
  predicate Clean(d: Device) {
    d.pending.Some? ==>
      var Readback(start, expected) := d.pending.value;
      start + |expected| <= |d.slot| && d.slot[start..start + |expected|] == expected
  }

  /** Each error has its cause: an empty or oversized payload, a payload read that failed, or flash
      that did not hold what was written. */
  lemma {:induction false} ErrorsHaveCauses(g: Geometry, d: Device, payload: seq<u8>, env: Env)
    requires Sane(g, d, payload)
    ensures var step := Poll(g, d, payload, env);
            && (step.result == Err(EmptyPayload) <==> payload == [])
            && (step.result == Err(DeviceError) <==> |payload| > |d.slot|)
            && (step.result == Err(ReadbackMismatch) <==> 0 < |payload| <= |d.slot| && !d.ready && !Clean(d))
            && (step.result.Err? && step.result.error.PayloadFault? ==> env.readFault == Some(step.result.error.fault))
            && (step.result.Err? && step.result.error.PayloadFault? <==>
                 env.readFault.Some? && ReadsPayload(g, d, payload))
            && (Clean(d) && env.glitch.None? ==> Clean(step.dev))
  {
    if payload != [] {
      EntryIsSane(g, d, payload);
      var e := Entry(d);
      if |payload| <= |e.slot| && e.pending.None? {
        SectorInSlot(g, e.count);
        if e.erased[g.SectorOf(e.count)] && env.readFault.None? {
          var end := PageEnd(g, e.count, |payload|);
          assert Store(e.slot, e.count, payload[e.count..end])[e.count..end] == payload[e.count..end];
        }
      }
    }
  }

  /** A poll takes a page from the payload: nothing is left to read back and the sector is erased. */
  predicate ReadsPayload(g: Geometry, d: Device, payload: seq<u8>)
    requires g.Valid()
  {
    0 < |payload| <= |d.slot| && !d.ready && d.pending.None? && SectorErased(g, d)
  }

  /** What a poll does to the flash, byte by byte. It does at most one thing: an erase fills one sector
      with 0xFF; a program stores the next page of the payload, or what a glitch makes of it; every
      other byte stays, and so does the whole slot otherwise. */
  lemma {:induction false} PollTouchesOnly(g: Geometry, d: Device, payload: seq<u8>, env: Env, i: nat)
    requires Sane(g, d, payload) && i < |d.slot|
    ensures var step := Poll(g, d, payload, env);
            var op := if step.ops == [] then Forget else step.ops[|step.ops| - 1];
            && |step.dev.slot| == |d.slot|
            && match op
               case Forget => step.dev.slot == d.slot
               case Erase(s) => step.dev.slot[i] == if g.SectorOf(i) == s then 0xFF else d.slot[i]
               case Program(start, len) =>
                 && start == d.count && start + len == PageEnd(g, start, |payload|)
                 && (start <= i < start + len && env.glitch.None? ==> step.dev.slot[i] == payload[i])
                 && (!(start <= i < start + len) ==> step.dev.slot[i] == d.slot[i])
  {
    if payload != [] {
      EntryIsSane(g, d, payload);
      var e := Entry(d);
      if |payload| <= |e.slot| && e.pending.None? {
        SectorInSlot(g, e.count);
        if !e.erased[g.SectorOf(e.count)] {
          EraseFills(g, e, |payload|, i);
        }
      }
    }
  }

  lemma {:induction false} EraseFills(g: Geometry, d: Device, total: nat, i: nat)
    requires g.Valid() && |d.slot| == g.SlotSize() && |d.erased| == g.sectors && d.count < |d.slot| && i < |d.slot|
    ensures EraseStep(g, d, total).dev.slot[i] == if g.SectorOf(i) == g.SectorOf(d.count) then 0xFF else d.slot[i]
  {
    var s := g.SectorOf(d.count);
    var lo := s * g.Sector();
    SectorFits(g, d.count);
    InSector(g, i, s);
    FillAt(d.slot, lo, lo + g.Sector(), i);
  }

  lemma {:induction false} FillAt(slot: seq<u8>, lo: nat, hi: nat, i: nat)
    requires lo <= hi <= |slot| && i < |slot|
    ensures Fill(slot, lo, hi)[i] == if lo <= i < hi then 0xFF else slot[i]
  {}

  lemma {:induction false} InSector(g: Geometry, i: nat, s: nat)
    requires g.Valid()
    ensures g.SectorOf(i) == s <==> s * g.Sector() <= i < s * g.Sector() + g.Sector()
  {
    SectorBounds(g, i);
    Apart(g.SectorOf(i), s, g.Sector());
    Apart(s, g.SectorOf(i), g.Sector());
  }

  lemma {:induction false} Apart(s: nat, t: nat, size: nat)
    ensures s < t ==> s * size + size <= t * size
  {
    if s < t {
      MulMonotone(s + 1, t, size);
      Bits.MulSucc(size, s);
    }
  }

  // ---- runs of polls and abandons ----

  datatype Event = PollWith(payload: seq<u8>, env: Env) | Abandon

  /** A run so far; `halted` once a poll has panicked. */
  datatype Trace = Trace(dev: Device, log: seq<Op>, last: Option<Result>, halted: bool)

  ghost function Apply(g: Geometry, t: Trace, e: Event): Trace {
    if t.halted then t
    else
      match e
      case Abandon => Trace(Abandoned(t.dev), t.log + [Forget], None, false)
      case PollWith(payload, env) =>
        if !Sane(g, t.dev, payload) then t.(last := None, halted := true)
        else
          var step := Poll(g, t.dev, payload, env);
          Trace(step.dev, t.log + step.ops, Some(step.result), false)
  }

  function Start(g: Geometry, slot: seq<u8>): Trace {
    Trace(Device(slot, seq(g.sectors, _ => false), None, 0, false), [], None, false)
  }

  ghost function Run(g: Geometry, slot: seq<u8>, es: seq<Event>): Trace {
    if es == [] then Start(g, slot) else Apply(g, Run(g, slot, es[..|es| - 1]), es[|es| - 1])
  }

  /** The payload of the latest poll. */
  function Current(es: seq<Event>): seq<u8> {
    if es == [] then []
    else if es[|es| - 1].PollWith? then es[|es| - 1].payload
    else Current(es[..|es| - 1])
  }

  predicate Transfers(r: Option<Result>) {
    r.Some? && r.value.Ok? && r.value.progress.Transferring?
  }

  /** What the seam asks of a caller: keep polling with the same payload while a transfer is
      reported. After an error, `Ready`, an abandon, or with nothing staged, any payload may follow. */
  ghost predicate Lawful(g: Geometry, slot: seq<u8>, es: seq<Event>) {
    es == [] ||
    var init, e := es[..|es| - 1], es[|es| - 1];
    var t := Run(g, slot, init);
    && Lawful(g, slot, init)
    && (e.PollWith? ==> e.payload == Current(init) || !Transfers(t.last) || Restartable(t.dev))
  }

  predicate Accepts(slot: seq<u8>, payload: seq<u8>) {
    0 < |payload| <= |slot|
  }

  /** No payload handed over is shorter than what is verified already. */
  ghost predicate LongEnough(g: Geometry, slot: seq<u8>, es: seq<Event>) {
    es == [] ||
    var init, e := es[..|es| - 1], es[|es| - 1];
    && LongEnough(g, slot, init)
    && (e.PollWith? && Accepts(slot, e.payload) ==> Entry(Run(g, slot, init).dev).count <= |e.payload|)
  }

  /** The first `c` bytes of `p`, the rest of `q`. */
  function Mixed(p: seq<u8>, c: nat, q: seq<u8>): seq<u8> {
    if c <= |p| && c <= |q| then p[..c] + q[c..] else q
  }

  /** What the device is really staging: every poll keeps the bytes verified before it. */
  ghost function Effective(g: Geometry, slot: seq<u8>, es: seq<Event>): seq<u8> {
    if es == [] then []
    else
      var init, e := es[..|es| - 1], es[|es| - 1];
      if e.PollWith? && Accepts(slot, e.payload) then
        Mixed(Effective(g, slot, init), Entry(Run(g, slot, init).dev).count, e.payload)
      else Effective(g, slot, init)
  }

  /** Every programmed byte was erased in the same staging, and not programmed since that erase. */
  ghost predicate ErasedBeforeProgrammed(g: Geometry, log: seq<Op>)
    requires g.Valid()
  {
    forall j, i :: 0 <= j < |log| && log[j].Program? && log[j].start <= i < log[j].start + log[j].len ==>
      Blank(g, log[..j], i)
  }

  lemma {:induction false} LogGrows(g: Geometry, log: seq<Op>, op: Op)
    requires g.Valid() && ErasedBeforeProgrammed(g, log)
    requires op.Program? ==> forall i :: op.start <= i < op.start + op.len ==> Blank(g, log, i)
    ensures ErasedBeforeProgrammed(g, log + [op])
  {
    forall j, i | 0 <= j < |log + [op]| && (log + [op])[j].Program?
                  && (log + [op])[j].start <= i < (log + [op])[j].start + (log + [op])[j].len
      ensures Blank(g, (log + [op])[..j], i)
    {
      assert (log + [op])[..j] == log[..j];
      assert j == |log| ==> log[..j] == log;
    }
  }

  lemma {:induction false} PollLogGrows(g: Geometry, d: Device, payload: seq<u8>, log: seq<Op>, env: Env)
    requires Inv(g, d, payload, log) && payload != [] && ErasedBeforeProgrammed(g, log)
    ensures Sane(g, d, payload) && ErasedBeforeProgrammed(g, log + Poll(g, d, payload, env).ops)
  {
    PollIsGood(g, d, payload, log, env);
    var ops := Poll(g, d, payload, env).ops;
    var entry, rest := log + EntryOps(d), ops[|EntryOps(d)|..];
    if d.ready {
      LogGrows(g, log, Forget);
    } else {
      assert entry == log;
    }
    if rest != [] {
      LogGrows(g, entry, rest[0]);
      assert rest == [rest[0]];
    } else {
      assert entry + rest == entry;
    }
  }

  /** A poll reads the payload from the verified count on only. */
  lemma {:induction false} PollReadsAhead(g: Geometry, d: Device, q: seq<u8>, r: seq<u8>, env: Env)
    requires Sane(g, d, q) && |q| == |r| && Entry(d).count <= |q| && q[Entry(d).count..] == r[Entry(d).count..]
    ensures Sane(g, d, r) && Poll(g, d, q, env) == Poll(g, d, r, env)
  {
    EntryIsSane(g, d, q);
    var e := Entry(d);
    if e.pending.None? && 0 < |q| <= |e.slot| {
      SliceAgrees(q, r, e.count, e.count, PageEnd(g, e.count, |q|));
    }
  }

  lemma {:induction false} SliceAgrees(q: seq<u8>, r: seq<u8>, c: nat, lo: nat, hi: nat)
    requires |q| == |r| && c <= lo <= hi <= |q| && q[c..] == r[c..]
    ensures q[lo..hi] == r[lo..hi]
  {
    forall i | lo <= i < hi ensures q[i] == r[i] {
      assert q[c..][i - c] == r[c..][i - c];
    }
  }

  lemma {:induction false} PendingIsTransfer(g: Geometry, d: Device, payload: seq<u8>, env: Env)
    requires Sane(g, d, payload) && 0 < |payload| <= |d.slot|
    ensures var step := Poll(g, d, payload, env); step.dev.pending.Some? ==> Transfers(Some(step.result))
  {
    EntryIsSane(g, d, payload);
  }

  /** What holds between the events of a lawful run. */
  ghost predicate Safe(g: Geometry, slot: seq<u8>, es: seq<Event>)
    requires g.Valid() && |slot| == g.SlotSize()
  {
    var t, p := Run(g, slot, es), Effective(g, slot, es);
    && !t.halted && |t.dev.slot| == |slot|
    && Inv(g, t.dev, p, t.log) && ErasedBeforeProgrammed(g, t.log)
    && |p| <= |slot| && (p == [] ==> Restartable(t.dev))
    && (t.dev.pending.Some? ==> Transfers(t.last))
    && (Transfers(t.last) ==>
         && Accepts(slot, Current(es)) && |p| == |Current(es)| && t.dev.count <= |p|
         && p[t.dev.count..] == Current(es)[t.dev.count..])
    && (t.last == Some(Ok(Ready)) ==> |p| == |Current(es)| && t.dev.slot[..|p|] == p)
  }

  /** Handing over `q` makes the device stage the mix. */
  lemma {:induction false} HandOver(g: Geometry, slot: seq<u8>, es: seq<Event>, q: seq<u8>)
    requires g.Valid() && |slot| == g.SlotSize() && Safe(g, slot, es) && Accepts(slot, q)
    requires var t := Run(g, slot, es); q == Current(es) || !Transfers(t.last) || Restartable(t.dev)
    requires Entry(Run(g, slot, es).dev).count <= |q|
    ensures var t, c := Run(g, slot, es), Entry(Run(g, slot, es).dev).count;
            var mix := Mixed(Effective(g, slot, es), c, q);
            Inv(g, t.dev, mix, t.log) && |mix| == |q| && mix[c..] == q[c..]
  {
    var t, p := Run(g, slot, es), Effective(g, slot, es);
    var c := Entry(t.dev).count;
    var mix := Mixed(p, c, q);
    if Restartable(t.dev) {
      RestartKeepsInv(g, t.dev, mix, t.log);
    } else {
      assert mix[..c] == p[..c];
      if Transfers(t.last) {
        assert mix == p[..c] + p[c..] == p;
      }
    }
  }

  lemma {:induction false} PollStaysSafe(g: Geometry, slot: seq<u8>, es: seq<Event>, q: seq<u8>, env: Env)
    requires g.Valid() && |slot| == g.SlotSize() && Safe(g, slot, es) && Accepts(slot, q)
    requires var t := Run(g, slot, es); q == Current(es) || !Transfers(t.last) || Restartable(t.dev)
    requires Entry(Run(g, slot, es).dev).count <= |q|
    ensures Safe(g, slot, es + [PollWith(q, env)])
  {
    var es' := es + [PollWith(q, env)];
    assert es'[..|es|] == es;
    var t, c := Run(g, slot, es), Entry(Run(g, slot, es).dev).count;
    var mix := Mixed(Effective(g, slot, es), c, q);
    HandOver(g, slot, es, q);
    MixedPoll(g, t.dev, mix, q, t.log, env);
  }

  /** Polling with `q` while the device stages `mix`, which is `q` from the verified count on. */
  lemma {:induction false} MixedPoll(g: Geometry, d: Device, mix: seq<u8>, q: seq<u8>, log: seq<Op>, env: Env)
    requires Inv(g, d, mix, log) && ErasedBeforeProgrammed(g, log) && 0 < |q| <= |d.slot|
    requires Entry(d).count <= |q| == |mix| && mix[Entry(d).count..] == q[Entry(d).count..]
    ensures Sane(g, d, q)
    ensures var step := Poll(g, d, q, env);
            && |step.dev.slot| == |d.slot| && Inv(g, step.dev, mix, log + step.ops)
            && ErasedBeforeProgrammed(g, log + step.ops)
            && (step.dev.pending.Some? ==> Transfers(Some(step.result)))
            && (Transfers(Some(step.result)) ==>
                 step.dev.count <= |mix| && mix[step.dev.count..] == q[step.dev.count..])
            && (step.result == Ok(Ready) ==> step.dev.slot[..|mix|] == mix)
  {
    PollIsGood(g, d, mix, log, env);
    PollReadsAhead(g, d, mix, q, env);
    PollLogGrows(g, d, mix, log, env);
    PendingIsTransfer(g, d, q, env);
    var step := Poll(g, d, q, env);
    if Transfers(Some(step.result)) {
      SliceAgrees(mix, q, Entry(d).count, step.dev.count, |q|);
    }
  }

  /** A payload that is refused leaves the staging as it was, or abandoned. */
  lemma {:induction false} RefusalStaysSafe(g: Geometry, slot: seq<u8>, es: seq<Event>, q: seq<u8>, env: Env)
    requires g.Valid() && |slot| == g.SlotSize() && Safe(g, slot, es) && !Accepts(slot, q)
    requires var t := Run(g, slot, es); q == Current(es) || !Transfers(t.last) || Restartable(t.dev)
    ensures Safe(g, slot, es + [PollWith(q, env)])
  {
    var es' := es + [PollWith(q, env)];
    assert es'[..|es|] == es;
    var t, p := Run(g, slot, es), Effective(g, slot, es);
    RefusedPoll(g, t.dev, q, env);
    assert t.log + [] == t.log;
    if q != [] && t.dev.ready {
      AbandonKeepsInv(g, t.dev, p, t.log + [Forget]);
      LogGrows(g, t.log, Forget);
      assert Run(g, slot, es') == Trace(Abandoned(t.dev), t.log + [Forget], Some(Err(DeviceError)), false);
    } else {
      assert Run(g, slot, es').dev == t.dev && Run(g, slot, es').log == t.log && Run(g, slot, es').last.value.Err?;
    }
  }

  lemma {:induction false} RefusedPoll(g: Geometry, d: Device, q: seq<u8>, env: Env)
    requires Shape(g, d) && !(0 < |q| <= |d.slot|)
    ensures Sane(g, d, q)
    ensures Poll(g, d, q, env)
            == if q == [] then Step(d, Err(EmptyPayload), []) else Step(Entry(d), Err(DeviceError), EntryOps(d))
  {
    assert EntryOps(d) + [] == EntryOps(d);
  }

  lemma {:induction false} AbandonStaysSafe(g: Geometry, slot: seq<u8>, es: seq<Event>)
    requires g.Valid() && |slot| == g.SlotSize() && Safe(g, slot, es)
    ensures Safe(g, slot, es + [Abandon])
  {
    var es' := es + [Abandon];
    assert es'[..|es|] == es;
    var t, p := Run(g, slot, es), Effective(g, slot, es);
    AbandonKeepsInv(g, t.dev, p, t.log + [Forget]);
    LogGrows(g, t.log, Forget);
    assert Run(g, slot, es') == Trace(Abandoned(t.dev), t.log + [Forget], None, false);
  }

  /** Safety of staging over every lawful run, whatever reads fail and whatever the flash stores: no
      poll panics, no byte is programmed twice per erase, and when `Ready` is reported the slot holds
      exactly what was effectively handed over. */
  lemma {:induction false} StagingIsSafe(g: Geometry, slot: seq<u8>, es: seq<Event>)
    requires g.Valid() && |slot| == g.SlotSize() && Lawful(g, slot, es) && LongEnough(g, slot, es)
    ensures Safe(g, slot, es)
  {
    if es == [] {
      StartIsSafe(g, slot);
    } else {
      var init, e := es[..|es| - 1], es[|es| - 1];
      StagingIsSafe(g, slot, init);
      EventStaysSafe(g, slot, init, e);
      assert init + [e] == es;
    }
  }

  lemma {:induction false} StartIsSafe(g: Geometry, slot: seq<u8>)
    requires g.Valid() && |slot| == g.SlotSize()
    ensures Safe(g, slot, [])
  {
    assert Run(g, slot, []) == Start(g, slot);
  }

  lemma {:induction false} EventStaysSafe(g: Geometry, slot: seq<u8>, es: seq<Event>, e: Event)
    requires g.Valid() && |slot| == g.SlotSize() && Safe(g, slot, es)
    requires var t := Run(g, slot, es);
             e.PollWith? ==>
               && (e.payload == Current(es) || !Transfers(t.last) || Restartable(t.dev))
               && (Accepts(slot, e.payload) ==> Entry(t.dev).count <= |e.payload|)
    ensures Safe(g, slot, es + [e])
  {
    if e == Abandon {
      AbandonStaysSafe(g, slot, es);
    } else if Accepts(slot, e.payload) {
      PollStaysSafe(g, slot, es, e.payload, e.env);
    } else {
      RefusalStaysSafe(g, slot, es, e.payload, e.env);
    }
  }

  /** A new payload is handed over only to a device that is ready or has nothing staged. */
  ghost predicate Disciplined(g: Geometry, slot: seq<u8>, es: seq<Event>) {
    es == [] ||
    var init, e := es[..|es| - 1], es[|es| - 1];
    && Disciplined(g, slot, init)
    && (e.PollWith? ==> e.payload == Current(init) || Restartable(Run(g, slot, init).dev))
  }

  /** Under that discipline the run is lawful, no payload is too short, and `Ready` means the slot
      holds the payload polled with. */
  lemma {:induction false} DisciplinedIsTrue(g: Geometry, slot: seq<u8>, es: seq<Event>)
    requires g.Valid() && |slot| == g.SlotSize() && Disciplined(g, slot, es)
    ensures Lawful(g, slot, es) && LongEnough(g, slot, es) && Safe(g, slot, es)
    ensures Effective(g, slot, es) == Current(es) || Restartable(Run(g, slot, es).dev)
    ensures var t := Run(g, slot, es);
            t.last == Some(Ok(Ready)) ==> |Current(es)| <= |slot| && t.dev.slot[..|Current(es)|] == Current(es)
  {
    if es != [] {
      var init, e := es[..|es| - 1], es[|es| - 1];
      DisciplinedIsTrue(g, slot, init);
      var t, p := Run(g, slot, init), Effective(g, slot, init);
      if e.PollWith? {
        if Accepts(slot, e.payload) {
          DisciplinedMix(g, t.dev, p, e.payload, t.log);
        } else {
          RefusedPoll(g, t.dev, e.payload, e.env);
        }
      }
    }
    StagingIsSafe(g, slot, es);
  }

  lemma {:induction false} DisciplinedMix(g: Geometry, d: Device, p: seq<u8>, q: seq<u8>, log: seq<Op>)
    requires Inv(g, d, p, log) && 0 < |q| <= |d.slot| && (Restartable(d) || p == q)
    ensures Entry(d).count <= |q| && Mixed(p, Entry(d).count, q) == q
  {
    var c := Entry(d).count;
    if c <= |p| && c <= |q| {
      assert q == q[..c] + q[c..];
    }
  }

  /** Progress never goes back: while a transfer is reported, `written` is the verified prefix, it
      never shrinks, the cycle moves on, and it is below the total unless all of the payload was
      verified before it was handed over. */
  lemma {:induction false} WrittenIsMonotone(g: Geometry, slot: seq<u8>, es: seq<Event>, payload: seq<u8>, env: Env)
    requires g.Valid() && |slot| == g.SlotSize()
    requires var es' := es + [PollWith(payload, env)]; Lawful(g, slot, es') && LongEnough(g, slot, es')
    ensures var before, after := Run(g, slot, es), Run(g, slot, es + [PollWith(payload, env)]);
            Transfers(after.last) ==>
              && after.last == Some(Ok(Transferring(after.dev.count, |payload|)))
              && after.dev.count <= |payload| <= |after.dev.slot|
              && Closer(g, Entry(before.dev), after.dev, |payload|)
              && (after.dev.count == |payload| <==> Entry(before.dev).count == |payload|)
  {
    var es' := es + [PollWith(payload, env)];
    assert es'[..|es|] == es;
    StagingIsSafe(g, slot, es);
    if Accepts(slot, payload) {
      HandOver(g, slot, es, payload);
      var t := Run(g, slot, es);
      var mix := Mixed(Effective(g, slot, es), Entry(t.dev).count, payload);
      PollIsGood(g, t.dev, mix, t.log, env);
      PollReadsAhead(g, t.dev, mix, payload, env);
    }
  }

  // ---- staging completes ----

  /** Nothing goes wrong during the poll. */
  predicate Calm(env: Env) {
    env.readFault.None? && env.glitch.None?
  }

  /** Polling with `q` from `d` transfers without an error and ends ready, as `final`. */
  ghost predicate ReadyAfter(g: Geometry, d: Device, q: seq<u8>, envs: seq<Env>, final: Device)
    decreases |envs|
  {
    && envs != [] && Sane(g, d, q)
    && var step := Poll(g, d, q, envs[0]);
       if |envs| == 1 then step.result == Ok(Ready) && step.dev == final
       else Transfers(Some(step.result)) && ReadyAfter(g, step.dev, q, envs[1..], final)
  }

  /** A bound on the polls a transfer still takes. */
  function PollsLeft(g: Geometry, d: Device, total: nat): nat
    requires g.Valid()
  {
    Phase(g, d) + 1 + if d.count <= total then 3 * (total - d.count) else 0
  }

  /** Every payload that fits is staged: as long as nothing goes wrong, some poll within the bound
      reports ready, and the slot holds the payload. */
  lemma {:induction false} StagingCompletes(g: Geometry, d: Device, payload: seq<u8>, log: seq<Op>, envs: seq<Env>)
    returns (n: nat, final: Device)
    requires Inv(g, d, payload, log) && 0 < |payload| <= |d.slot| && Clean(Entry(d))
    requires forall k :: 0 <= k < |envs| ==> Calm(envs[k])
    requires |envs| >= PollsLeft(g, Entry(d), |payload|)
    ensures n <= |envs| && ReadyAfter(g, d, payload, envs[..n], final)
    ensures |payload| <= |final.slot| && final.slot[..|payload|] == payload
    decreases |envs|
  {
    PollIsGood(g, d, payload, log, envs[0]);
    EntryPollsAlike(g, d, payload, envs[0]);
    ErrorsHaveCauses(g, Entry(d), payload, envs[0]);
    var step := Poll(g, d, payload, envs[0]);
    if step.result == Ok(Ready) {
      n, final := 1, step.dev;
    } else {
      var m;
      m, final := StagingCompletes(g, step.dev, payload, log + step.ops, envs[1..]);
      n := m + 1;
      assert envs[..n][1..] == envs[1..][..m];
    }
  }

  lemma {:induction false} EntryPollsAlike(g: Geometry, d: Device, payload: seq<u8>, env: Env)
    requires Sane(g, d, payload) && payload != []
    ensures Sane(g, Entry(d), payload)
    ensures var a, b := Poll(g, d, payload, env), Poll(g, Entry(d), payload, env);
            a.dev == b.dev && a.result == b.result
  {
    EntryIsSane(g, d, payload);
  }

  // ---- another payload after a failed read ----

  lemma {:induction false} ReadyHoldsMix(g: Geometry, d: Device, q: seq<u8>, mix: seq<u8>, log: seq<Op>,
                                         envs: seq<Env>, final: Device)
    requires Inv(g, d, mix, log) && !d.ready && d.count <= |q| == |mix| <= |d.slot| && q != []
    requires q[d.count..] == mix[d.count..] && ReadyAfter(g, d, q, envs, final)
    ensures |q| <= |final.slot| && final.slot[..|q|] == mix
    decreases |envs|
  {
    PollReadsAhead(g, d, q, mix, envs[0]);
    PollIsGood(g, d, mix, log, envs[0]);
    if |envs| > 1 {
      var step := Poll(g, d, q, envs[0]);
      SliceAgrees(q, mix, d.count, step.dev.count, |q|);
      ReadyHoldsMix(g, step.dev, q, mix, log + step.ops, envs[1..], final);
    }
  }

  /** Exactly what handing over another payload mid-transfer does: the bytes verified so far stay, so
      a device that then reports ready holds the new payload if and only if the two payloads agree
      on those bytes. */
  lemma {:induction false} SwitchedPayloadReadyIff(g: Geometry, d: Device, p: seq<u8>, q: seq<u8>, log: seq<Op>,
                                                   envs: seq<Env>, final: Device)
    requires Inv(g, d, p, log) && 0 < |p| <= |d.slot| && !d.ready && d.pending.None?
    requires d.count <= |q| && 0 < |q| <= |d.slot| && ReadyAfter(g, d, q, envs, final)
    ensures |q| <= |final.slot| && final.slot[..|q|] == p[..d.count] + q[d.count..]
    ensures final.slot[..|q|] == q <==> q[..d.count] == p[..d.count]
  {
    var c := d.count;
    var mix := p[..c] + q[c..];
    assert mix[..c] == p[..c] && mix[c..] == q[c..];
    ReadyHoldsMix(g, d, q, mix, log, envs, final);
    assert q == q[..c] + q[c..];
  }

  /** A payload shorter than what is verified, and no other, makes the device panic: at once, or
      after one erase. */
  lemma {:induction false} ShorterPayloadPanics(g: Geometry, d: Device, p: seq<u8>, q: seq<u8>, log: seq<Op>, env: Env)
    requires Inv(g, d, p, log) && 0 < |p| <= |d.slot| && !d.ready && d.pending.None? && 0 < |q| <= |d.slot|
    ensures Panics(g, d, q) <==> |q| < d.count && SectorErased(g, d)
    ensures |q| < d.count ==> Panics(g, d, q) || (Sane(g, d, q) && Panics(g, Poll(g, d, q, env).dev, q))
  {
    SectorFits(g, d.count);
  }

  lemma {:induction false} RunAppend(g: Geometry, slot: seq<u8>, es: seq<Event>, e: Event)
    ensures Run(g, slot, es + [e]) == Apply(g, Run(g, slot, es), e)
  {
    assert (es + [e])[..|es|] == es;
  }

  // ---- two small devices: one sector of two one-byte pages, and one of two two-byte pages ----

  const TINY := Geometry(1, 2, 1)
  const WIDE := Geometry(2, 2, 1)
  const FINE := Env(None, None)
  const FAULTY := Env(Some(Storage), None)

  lemma {:induction false} SmallSectors()
    ensures TINY.Valid() && TINY.Sector() == 2 && TINY.SlotSize() == 2
    ensures TINY.SectorOf(0) == 0 && TINY.SectorOf(1) == 0
    ensures WIDE.Valid() && WIDE.Sector() == 4 && WIDE.SlotSize() == 4
    ensures WIDE.SectorOf(0) == 0 && WIDE.SectorOf(2) == 0
  {}

  lemma {:induction false} TinyErase(slot: seq<u8>)
    requires |slot| == 2
    ensures Apply(TINY, Start(TINY, slot), PollWith([1, 2], FINE))
            == Trace(Device([0xFF, 0xFF], [true], None, 0, false), [Erase(0)], Some(Ok(Transferring(0, 2))), false)
  {
    SmallSectors();
    assert Fill(slot, 0, 2) == [0xFF, 0xFF];
    assert Start(TINY, slot).dev.erased[0 := true] == [true];
  }

  lemma {:induction false} TinyProgram(d: Device, payload: seq<u8>, log: seq<Op>, last: Option<Result>)
    requires |d.slot| == 2 == |payload| && d.erased == [true] && d.pending == None && d.count < 2 && !d.ready
    ensures Apply(TINY, Trace(d, log, last, false), PollWith(payload, FINE))
            == Trace(d.(slot := d.slot[d.count := payload[d.count]],
                        pending := Some(Readback(d.count, [payload[d.count]]))),
                     log + [Program(d.count, 1)], Some(Ok(Transferring(d.count, 2))), false)
  {
    SmallSectors();
    assert payload[d.count..d.count + 1] == [payload[d.count]];
    assert Store(d.slot, d.count, [payload[d.count]]) == d.slot[d.count := payload[d.count]];
  }

  lemma {:induction false} TinyReadback(d: Device, payload: seq<u8>, log: seq<Op>, last: Option<Result>)
    requires |d.slot| == 2 == |payload| && d.erased == [true] && d.count < 2 && !d.ready
    requires d.pending == Some(Readback(d.count, [d.slot[d.count]]))
    ensures Apply(TINY, Trace(d, log, last, false), PollWith(payload, FINE))
            == if d.count == 1 then Trace(d.(pending := None, count := 2, ready := true), log, Some(Ok(Ready)), false)
               else Trace(d.(pending := None, count := 1), log, Some(Ok(Transferring(1, 2))), false)
  {
    SmallSectors();
    assert log + [] == log;
    assert d.slot[d.count..d.count + 1] == [d.slot[d.count]];
  }

  lemma {:induction false} TinyFault(d: Device, payload: seq<u8>, log: seq<Op>, last: Option<Result>)
    requires |d.slot| == 2 == |payload| && d.erased == [true] && d.pending == None && d.count < 2 && !d.ready
    ensures Apply(TINY, Trace(d, log, last, false), PollWith(payload, FAULTY))
            == Trace(d, log, Some(Err(PayloadFault(Storage))), false)
  {
    SmallSectors();
    assert log + [] == log;
  }

  /** The first page of [1, 2] staged and read back; then the payload read fails. */
  ghost const TINY_FAULTED := Trace(Device([1, 0xFF], [true], None, 1, false), [Erase(0), Program(0, 1)],
                                    Some(Err(PayloadFault(Storage))), false)

  const ONE_TWO := PollWith([1, 2], FINE)

  lemma {:induction false} TinyFirstPage(slot: seq<u8>)
    requires |slot| == 2
    ensures Run(TINY, slot, [ONE_TWO, ONE_TWO, ONE_TWO, PollWith([1, 2], FAULTY)]) == TINY_FAULTED
  {
    var d, ok := Device([0xFF, 0xFF], [true], None, 0, false), Some(Ok(Transferring(0, 2)));
    TinyErase(slot);
    TinyProgram(d, [1, 2], [Erase(0)], ok);
    assert d.slot[0 := 1] == [1, 0xFF] && [Erase(0)] + [Program(0, 1)] == [Erase(0), Program(0, 1)];
    var log := [Erase(0), Program(0, 1)];
    TinyReadback(d.(slot := [1, 0xFF], pending := Some(Readback(0, [1]))), [1, 2], log, ok);
    TinyFault(d.(slot := [1, 0xFF], count := 1), [1, 2], log, Some(Ok(Transferring(1, 2))));
    RunOfFour(TINY, slot, ONE_TWO, ONE_TWO, ONE_TWO, PollWith([1, 2], FAULTY));
  }

  lemma {:induction false} RunOfFour(g: Geometry, slot: seq<u8>, a: Event, b: Event, c: Event, d: Event)
    ensures Run(g, slot, [a, b, c, d]) == Apply(g, Apply(g, Apply(g, Apply(g, Start(g, slot), a), b), c), d)
  {
    RunAppend(g, slot, [], a);
    assert [] + [a] == [a];
    RunAppend(g, slot, [a], b);
    assert [a] + [b] == [a, b];
    RunAppend(g, slot, [a, b], c);
    assert [a, b] + [c] == [a, b, c];
    RunAppend(g, slot, [a, b, c], d);
    assert [a, b, c] + [d] == [a, b, c, d];
  }

  /** After a failed payload read the device does not start over: a different payload handed over
      then is reported ready while the slot holds a mix of both. */
  lemma {:induction false} FaultThenNewPayloadMixes(slot: seq<u8>)
    requires |slot| == 2
    ensures var es := [ONE_TWO, ONE_TWO, ONE_TWO, PollWith([1, 2], FAULTY)]
                      + [PollWith([8, 9], FINE)] + [PollWith([8, 9], FINE)];
            Run(TINY, slot, es).last == Some(Ok(Ready)) && Run(TINY, slot, es).dev.slot == [1, 9]
  {
    TinyFirstPage(slot);
    var d, log := TINY_FAULTED.dev, TINY_FAULTED.log;
    TinyProgram(d, [8, 9], log, TINY_FAULTED.last);
    assert d.slot[1 := 9] == [1, 9];
    TinyReadback(d.(slot := [1, 9], pending := Some(Readback(1, [9]))), [8, 9], log + [Program(1, 1)],
                 Some(Ok(Transferring(1, 2))));
    var es, e := [ONE_TWO, ONE_TWO, ONE_TWO, PollWith([1, 2], FAULTY)], PollWith([8, 9], FINE);
    RunAppend(TINY, slot, es, e);
    RunAppend(TINY, slot, es + [e], e);
  }

  /** A payload as long as what is verified is reported as fully written while it is still being
      transferred, and then ready, without one byte of it written. */
  lemma {:induction false} FaultThenEqualLength(slot: seq<u8>)
    requires |slot| == 2
    ensures var e := PollWith([8], FINE);
            var es := [ONE_TWO, ONE_TWO, ONE_TWO, PollWith([1, 2], FAULTY)] + [e];
            && Run(TINY, slot, es).last == Some(Ok(Transferring(1, 1)))
            && Run(TINY, slot, es + [e]).last == Some(Ok(Ready)) && Run(TINY, slot, es + [e]).dev.slot == [1, 0xFF]
  {
    TinyFirstPage(slot);
    TinyEmptyPage();
    var es, e := [ONE_TWO, ONE_TWO, ONE_TWO, PollWith([1, 2], FAULTY)], PollWith([8], FINE);
    RunAppend(TINY, slot, es, e);
    RunAppend(TINY, slot, es + [e], e);
  }

  lemma {:induction false} TinyEmptyPage()
    ensures var once := Apply(TINY, TINY_FAULTED, PollWith([8], FINE));
            var twice := Apply(TINY, once, PollWith([8], FINE));
            once.last == Some(Ok(Transferring(1, 1))) && twice.last == Some(Ok(Ready)) && twice.dev.slot == [1, 0xFF]
  {
    SmallSectors();
    var d := TINY_FAULTED.dev;
    assert [8][1..1] == [] && Store(d.slot, 1, []) == d.slot;
    assert Apply(TINY, TINY_FAULTED, PollWith([8], FINE)).dev == d.(pending := Some(Readback(1, [])));
    assert d.slot[1..1] == [];
  }

  const FOUR := [1, 2, 3, 4]

  /** A payload shorter than what is verified halts the device. */
  lemma {:induction false} FaultThenShorterHalts(slot: seq<u8>)
    requires |slot| == 4
    ensures var e := PollWith(FOUR, FINE);
            Run(WIDE, slot, [e, e, e, PollWith(FOUR, FAULTY)] + [PollWith([8], FINE)]).halted
  {
    var e, f := PollWith(FOUR, FINE), PollWith(FOUR, FAULTY);
    WideFirstPage(slot);
    RunOfFour(WIDE, slot, e, e, e, f);
    RunAppend(WIDE, slot, [e, e, e, f], PollWith([8], FINE));
    SmallSectors();
  }

  lemma {:induction false} WideFirstPage(slot: seq<u8>)
    requires |slot| == 4
    ensures var e := PollWith(FOUR, FINE);
            var t := Apply(WIDE, Apply(WIDE, Apply(WIDE, Apply(WIDE, Start(WIDE, slot), e), e), e),
                           PollWith(FOUR, FAULTY));
            t.dev == Device([1, 2, 0xFF, 0xFF], [true], None, 2, false) && !t.halted
  {
    SmallSectors();
    var e := PollWith(FOUR, FINE);
    var blank, page := [0xFF, 0xFF, 0xFF, 0xFF], [1, 2, 0xFF, 0xFF];
    var t1 := Apply(WIDE, Start(WIDE, slot), e);
    assert Fill(slot, 0, 4) == blank && Start(WIDE, slot).dev.erased[0 := true] == [true];
    assert t1.dev == Device(blank, [true], None, 0, false) && !t1.halted;
    var t2 := Apply(WIDE, t1, e);
    assert FOUR[0..2] == [1, 2] && Store(blank, 0, [1, 2]) == page;
    assert t2.dev == Device(page, [true], Some(Readback(0, [1, 2])), 0, false) && !t2.halted;
    var t3 := Apply(WIDE, t2, e);
    assert page[0..2] == [1, 2];
    assert t3.dev == Device(page, [true], None, 2, false) && !t3.halted;
  }

  // ---- the device as the adapter holds it, and the polling loop ----

  class FlashDevice {
    const g: Geometry
    const slot: array<u8>
    const erased: array<bool>
    var pending: Option<Readback>
    var count: nat
    var ready: bool

    constructor (g: Geometry)
      requires g.Valid()
      ensures this.g == g && fresh(slot) && fresh(erased)
      ensures View() == Start(g, slot[..]).dev && Shape(g, View()) && BlankAhead(g, View(), [])
    {
      this.g := g;
      slot, erased := new u8[g.SlotSize()](_ => 0), new bool[g.sectors](_ => false);
      pending, count, ready := None, 0, false;
      new;
      assert erased[..] == seq(g.sectors, _ => false);
    }

    ghost function View(): Device
      reads this, slot, erased
    {
      Device(slot[..], erased[..], pending, count, ready)
    }

    method Discard()
      modifies this, erased
      ensures View() == Abandoned(old(View()))
    {
      forall i | 0 <= i < erased.Length { erased[i] := false; }
      pending, count, ready := None, 0, false;
      assert erased[..] == seq(erased.Length, _ => false);
    }

    /** Read the written page back. */
    method ReadBack(total: nat) returns (r: Result)
      requires pending.Some? && pending.value.start + |pending.value.expected| <= slot.Length
      modifies this, erased
      ensures View() == ReadbackStep(old(View()), total).dev && r == ReadbackStep(old(View()), total).result
    {
      var Readback(start, expected) := pending.value;
      ghost var d := View();
      assert d.slot[start..start + |expected|] == slot[start..start + |expected|];
      if slot[start..start + |expected|] != expected {
        Discard();
        return Err(ReadbackMismatch);
      }
      pending, count := None, start + |expected|;
      if count == total {
        ready := true;
        return Ok(Ready);
      }
      r := Ok(Transferring(count, total));
    }

    method EraseSector(total: nat) returns (r: Result)
      requires Shape(g, View()) && count < slot.Length
      modifies slot, erased
      ensures View() == EraseStep(g, old(View()), total).dev && r == EraseStep(g, old(View()), total).result
    {
      SectorFits(g, count);
      var sector := g.SectorOf(count);
      var lo := sector * g.Sector();
      ghost var d := View();
      forall i | lo <= i < lo + g.Sector() { slot[i] := 0xFF; }
      erased[sector] := true;
      assert slot[..] == Fill(d.slot, lo, lo + g.Sector());
      assert erased[..] == d.erased[sector := true];
      r := Ok(Transferring(count, total));
    }

    method ProgramPage(payload: seq<u8>, env: Env) returns (r: Result)
      requires count <= |payload| <= slot.Length
      modifies this, slot
      ensures View() == ProgramStep(g, old(View()), payload, env).dev
      ensures r == ProgramStep(g, old(View()), payload, env).result
    {
      if env.readFault.Some? {
        return Err(PayloadFault(env.readFault.value));
      }
      var page := payload[count..PageEnd(g, count, |payload|)];
      var stored := if env.glitch.Some? && |env.glitch.value| == |page| then env.glitch.value else page;
      ghost var d := View();
      forall k | 0 <= k < |stored| { slot[count + k] := stored[k]; }
      assert slot[..] == Store(d.slot, count, stored);
      pending := Some(Readback(count, page));
      r := Ok(Transferring(count, |payload|));
    }

    method PollStage(payload: seq<u8>, env: Env) returns (r: Result)
      requires Shape(g, View()) && Sane(g, View(), payload)
      modifies this, slot, erased
      ensures View() == Poll(g, old(View()), payload, env).dev
      ensures r == Poll(g, old(View()), payload, env).result
    {
      ghost var before := View();
      if payload == [] {
        return Err(EmptyPayload);
      }
      if ready {
        Discard();
      }
      if |payload| > slot.Length {
        return Err(DeviceError);
      }
      if pending.Some? {
        r := ReadBack(|payload|);
        return;
      }
      EntryIsSane(g, before, payload);
      SectorInSlot(g, count);
      if !erased[g.SectorOf(count)] {
        r := EraseSector(|payload|);
      } else {
        r := ProgramPage(payload, env);
      }
    }

    /** One poll of a transfer under way, with what it is worth to the caller. */
    method PollOnce(payload: seq<u8>, env: Env, ghost log: seq<Op>) returns (r: Result, ghost log': seq<Op>)
      requires Inv(g, View(), payload, log)
      modifies this, slot, erased
      ensures Inv(g, View(), payload, log')
      ensures r == Ok(Ready) ==> ready && |payload| <= slot.Length && slot[..|payload|] == payload
      ensures r.Ok? && r.progress.Transferring? ==>
                !ready && count <= |payload| && Closer(g, Entry(old(View())), View(), |payload|)
      ensures r == Err(EmptyPayload) <==> payload == []
      ensures r == Err(DeviceError) <==> |payload| > slot.Length
      ensures r == Err(ReadbackMismatch) ==> !Clean(old(View())) && Restartable(View())
      ensures r.Err? && r.error.PayloadFault? ==> env.readFault == Some(r.error.fault)
      ensures Clean(old(View())) && env.glitch.None? ==> Clean(View())
      ensures 0 < |payload| <= slot.Length && pending.Some? ==> r.Ok?
    {
      ghost var d := View();
      if payload == [] {
        RefusedPoll(g, d, payload, env);
        assert log + [] == log;
      } else {
        PollIsGood(g, d, payload, log, env);
      }
      ErrorsHaveCauses(g, d, payload, env);
      if 0 < |payload| <= slot.Length {
        PendingIsTransfer(g, d, payload, env);
      }
      log' := log + Poll(g, d, payload, env).ops;
      r := PollStage(payload, env);
      if r == Ok(Ready) {
        assert slot[..][..|payload|] == slot[..|payload|];
      }
    }

    /** Poll until ready or an error, whatever the surroundings do. Always ends. On success the slot
        holds the payload; each error has its cause, so with a payload that fits, reads that succeed
        and flash that stores what is written, it succeeds. On every exit the device can be polled
        again with the payload, and after a mismatch with any other. */
    method StageAll(payload: seq<u8>, env: nat -> Env, ghost log: seq<Op>) returns (r: Result, ghost log': seq<Op>)
      requires Inv(g, View(), payload, log)
      modifies this, slot, erased
      ensures Inv(g, View(), payload, log')
      ensures r == Ok(Ready) || r.Err?
      ensures r == Ok(Ready) ==> ready && |payload| <= slot.Length && slot[..|payload|] == payload
      ensures r == Err(EmptyPayload) <==> payload == []
      ensures r == Err(DeviceError) <==> |payload| > slot.Length
      ensures r.Err? && r.error.PayloadFault? ==> exists n: nat :: env(n).readFault == Some(r.error.fault)
      ensures r == Err(ReadbackMismatch) ==>
                (!Clean(old(View())) || exists n: nat :: env(n).glitch.Some?) && Restartable(View())
      ensures 0 < |payload| <= slot.Length ==> pending.None?
      ensures 0 < |payload| <= slot.Length && Clean(old(View())) && (forall n: nat :: Calm(env(n))) ==> r == Ok(Ready)
    {
      log' := log;
      var polls := 0;
      while true
        invariant Inv(g, View(), payload, log')
        invariant Clean(View()) || !Clean(old(View())) || exists n: nat :: env(n).glitch.Some?
        decreases ready, |payload| - count, Phase(g, View())
      {
        r, log' := PollOnce(payload, env(polls), log');
        if r.Err? || r.progress == Ready {
          assert Calm(env(polls)) ==> env(polls).readFault.None?;
          return;
        }
        polls := polls + 1;
      }
    }
  }

  /** A device that failed is staged anew: whatever went wrong the first time, a second attempt during
      which nothing does succeeds. */
  method StageAgain(g: Geometry, payload: seq<u8>, env: nat -> Env)
    returns (device: FlashDevice, first: Result, r: Result)
    requires g.Valid() && 0 < |payload| <= g.SlotSize()
    ensures fresh(device) && r == Ok(Ready)
    ensures |payload| <= device.slot.Length && device.slot[..|payload|] == payload
    ensures first.Err? ==> exists n: nat :: !Calm(env(n))
  {
    device := new FlashDevice(g);
    RestartKeepsInv(g, device.View(), payload, []);
    ghost var log;
    first, log := device.StageAll(payload, env, []);
    r, log := device.StageAll(payload, _ => FINE, log);
  }
}
