/** Polled staging on a device that drives its own transfer: one chunk request per poll, one
    retransmit, and a verify step of its own before it is ready. */
module PldmStaging {
  import opened Bytes
  import Bits

  datatype Fault = OutOfRange | Storage
  datatype Progress = Transferring(written: nat, total: nat) | Ready
  datatype Result = Ok(progress: Progress) | PayloadFault(fault: Fault) | EmptyPayload

  datatype View = View(staged: seq<u8>, offset: nat, retransmitted: bool, verifying: bool, ready: bool)

  const IDLE := View([], 0, false, false, false)

  /** What a poll with `payload` starts from: a ready device gives up its image, and a buffer of
      another length is replaced by zeros, while the offset stays. */
  function Entry(v: View, payload: seq<u8>): View {
    var e := if v.ready then IDLE else v;
    if |e.staged| != |payload| then e.(staged := Zeros(|payload|)) else e
  }

  /** The previous chunk is requested once more, mid-transfer. */
  predicate Retransmits(chunk: nat, v: View) {
    v.offset == 2 * chunk && !v.retransmitted
  }

  function Request(chunk: nat, v: View): nat {
    if Retransmits(chunk, v) then v.offset - chunk else v.offset
  }

  /** The chunk length `total - request` underflows. */
  predicate Panics(chunk: nat, v: View, payload: seq<u8>) {
    payload != [] && !v.ready && !v.verifying && Request(chunk, v) > |payload|
  }

  /** Store a chunk of the payload in the buffer. */
  function Landed(staged: seq<u8>, payload: seq<u8>, request: nat, len: nat): (s: seq<u8>)
    requires |staged| == |payload| && request + len <= |payload|
    ensures |s| == |payload|
  {
    staged[..request] + payload[request..request + len] + staged[request + len..]
  }

  function Poll(chunk: nat, v: View, payload: seq<u8>, fault: Option<Fault>): (View, Result)
    requires !Panics(chunk, v, payload)
  {
    if payload == [] then (v, EmptyPayload)
    else
      var e := Entry(v, payload);
      if e.verifying then (e.(verifying := false, ready := true), Ok(Ready))
      else
        var request := Request(chunk, e);
        var asked := if Retransmits(chunk, e) then e.(retransmitted := true) else e;
        if fault.Some? then (asked, PayloadFault(fault.value))
        else
          var len := Min(chunk, |payload| - request);
          var offset := if request == e.offset then e.offset + len else e.offset;
          (asked.(staged := Landed(e.staged, payload, request, len), offset := offset,
                  verifying := offset == |payload|),
           Ok(Transferring(offset, |payload|)))
  }

  class PldmDevice {
    const chunk: nat
    var staged: seq<u8>
    var offset: nat
    var retransmitted: bool
    var verifying: bool
    var ready: bool

    constructor (chunk: nat)
      requires chunk > 0
      ensures this.chunk == chunk && V() == IDLE
    {
      this.chunk := chunk;
      staged, offset, retransmitted, verifying, ready := [], 0, false, false, false;
    }

    ghost function V(): View
      reads this
    {
      View(staged, offset, retransmitted, verifying, ready)
    }

    method Abandon()
      modifies this
      ensures V() == IDLE
    {
      staged, offset, retransmitted, verifying, ready := [], 0, false, false, false;
    }

    /** One step, for any payload that does not make it panic. */
    method PollStage(payload: seq<u8>, fault: Option<Fault>) returns (r: Result)
      requires chunk > 0 && !Panics(chunk, V(), payload)
      modifies this
      ensures (V(), r) == Poll(chunk, old(V()), payload, fault)
    {
      if payload == [] {
        return EmptyPayload;
      }
      if ready {
        Abandon();
      }
      var total := |payload|;
      if |staged| != total {
        staged := Zeros(total);
      }
      if verifying {
        verifying, ready := false, true;
        return Ok(Ready);
      }
      var request := offset;
      if offset == 2 * chunk && !retransmitted {
        retransmitted := true;
        request := offset - chunk;
      }
      var len := Min(chunk, total - request);
      if fault.Some? {
        return PayloadFault(fault.value);
      }
      staged := Landed(staged, payload, request, len);
      if request == offset {
        offset := offset + len;
      }
      if offset == total {
        verifying := true;
      }
      r := Ok(Transferring(offset, total));
    }

    /** Poll until ready or an error. Always ends; success has exactly the payload staged, the only
        errors are an empty payload and a payload read that failed, and the device is left such that
        it can be called again with the same payload. */
    method StageAll(payload: seq<u8>, fault: nat -> Option<Fault>) returns (r: Result)
      requires chunk > 0 && (Inv(chunk, V(), payload) || Restartable(V()))
      modifies this
      ensures r == Ok(Ready) || !r.Ok?
      ensures r == Ok(Ready) ==> ready && staged == payload
      ensures r == EmptyPayload <==> payload == []
      ensures r.PayloadFault? ==> exists n: nat :: fault(n) == Some(r.fault)
      ensures payload != [] && (forall n: nat :: fault(n).None?) ==> r == Ok(Ready)
      ensures Inv(chunk, V(), payload) || Restartable(V())
    {
      if payload == [] {
        return EmptyPayload;
      }
      var polls := 0;
      while true
        invariant Inv(chunk, V(), payload) || Restartable(V())
        decreases ready, |payload| - offset, if retransmitted then 0 else 1
      {
        PollIsGood(chunk, V(), payload, fault(polls));
        r := PollStage(payload, fault(polls));
        if !r.Ok? || r.progress == Ready {
          assert r.PayloadFault? ==> fault(polls) == Some(r.fault);
          return;
        }
        polls := polls + 1;
      }
    }
  }

  // ---- polling with one payload ----

  /** Everything received so far is the payload's, in whole chunks; the verify is due exactly when
      the whole payload is in. */
  ghost predicate Inv(chunk: nat, v: View, payload: seq<u8>)
    requires chunk > 0
  {
    !v.ready && payload != [] ==>
      && v.offset <= |payload|
      && (v.offset > 0 ==> |v.staged| == |payload| && v.staged[..v.offset] == payload[..v.offset])
      && (v.verifying <==> v.offset == |payload|)
      && (v.offset < |payload| ==> v.offset % chunk == 0)
  }

  /** A new payload may be handed over: ready, or nothing received. */
  predicate Restartable(v: View) {
    v.ready || (v.offset == 0 && !v.verifying)
  }

  /** One poll with the payload being staged: it does not panic, keeps the received prefix true
      through the retransmit, gets closer or uses the retransmit up, and reports ready only with the
      whole payload staged. */
  lemma {:induction false} PollIsGood(chunk: nat, v: View, payload: seq<u8>, fault: Option<Fault>)
    requires chunk > 0 && payload != [] && (Inv(chunk, v, payload) || Restartable(v))
    ensures !Panics(chunk, v, payload)
    ensures var e, (after, r) := Entry(v, payload), Poll(chunk, v, payload, fault);
            && Inv(chunk, after, payload)
            && (r == Ok(Ready) ==> after.ready && after.staged == payload)
            && (r.Ok? && r.progress.Transferring? ==>
                 && r == Ok(Transferring(after.offset, |payload|)) && !after.ready && after.offset <= |payload|
                 && (after.offset > e.offset || (after.offset == e.offset && !e.retransmitted && after.retransmitted)))
            && (r.PayloadFault? ==> fault == Some(r.fault) && !after.ready && after.offset == e.offset)
            && r != EmptyPayload
  {
    var e := Entry(v, payload);
    assert payload[..|payload|] == payload && e.staged[..|e.staged|] == e.staged;
    if e.verifying {
      assert e.staged == payload;
    } else {
      var request := Request(chunk, e);
      ChunkLands(e.staged, payload, request, Min(chunk, |payload| - request), e.offset);
      NextChunk(e.offset, chunk);
    }
  }

  /** A failed read is reported exactly by the polls that request a chunk, and leaves what was received. */
  lemma {:induction false} FaultIsReported(chunk: nat, v: View, payload: seq<u8>, fault: Option<Fault>)
    requires payload != [] && !Panics(chunk, v, payload)
    ensures var e, (after, r) := Entry(v, payload), Poll(chunk, v, payload, fault);
            && (r.PayloadFault? <==> fault.Some? && !e.verifying)
            && (r.PayloadFault? ==> Some(r.fault) == fault && after.staged == e.staged && after.offset == e.offset)
  {}

  lemma {:induction false} NextChunk(offset: nat, chunk: nat)
    requires chunk > 0
    ensures offset % chunk == 0 ==> (offset + chunk) % chunk == 0
  {
    if offset % chunk == 0 {
      var q := offset / chunk;
      Bits.MulSucc(chunk, q);
      Bits.DivModUnique(offset + chunk, chunk, q + 1, 0);
    }
  }

  /** A chunk stored at the end extends the verified prefix; one stored before it changes nothing there. */
  lemma {:induction false} ChunkLands(staged: seq<u8>, payload: seq<u8>, request: nat, len: nat, offset: nat)
    requires |staged| == |payload| && request + len <= |payload| && offset <= |payload|
    requires request == offset || request + len <= offset
    requires staged[..offset] == payload[..offset]
    ensures var after := Landed(staged, payload, request, len);
            && after[..offset] == payload[..offset]
            && (request == offset ==> after[..offset + len] == payload[..offset + len])
  {
    var after := Landed(staged, payload, request, len);
    forall i | 0 <= i < offset ensures after[i] == payload[i] {
      assert staged[i] == staged[..offset][i] == payload[i];
    }
  }

  /** `written` reaches `total` while a transfer is still reported exactly on the step that requests
      the last chunk. */
  lemma {:induction false} WrittenIsTotalIff(chunk: nat, v: View, payload: seq<u8>)
    requires chunk > 0 && payload != [] && (Inv(chunk, v, payload) || Restartable(v))
    ensures var e := Entry(v, payload);
            !Panics(chunk, v, payload) &&
            (Poll(chunk, v, payload, None).1 == Ok(Transferring(|payload|, |payload|))
             <==> !e.verifying && !Retransmits(chunk, e) && e.offset + chunk >= |payload|)
  {
    PollIsGood(chunk, v, payload, None);
  }

  // ---- the schedule of an undisturbed transfer ----

  /** `k` polls with one payload, none of whose reads fails. */
  function Undisturbed(payload: seq<u8>, k: nat): seq<Event> {
    seq(k, _ => PollWith(payload, None))
  }

  /** The bytes received after `k` polls, if there are as many: a chunk each, except that the third poll
      of a payload of more than two chunks requests the second one again. */
  function Due(chunk: nat, total: nat, k: nat): nat {
    if k == 0 then 0
    else if k == 3 && total > 2 * chunk then Due(chunk, total, k - 1)
    else Due(chunk, total, k - 1) + chunk
  }

  lemma {:induction false} DueIs(chunk: nat, total: nat, k: nat)
    ensures Due(chunk, total, k) == (if k >= 3 && total > 2 * chunk then k - 1 else k) * chunk
  {
    if k > 0 {
      DueIs(chunk, total, k - 1);
      Bits.MulSucc(chunk, k - 1);
      Bits.MulSucc(chunk, k - 2);
    }
  }

  /** A poll that requests the next chunk, and one that requests the previous one again. */
  lemma {:induction false} ChunkPoll(chunk: nat, v: View, payload: seq<u8>)
    requires chunk > 0 && payload != [] && Inv(chunk, v, payload) && !v.ready && v.offset < |payload|
    ensures !Panics(chunk, v, payload)
    ensures var (after, r) := Poll(chunk, v, payload, None);
            && Inv(chunk, after, payload) && !after.ready && r == Ok(Transferring(after.offset, |payload|))
            && after.offset == (if Retransmits(chunk, v) then v.offset else Min(v.offset + chunk, |payload|))
            && after.retransmitted == (v.retransmitted || Retransmits(chunk, v))
  {
    PollIsGood(chunk, v, payload, None);
  }

  function After(chunk: nat, payload: seq<u8>, k: nat): Trace {
    if k == 0 then Trace(IDLE, None, false)
    else Apply(chunk, After(chunk, payload, k - 1), PollWith(payload, None))
  }

  lemma {:induction false} RunUndisturbed(chunk: nat, payload: seq<u8>, k: nat)
    ensures Run(chunk, Undisturbed(payload, k)) == After(chunk, payload, k)
  {
    if k > 0 {
      RunUndisturbed(chunk, payload, k - 1);
      assert Undisturbed(payload, k)[..k - 1] == Undisturbed(payload, k - 1);
    }
  }

  ghost predicate OnSchedule(chunk: nat, payload: seq<u8>, k: nat, t: Trace)
    requires chunk > 0
  {
    var n := Due(chunk, |payload|, k);
    && !t.halted && !t.dev.ready && Inv(chunk, t.dev, payload) && t.dev.offset == Min(n, |payload|)
    && (t.dev.retransmitted <==> k >= 3 && |payload| > 2 * chunk)
    && (k > 0 ==> t.last == Some(Ok(Transferring(Min(n, |payload|), |payload|))))
  }

  lemma {:induction false} StaysOnSchedule(chunk: nat, payload: seq<u8>, k: nat)
    requires chunk > 0 && payload != [] && Due(chunk, |payload|, k) < |payload| + chunk
    ensures OnSchedule(chunk, payload, k, After(chunk, payload, k))
  {
    if k > 0 {
      DueStep(chunk, |payload|, k - 1);
      StaysOnSchedule(chunk, payload, k - 1);
      ScheduleStep(chunk, payload, k - 1, After(chunk, payload, k - 1));
    }
  }

  /** The whole schedule: until everything is received, poll `k` reports exactly the bytes due by then;
      the poll after that reports ready, with the payload staged. */
  lemma {:induction false} TransferSchedule(chunk: nat, payload: seq<u8>, k: nat)
    requires chunk > 0 && payload != [] && Due(chunk, |payload|, k) < |payload| + chunk
    ensures OnSchedule(chunk, payload, k, Run(chunk, Undisturbed(payload, k)))
    ensures Due(chunk, |payload|, k) >= |payload| ==>
              var done := Run(chunk, Undisturbed(payload, k + 1));
              done.last == Some(Ok(Ready)) && done.dev.staged == payload
  {
    RunUndisturbed(chunk, payload, k);
    RunUndisturbed(chunk, payload, k + 1);
    StaysOnSchedule(chunk, payload, k);
    if Due(chunk, |payload|, k) >= |payload| {
      VerifyPoll(chunk, payload, k, After(chunk, payload, k));
    }
  }

  lemma {:induction false} ScheduleStep(chunk: nat, payload: seq<u8>, k: nat, t: Trace)
    requires chunk > 0 && payload != [] && OnSchedule(chunk, payload, k, t)
    requires Due(chunk, |payload|, k + 1) < |payload| + chunk
    ensures OnSchedule(chunk, payload, k + 1, Apply(chunk, t, PollWith(payload, None)))
  {
    DueStep(chunk, |payload|, k);
    ChunkPoll(chunk, t.dev, payload);
    assert Retransmits(chunk, t.dev) <==> k == 2;
    if k == 2 {
      assert Due(chunk, |payload|, 3) == Due(chunk, |payload|, 2);
    } else {
      assert Due(chunk, |payload|, k + 1) == Due(chunk, |payload|, k) + chunk;
    }
  }

  lemma {:induction false} VerifyPoll(chunk: nat, payload: seq<u8>, k: nat, t: Trace)
    requires chunk > 0 && payload != [] && OnSchedule(chunk, payload, k, t) && Due(chunk, |payload|, k) >= |payload|
    ensures var done := Apply(chunk, t, PollWith(payload, None));
            done.last == Some(Ok(Ready)) && done.dev.staged == payload
  {
    PollIsGood(chunk, t.dev, payload, None);
  }

  lemma {:induction false} DueStep(chunk: nat, total: nat, k: nat)
    requires chunk > 0 && total > 0 && Due(chunk, total, k + 1) < total + chunk
    ensures Due(chunk, total, k) < total
    ensures Due(chunk, total, k) == 2 * chunk && !(k >= 3 && total > 2 * chunk) <==> k == 2
    ensures k == 2 ==> (Due(chunk, total, 3) == 2 * chunk <==> total > 2 * chunk)
  {
    DueIs(chunk, total, k);
    DueIs(chunk, total, 3);
    assert Due(chunk, total, 2) == 2 * chunk;
    if k > 3 { DueGrows(chunk, total, k); }
  }

  lemma {:induction false} DueGrows(chunk: nat, total: nat, k: nat)
    requires k >= 3
    ensures Due(chunk, total, k) >= 2 * chunk
    ensures k > 3 ==> Due(chunk, total, k) >= 3 * chunk
  {
    assert Due(chunk, total, 1) == chunk && Due(chunk, total, 2) == 2 * chunk;
    if k > 3 { DueGrows(chunk, total, k - 1); }
  }

  /** A ready device starts over: the next poll is that of an idle one, so the schedule is the same. */
  lemma {:induction false} ReadyStartsOver(chunk: nat, v: View, payload: seq<u8>, fault: Option<Fault>)
    requires v.ready && payload != []
    ensures Poll(chunk, v, payload, fault) == Poll(chunk, IDLE, payload, fault)
  {}

  /** In particular the first step of every payload that fits one chunk reports it. */
  lemma {:induction false} WholePayloadInOneChunk(chunk: nat, payload: seq<u8>)
    requires 0 < |payload| <= chunk
    ensures Poll(chunk, IDLE, payload, None).1 == Ok(Transferring(|payload|, |payload|))
  {}

  // ---- another payload after a failed read ----

  /** Polling with `q` from `v` without an error ends ready, as `final`. */
  ghost predicate ReadyAfter(chunk: nat, v: View, q: seq<u8>, polls: nat, final: View)
    decreases polls
  {
    && polls > 0 && !Panics(chunk, v, q)
    && var (after, r) := Poll(chunk, v, q, None);
       if polls == 1 then r == Ok(Ready) && after == final
       else r.Ok? && r.progress.Transferring? && ReadyAfter(chunk, after, q, polls - 1, final)
  }

  /** `v` stages `mix`, and what it will still request of `mix` is what `q` has there. */
  ghost predicate Follows(chunk: nat, v: View, q: seq<u8>, mix: seq<u8>, k: nat)
    requires chunk > 0
  {
    && !v.ready && q != [] && |q| == |mix| == |v.staged| && Inv(chunk, v, mix)
    && k <= v.offset && q[k..] == mix[k..] && (v.retransmitted || k <= chunk || v.offset > 2 * chunk)
  }

  lemma {:induction false} SliceAgrees(q: seq<u8>, mix: seq<u8>, k: nat, lo: nat, hi: nat)
    requires |q| == |mix| && k <= lo <= hi <= |q| && q[k..] == mix[k..]
    ensures q[lo..hi] == mix[lo..hi]
  {
    forall i | lo <= i < hi ensures q[i] == mix[i] {
      assert q[k..][i - k] == mix[k..][i - k];
    }
  }

  lemma {:induction false} PollFollows(chunk: nat, v: View, q: seq<u8>, mix: seq<u8>, k: nat)
    requires chunk > 0 && Follows(chunk, v, q, mix, k)
    ensures !Panics(chunk, v, q) && !Panics(chunk, v, mix)
    ensures Poll(chunk, v, q, None) == Poll(chunk, v, mix, None)
    ensures var (after, r) := Poll(chunk, v, q, None);
            && (r.Ok? && r.progress.Transferring? ==> Follows(chunk, after, q, mix, k))
            && (r == Ok(Ready) ==> after.staged == mix)
  {
    PollIsGood(chunk, v, mix, None);
    if !v.verifying {
      var request := Request(chunk, v);
      SliceAgrees(q, mix, k, request, request + Min(chunk, |q| - request));
    }
  }

  lemma {:induction false} ReadyHoldsMix(chunk: nat, v: View, q: seq<u8>, mix: seq<u8>, k: nat, polls: nat, final: View)
    requires chunk > 0 && Follows(chunk, v, q, mix, k) && ReadyAfter(chunk, v, q, polls, final)
    ensures final.staged == mix
    decreases polls
  {
    PollFollows(chunk, v, q, mix, k);
    if polls > 1 {
      ReadyHoldsMix(chunk, Poll(chunk, v, q, None).0, q, mix, k, polls - 1, final);
    }
  }

  /** The bytes the device keeps of `p` when `q` is handed over: a payload of the same length keeps
      what was received, except a chunk it requests again; any other finds zeros there. */
  function Kept(chunk: nat, v: View, p: seq<u8>, q: seq<u8>): seq<u8>
    requires v.offset <= |p|
  {
    var k := Request(chunk, v);
    if |q| == |p| then p[..k] else Zeros(k)
  }

  /** Exactly what handing over another payload mid-transfer does. A device that then reports ready
      holds the kept bytes and the rest of the new payload, so it holds the new payload if and only
      if that begins with the kept bytes. */
  lemma {:induction false} SwitchedPayloadReadyIff(chunk: nat, v: View, p: seq<u8>, q: seq<u8>, polls: nat, final: View)
    requires chunk > 0 && p != [] && Inv(chunk, v, p) && !v.ready && !v.verifying
    requires q != [] && v.offset <= |q| && ReadyAfter(chunk, v, q, polls, final)
    ensures var kept := Kept(chunk, v, p, q);
            final.staged == kept + q[|kept|..] && (final.staged == q <==> q[..|kept|] == kept)
  {
    var kept := Kept(chunk, v, p, q);
    var k := |kept|;
    var mix := kept + q[k..];
    assert mix[..k] == kept && mix[k..] == q[k..] && q == q[..k] + q[k..];
    FirstSwitchedPoll(chunk, v, p, q, mix);
    var (after, r) := Poll(chunk, v, q, None);
    assert polls != 1;
    ReadyHoldsMix(chunk, after, q, mix, k, polls - 1, final);
  }

  /** The first poll with the new payload sets the mix up. */
  lemma {:induction false} FirstSwitchedPoll(chunk: nat, v: View, p: seq<u8>, q: seq<u8>, mix: seq<u8>)
    requires chunk > 0 && p != [] && Inv(chunk, v, p) && !v.ready && !v.verifying && q != [] && v.offset <= |q|
    requires var kept := Kept(chunk, v, p, q); mix == kept + q[|kept|..]
    ensures !Panics(chunk, v, q)
    ensures var (after, r) := Poll(chunk, v, q, None);
            r.Ok? && r.progress.Transferring? && Follows(chunk, after, q, mix, Request(chunk, v))
  {
    var e, k := Entry(v, q), Request(chunk, v);
    var len := Min(chunk, |q| - k);
    EntryKeeps(chunk, v, p, q);
    LandsOnMix(e.staged, q, mix, k, len);
    PollStores(chunk, v, q);
    RequestIsWhole(chunk, v);
    NewlyFollows(chunk, Poll(chunk, v, q, None).0, q, mix, k, len);
  }

  /** The step of a poll that stores a chunk. */
  lemma {:induction false} PollStores(chunk: nat, v: View, q: seq<u8>)
    requires chunk > 0 && q != [] && !v.ready && !v.verifying && v.offset <= |q|
    ensures !Panics(chunk, v, q)
    ensures var e, k := Entry(v, q), Request(chunk, v);
            var len := Min(chunk, |q| - k);
            Poll(chunk, v, q, None)
            == (View(Landed(e.staged, q, k, len), k + len, v.retransmitted || Retransmits(chunk, v),
                     k + len == |q|, false),
                Ok(Transferring(k + len, |q|)))
  {}

  lemma {:induction false} RequestIsWhole(chunk: nat, v: View)
    requires chunk > 0 && v.offset % chunk == 0
    ensures var k := Request(chunk, v);
            k % chunk == 0 && (v.retransmitted || Retransmits(chunk, v) || k <= chunk || k > 2 * chunk)
  {
    WholeChunks(v.offset, chunk);
    Bits.DivModUnique(chunk, chunk, 1, 0);
  }

  lemma {:induction false} NewlyFollows(chunk: nat, after: View, q: seq<u8>, mix: seq<u8>, k: nat, len: nat)
    requires chunk > 0 && k <= |q| && q != [] && len == Min(chunk, |q| - k) && k % chunk == 0
    requires |q| == |mix| == |after.staged| && q[k..] == mix[k..] && after.staged[..k + len] == mix[..k + len]
    requires after.offset == k + len && (after.verifying <==> k + len == |q|) && !after.ready
    requires after.retransmitted || k <= chunk || k > 2 * chunk
    ensures Follows(chunk, after, q, mix, k)
  {
    NextChunk(k, chunk);
  }

  lemma {:induction false} EntryKeeps(chunk: nat, v: View, p: seq<u8>, q: seq<u8>)
    requires chunk > 0 && p != [] && Inv(chunk, v, p) && !v.ready && v.offset <= |q|
    ensures var e, k := Entry(v, q), Request(chunk, v);
            |e.staged| == |q| && k <= |q| && e.staged[..k] == Kept(chunk, v, p, q)
  {
    var k := Request(chunk, v);
    if |q| == |p| && k > 0 {
      assert v.staged[..k] == v.staged[..v.offset][..k] == p[..k];
    }
  }

  lemma {:induction false} LandsOnMix(staged: seq<u8>, q: seq<u8>, mix: seq<u8>, k: nat, len: nat)
    requires |staged| == |q| && k + len <= |q| && mix == staged[..k] + q[k..]
    ensures Landed(staged, q, k, len)[..k + len] == mix[..k + len]
    ensures |mix| == |q| && mix[k..] == q[k..]
  {}

  lemma {:induction false} WholeChunks(offset: nat, chunk: nat)
    requires chunk > 0 && offset % chunk == 0
    ensures offset <= chunk || offset >= 2 * chunk
  {
    if chunk < offset < 2 * chunk {
      Bits.DivModUnique(offset, chunk, 1, offset - chunk);
    }
  }

  /** Polling with `q`, with one payload read after another failing or not as `faults` says, panics
      before or right after `faults` runs out. */
  ghost predicate PanicsLater(chunk: nat, v: View, q: seq<u8>, faults: seq<Option<Fault>>)
    decreases |faults|
  {
    || Panics(chunk, v, q)
    || (faults != [] && PanicsLater(chunk, Poll(chunk, v, q, faults[0]).0, q, faults[1..]))
  }

  ghost predicate EverPanics(chunk: nat, v: View, q: seq<u8>) {
    exists faults: seq<Option<Fault>> :: PanicsLater(chunk, v, q, faults)
  }

  /** The payload is shorter than what was received, and the device still wants more of it. */
  predicate TooShort(v: View, q: seq<u8>) {
    q != [] && !v.ready && !v.verifying && |q| < v.offset
  }

  lemma {:induction false} LongEnoughNeverPanics(chunk: nat, v: View, q: seq<u8>, faults: seq<Option<Fault>>)
    requires chunk > 0 && !TooShort(v, q)
    ensures !PanicsLater(chunk, v, q, faults)
    decreases |faults|
  {
    if faults != [] {
      LongEnoughNeverPanics(chunk, Poll(chunk, v, q, faults[0]).0, q, faults[1..]);
    }
  }

  /** Exactly when polling with a payload ever panics: when it is shorter than what was received. Then
      it panics within two polls, whichever reads fail; otherwise it never does. */
  lemma {:induction false} ShorterPayloadPanics(chunk: nat, v: View, q: seq<u8>)
    requires chunk > 0
    ensures EverPanics(chunk, v, q) <==> TooShort(v, q)
    ensures TooShort(v, q) ==> forall faults: seq<Option<Fault>> :: |faults| >= 1 ==> PanicsLater(chunk, v, q, faults)
  {
    if TooShort(v, q) {
      forall faults: seq<Option<Fault>> | |faults| >= 1 ensures PanicsLater(chunk, v, q, faults) {
        if !Panics(chunk, v, q) {
          assert Panics(chunk, Poll(chunk, v, q, faults[0]).0, q);
          assert PanicsLater(chunk, Poll(chunk, v, q, faults[0]).0, q, faults[1..]);
        }
      }
      var once: seq<Option<Fault>> := [None];
      assert PanicsLater(chunk, v, q, once);
    } else {
      forall faults: seq<Option<Fault>> ensures !PanicsLater(chunk, v, q, faults) {
        LongEnoughNeverPanics(chunk, v, q, faults);
      }
    }
  }

  /** Two bytes of [1, 2, 3] received; the next read fails. A payload of one byte then panics at once. */
  lemma {:induction false} FaultThenShorterPanics()
    ensures var v := Poll(1, Poll(1, Poll(1, IDLE, [1, 2, 3], None).0, [1, 2, 3], None).0, [1, 2, 3], Some(Storage)).0;
            v.offset == 2 && !v.verifying && !v.ready && Panics(1, v, [9])
  {}

  /** One byte of [1, 2] received; the read of the next fails. A payload of another length then finds
      a zero in its place, one of the same length finds the old byte, and both are reported ready. */
  lemma {:induction false} FaultThenNewPayload()
    ensures var v := Poll(1, Poll(1, IDLE, [1, 2], None).0, [1, 2], Some(Storage)).0;
            v == View([1, 0], 1, false, false, false)
    ensures var v := View([1, 0], 1, false, false, false);
            && ReadyAfter(1, v, [8, 9], 2, View([1, 9], 2, false, false, true))
            && ReadyAfter(1, v, [7, 8, 9], 4, View([0, 8, 9], 3, true, false, true))
  {
    assert Zeros(2) == [0, 0] && Zeros(3) == [0, 0, 0];
    assert Landed([0, 0], [1, 2], 0, 1) == [1, 0];
    assert Landed([1, 0], [8, 9], 1, 1) == [1, 9];
    var v := View([1, 0], 1, false, false, false);
    assert ReadyAfter(1, View([1, 9], 2, false, true, false), [8, 9], 1, View([1, 9], 2, false, false, true));
    assert Landed([0, 0, 0], [7, 8, 9], 1, 1) == [0, 8, 0];
    assert Landed([0, 8, 0], [7, 8, 9], 2, 1) == [0, 8, 9];
    assert Landed([0, 8, 0], [7, 8, 9], 1, 1) == [0, 8, 0];
    var w := View([0, 8, 0], 2, false, false, false);
    assert Poll(1, v, [7, 8, 9], None).0 == w;
    assert Poll(1, w, [7, 8, 9], None).0 == w.(retransmitted := true);
    var last := View([0, 8, 9], 3, true, true, false);
    assert Poll(1, w.(retransmitted := true), [7, 8, 9], None).0 == last;
    assert ReadyAfter(1, last, [7, 8, 9], 1, View([0, 8, 9], 3, true, false, true));
    assert ReadyAfter(1, w.(retransmitted := true), [7, 8, 9], 2, View([0, 8, 9], 3, true, false, true));
    assert ReadyAfter(1, w, [7, 8, 9], 3, View([0, 8, 9], 3, true, false, true));
  }

  // ---- every run of polls and abandons ----

  datatype Event = PollWith(payload: seq<u8>, fault: Option<Fault>) | Abandon

  /** A run so far; `halted` once a poll has panicked. */
  datatype Trace = Trace(dev: View, last: Option<Result>, halted: bool)

  function Apply(chunk: nat, t: Trace, e: Event): Trace {
    if t.halted then t
    else
      match e
      case Abandon => Trace(IDLE, None, false)
      case PollWith(q, fault) =>
        if Panics(chunk, t.dev, q) then Trace(t.dev, None, true)
        else
          var (after, r) := Poll(chunk, t.dev, q, fault);
          Trace(after, Some(r), false)
  }

  function Run(chunk: nat, es: seq<Event>): Trace {
    if es == [] then Trace(IDLE, None, false) else Apply(chunk, Run(chunk, es[..|es| - 1]), es[|es| - 1])
  }

  /** The payload of the latest poll. */
  function Current(es: seq<Event>): seq<u8> {
    if es == [] then []
    else if es[|es| - 1].PollWith? then es[|es| - 1].payload
    else Current(es[..|es| - 1])
  }

  predicate Transfers(r: Option<Result>) {
    r.Some? && r.value.Ok? && r.value.progress.Transferring?
  }

  /** What the seam asks of a caller: keep polling with the same payload while a transfer is reported. */
  predicate MayPoll(t: Trace, current: seq<u8>, q: seq<u8>) {
    q == current || !Transfers(t.last) || Restartable(t.dev)
  }

  ghost predicate Lawful(chunk: nat, es: seq<Event>) {
    es == [] ||
    var init, e := es[..|es| - 1], es[|es| - 1];
    var t := Run(chunk, init);
    && Lawful(chunk, init)
    && (e.PollWith? ==> MayPoll(t, Current(init), e.payload) && !TooShort(t.dev, e.payload))
  }

  /** What the device is really staging after a poll with `q`: received bytes stay, except a chunk that
      is read again; in a payload of another length they are zeros. */
  function Mixed(chunk: nat, v: View, p: seq<u8>, q: seq<u8>, fault: Option<Fault>): seq<u8> {
    var k := if v.ready then 0
             else if fault.None? && !v.verifying then Request(chunk, v)
             else v.offset;
    if k <= |q| then (if |q| == |p| then p[..k] else Zeros(k)) + q[k..] else q
  }

  function Effective(chunk: nat, es: seq<Event>): seq<u8> {
    if es == [] then []
    else
      var init, e := es[..|es| - 1], es[|es| - 1];
      var p := Effective(chunk, init);
      if e.PollWith? && e.payload != [] then Mixed(chunk, Run(chunk, init).dev, p, e.payload, e.fault) else p
  }

  /** The device has received a prefix of `p`, and all of it when its verify is due. */
  ghost predicate Receives(v: View, p: seq<u8>) {
    !v.ready ==>
      && v.offset <= |p|
      && (v.offset > 0 ==> |v.staged| == |p| && v.staged[..v.offset] == p[..v.offset])
      && (v.verifying ==> v.offset == |p| > 0)
  }

  /** What holds between the events of a lawful run. */
  ghost predicate Safe(chunk: nat, es: seq<Event>) {
    var t, p := Run(chunk, es), Effective(chunk, es);
    && !t.halted && Receives(t.dev, p)
    && (t.dev.verifying ==> Transfers(t.last) && |p| == |Current(es)|)
    && (t.last == Some(Ok(Ready)) ==> |p| == |Current(es)| && t.dev.staged == p)
  }

  lemma {:induction false} MixedPoll(chunk: nat, v: View, p: seq<u8>, q: seq<u8>, fault: Option<Fault>)
    requires chunk > 0 && q != [] && Receives(v, p) && !TooShort(v, q) && (v.verifying && !v.ready ==> |q| == |p|)
    ensures !Panics(chunk, v, q)
    ensures var mix, (after, r) := Mixed(chunk, v, p, q, fault), Poll(chunk, v, q, fault);
            && |mix| == |q| && Receives(after, mix)
            && (after.verifying ==> r.Ok? && r.progress.Transferring?)
            && (r == Ok(Ready) ==> after.staged == mix)
  {
    var e, mix := Entry(v, q), Mixed(chunk, v, p, q, fault);
    KeptInEntry(v, p, q);
    if e.verifying {
      assert e.staged[..|q|] == e.staged && p[..|p|] == p;
      assert mix == p;
    } else if fault.None? {
      MixedStore(chunk, e, q, mix);
      EntryPollsAlike(chunk, v, q);
    } else {
      assert mix[..e.offset] == e.staged[..e.offset];
    }
  }

  lemma {:induction false} EntryPollsAlike(chunk: nat, v: View, q: seq<u8>)
    requires q != [] && !Panics(chunk, v, q)
    ensures !Panics(chunk, Entry(v, q), q) && Poll(chunk, Entry(v, q), q, None) == Poll(chunk, v, q, None)
  {}

  lemma {:induction false} MixedStore(chunk: nat, e: View, q: seq<u8>, mix: seq<u8>)
    requires chunk > 0 && q != [] && !e.ready && !e.verifying && e.offset <= |q| == |e.staged|
    requires var k := Request(chunk, e); mix == e.staged[..k] + q[k..]
    ensures !Panics(chunk, e, q)
    ensures var (after, r) := Poll(chunk, e, q, None);
            Receives(after, mix) && r.Ok? && r.progress.Transferring?
  {
    var k := Request(chunk, e);
    PollStores(chunk, e, q);
    LandsOnMix(e.staged, q, mix, k, Min(chunk, |q| - k));
  }

  /** The received bytes as the poll finds them. */
  lemma {:induction false} KeptInEntry(v: View, p: seq<u8>, q: seq<u8>)
    requires Receives(v, p) && !TooShort(v, q) && (v.verifying && !v.ready ==> |q| == |p|) && q != []
    ensures var e := Entry(v, q);
            && |e.staged| == |q| && e.offset <= |q|
            && e.staged[..e.offset] == if |q| == |p| then p[..e.offset] else Zeros(e.offset)
  {}

  /** Safety over every lawful run, whichever reads fail: no poll panics, and when `Ready` is reported
      the device holds exactly what was effectively handed over. */
  lemma {:induction false} StagingIsSafe(chunk: nat, es: seq<Event>)
    requires chunk > 0 && Lawful(chunk, es)
    ensures Safe(chunk, es)
  {
    if es != [] {
      var init, e := es[..|es| - 1], es[|es| - 1];
      StagingIsSafe(chunk, init);
      if e.PollWith? && e.payload != [] {
        MixedPoll(chunk, Run(chunk, init).dev, Effective(chunk, init), e.payload, e.fault);
      }
    }
  }

  /** A new payload is handed over only to a device that is ready or has nothing received. */
  ghost predicate Disciplined(chunk: nat, es: seq<Event>) {
    es == [] ||
    var init, e := es[..|es| - 1], es[|es| - 1];
    && Disciplined(chunk, init)
    && (e.PollWith? ==> e.payload == Current(init) || Restartable(Run(chunk, init).dev))
  }

  /** Under that discipline the run is lawful and `Ready` means the payload polled with is staged. */
  lemma {:induction false} DisciplinedIsTrue(chunk: nat, es: seq<Event>)
    requires chunk > 0 && Disciplined(chunk, es)
    ensures Lawful(chunk, es) && Safe(chunk, es)
    ensures Effective(chunk, es) == Current(es) || Restartable(Run(chunk, es).dev)
    ensures Run(chunk, es).last == Some(Ok(Ready)) ==> Run(chunk, es).dev.staged == Current(es)
  {
    if es != [] {
      var init, e := es[..|es| - 1], es[|es| - 1];
      DisciplinedIsTrue(chunk, init);
      var t, p := Run(chunk, init), Effective(chunk, init);
      if e.PollWith? && e.payload != [] {
        DisciplinedMix(chunk, t.dev, p, e.payload, e.fault);
      }
    }
    StagingIsSafe(chunk, es);
  }

  lemma {:induction false} DisciplinedMix(chunk: nat, v: View, p: seq<u8>, q: seq<u8>, fault: Option<Fault>)
    requires chunk > 0 && Receives(v, p) && (Restartable(v) || p == q)
    ensures !TooShort(v, q) && Mixed(chunk, v, p, q, fault) == q
  {
    if !v.ready && v.offset <= |q| {
      assert forall k: nat :: k <= |q| ==> q == q[..k] + q[k..];
    }
  }
}
