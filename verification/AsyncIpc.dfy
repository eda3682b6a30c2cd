/** Async IPC transactions: wrappers that lend buffer pairs to a kernel channel with a single
    transaction slot, and get them back. */
module AsyncIpc {
  import opened Bytes

  /** A pair of static buffers, by identity. */
  type Buffers = nat

  datatype Error = Unavailable | FailedPrecondition | OtherError
  datatype StartResult = Started | StartError(error: Error, back: Buffers)
  datatype RecvResult = Completion(len: nat, back: Buffers) | RecvError(error: Error)
  datatype CancelResult = Cancelled(back: Buffers) | NothingPending

  /** What the kernel says of a pending transaction when asked to complete it. */
  datatype Answer = Replied(len: nat) | NotDone(error: Error)

  /** The kernel's side of a channel: the buffers of the pending transaction. */
  class Channel {
    var slot: Option<Buffers>

    constructor ()
      ensures slot == None
    {
      slot := None;
    }

    /** Refused when a transaction is pending; may fail for its own reasons too. */
    method Start(b: Buffers, trouble: Option<Error>) returns (e: Option<Error>)
      modifies this
      ensures e == KernelStart(old(slot), trouble)
      ensures slot == if e.None? then Some(b) else old(slot)
    {
      if slot.Some? {
        return Some(Unavailable);
      }
      if trouble.None? {
        slot := Some(b);
      }
      e := trouble;
    }

    /** Yields the response length once the server has answered, and an error before that. */
    method Complete(answer: Answer) returns (a: Answer)
      modifies this
      ensures a == if old(slot).Some? then answer else NotDone(Unavailable)
      ensures slot == if a.Replied? then None else old(slot)
    {
      a := if slot.Some? then answer else NotDone(Unavailable);
      if a.Replied? {
        slot := None;
      }
    }

    /** Clears the slot on every path. */
    method Cancel()
      modifies this
      ensures slot == None
    {
      slot := None;
    }
  }

  function KernelStart(slot: Option<Buffers>, trouble: Option<Error>): Option<Error> {
    if slot.Some? then Some(Unavailable) else trouble
  }

  class AsyncTransaction {
    const channel: Channel
    var inflight: Option<Buffers>

    constructor (channel: Channel)
      ensures this.channel == channel && inflight == None
    {
      this.channel, inflight := channel, None;
    }

    method Start(b: Buffers, trouble: Option<Error>) returns (r: StartResult)
      modifies this, channel
      ensures (inflight, channel.slot, r) == StartStep(old(inflight), old(channel.slot), b, trouble)
    {
      if inflight.Some? {
        return StartError(FailedPrecondition, b);
      }
      var e := channel.Start(b, trouble);
      if e.Some? {
        return StartError(e.value, b);
      }
      inflight := Some(b);
      r := Started;
    }

    method TryRecv(answer: Answer) returns (r: RecvResult)
      modifies this, channel
      ensures (inflight, channel.slot, r) == RecvStep(old(inflight), old(channel.slot), answer)
    {
      if inflight.None? {
        return RecvError(FailedPrecondition);
      }
      var a := channel.Complete(answer);
      if a.NotDone? {
        return RecvError(a.error);
      }
      var b := inflight.value;
      inflight := None;
      r := Completion(a.len, b);
    }

    method Cancel() returns (r: CancelResult)
      modifies this, channel
      ensures (inflight, channel.slot, r) == CancelStep(old(inflight), old(channel.slot))
    {
      if inflight.None? {
        return NothingPending;
      }
      var b := inflight.value;
      inflight := None;
      channel.Cancel();
      r := Cancelled(b);
    }

    method Drop()
      modifies channel
      ensures channel.slot == if inflight.Some? then None else old(channel.slot)
    {
      if inflight.Some? {
        channel.Cancel();
      }
    }
  }

  function StartStep(inflight: Option<Buffers>, slot: Option<Buffers>, b: Buffers, trouble: Option<Error>)
    : (Option<Buffers>, Option<Buffers>, StartResult)
  {
    if inflight.Some? then (inflight, slot, StartError(FailedPrecondition, b))
    else
      var e := KernelStart(slot, trouble);
      if e.Some? then (inflight, slot, StartError(e.value, b)) else (Some(b), Some(b), Started)
  }

  function RecvStep(inflight: Option<Buffers>, slot: Option<Buffers>, answer: Answer)
    : (Option<Buffers>, Option<Buffers>, RecvResult)
  {
    if inflight.None? then (inflight, slot, RecvError(FailedPrecondition))
    else if slot.None? then (inflight, slot, RecvError(Unavailable))
    else if answer.NotDone? then (inflight, slot, RecvError(answer.error))
    else (None, None, Completion(answer.len, inflight.value))
  }

  function CancelStep(inflight: Option<Buffers>, slot: Option<Buffers>)
    : (Option<Buffers>, Option<Buffers>, CancelResult)
  {
    if inflight.None? then (inflight, slot, NothingPending) else (None, None, Cancelled(inflight.value))
  }

  // ---- any number of wrappers on one channel ----

  /** `held[w]` is what wrapper `w` has in flight; `caller` and `lost` are the buffers in the
      program's hands and those that went down with a dropped wrapper. */
  datatype World = World(
    held: map<nat, Option<Buffers>>, slot: Option<Buffers>, caller: set<Buffers>, lost: set<Buffers>)

  datatype Event =
    | New(w: nat)
    | Start(w: nat, b: Buffers, trouble: Option<Error>)
    | TryRecv(w: nat, answer: Answer)
    | Cancel(w: nat)
    | Drop(w: nat)
    | KernelDrops

  /** Ownership rules of the language: a call needs a live wrapper, a start needs the buffers. */
  predicate Enabled(x: World, e: Event) {
    match e
    case New(w) => w !in x.held
    case Start(w, b, _) => w in x.held && b in x.caller
    case TryRecv(w, _) => w in x.held
    case Cancel(w) => w in x.held
    case Drop(w) => w in x.held
    case KernelDrops => true
  }

  function Step(x: World, e: Event): World
    requires Enabled(x, e)
  {
    match e
    case New(w) => x.(held := x.held[w := None])
    case Start(w, b, trouble) =>
      var (inflight, slot, r) := StartStep(x.held[w], x.slot, b, trouble);
      x.(held := x.held[w := inflight], slot := slot, caller := if r.Started? then x.caller - {b} else x.caller)
    case TryRecv(w, answer) =>
      var (inflight, slot, r) := RecvStep(x.held[w], x.slot, answer);
      x.(held := x.held[w := inflight], slot := slot, caller := if r.Completion? then x.caller + {r.back} else x.caller)
    case Cancel(w) =>
      var (inflight, slot, r) := CancelStep(x.held[w], x.slot);
      x.(held := x.held[w := inflight], slot := slot, caller := if r.Cancelled? then x.caller + {r.back} else x.caller)
    case Drop(w) =>
      x.(held := x.held - {w}, slot := if x.held[w].Some? then None else x.slot,
         lost := if x.held[w].Some? then x.lost + {x.held[w].value} else x.lost)
    case KernelDrops => x.(slot := None)
  }

  /** Each buffer is in one place, and the kernel only points at buffers some wrapper holds. */
  ghost predicate Sound(x: World) {
    && x.caller !! x.lost
    && (forall w :: w in x.held && x.held[w].Some? ==> x.held[w].value !in x.caller && x.held[w].value !in x.lost)
    && (forall v, w :: v in x.held && w in x.held && v != w && x.held[v].Some? ==> x.held[v] != x.held[w])
    && (x.slot.Some? ==> exists w :: w in x.held && x.held[w] == x.slot)
  }

  ghost function Run(first: set<Buffers>, es: seq<Event>): World {
    if es == [] then World(map[], None, first, {})
    else
      var x := Run(first, es[..|es| - 1]);
      if Enabled(x, es[|es| - 1]) then Step(x, es[|es| - 1]) else x
  }

  lemma {:induction false} StepIsSound(x: World, e: Event)
    requires Sound(x) && Enabled(x, e)
    ensures Sound(Step(x, e))
  {
    var y := Step(x, e);
    if y.slot.Some? && x.slot == y.slot {
      var w :| w in x.held && x.held[w] == x.slot;
      assert w in y.held && y.held[w] == y.slot;
    } else if y.slot.Some? {
      assert e.w in y.held && y.held[e.w] == y.slot;
    }
  }

  /** Whereabouts of a buffer pair. */
  ghost predicate InFlight(x: World, b: Buffers) {
    exists w :: w in x.held && x.held[w] == Some(b)
  }

  ghost predicate Somewhere(x: World, b: Buffers) {
    b in x.caller || b in x.lost || InFlight(x, b)
  }

  /** Over every run, the kernel's slot points only at buffers held in flight, never at the caller's;
      and every pair the program started with is in exactly one place, so none comes back twice. */
  lemma {:induction false} BuffersAreAccountedFor(first: set<Buffers>, es: seq<Event>)
    ensures var x := Run(first, es);
            && Sound(x)
            && (forall b :: b in first <==> Somewhere(x, b))
            && (forall b :: x.slot == Some(b) ==> InFlight(x, b) && b !in x.caller && b !in x.lost)
  {
    if es != [] {
      var x, e := Run(first, es[..|es| - 1]), es[|es| - 1];
      BuffersAreAccountedFor(first, es[..|es| - 1]);
      if Enabled(x, e) {
        StepIsSound(x, e);
        StepMovesBuffers(x, e);
      }
      var y := Run(first, es);
      if y.slot.Some? {
        assert InFlight(y, y.slot.value);
      }
    }
  }

  lemma {:induction false} StepMovesBuffers(x: World, e: Event)
    requires Sound(x) && Enabled(x, e)
    ensures var y := Step(x, e);
            forall b :: Somewhere(x, b) <==> Somewhere(y, b)
  {
    var y := Step(x, e);
    forall b ensures Somewhere(x, b) <==> Somewhere(y, b) {
      if InFlight(x, b) {
        var w :| w in x.held && x.held[w] == Some(b);
        assert w in y.held && y.held[w] == Some(b) ==> InFlight(y, b);
      }
      if InFlight(y, b) {
        var w :| w in y.held && y.held[w] == Some(b);
        assert w in x.held && x.held[w] == Some(b) ==> InFlight(x, b);
      }
      if e.Start? && b == e.b && y.held[e.w] == Some(b) {
        assert InFlight(y, b);
      }
    }
  }

  /** Unless the kernel drops a transaction by itself, the slot is exactly what is in flight: at most
      one wrapper is pending, and a completion belongs to the wrapper that gets it. */
  lemma {:induction false} SlotIsTheOneInFlight(first: set<Buffers>, es: seq<Event>)
    requires KernelDrops !in es
    ensures var x := Run(first, es);
            forall w :: w in x.held && x.held[w].Some? ==> x.held[w] == x.slot
  {
    if es != [] {
      SlotIsTheOneInFlight(first, es[..|es| - 1]);
      BuffersAreAccountedFor(first, es[..|es| - 1]);
    }
  }

  /** The wrapper of the latest start that the channel accepted. */
  ghost function LastStarter(first: set<Buffers>, es: seq<Event>): Option<nat> {
    if es == [] then None
    else
      var init, e := es[..|es| - 1], es[|es| - 1];
      var x := Run(first, init);
      if e.Start? && Enabled(x, e) && StartStep(x.held[e.w], x.slot, e.b, e.trouble).2.Started? then Some(e.w)
      else LastStarter(first, init)
  }

  lemma {:induction false} SlotIsLastStarted(first: set<Buffers>, es: seq<Event>)
    ensures var x, w := Run(first, es), LastStarter(first, es);
            x.slot.Some? ==> w.Some? && w.value in x.held && x.held[w.value] == x.slot
  {
    if es != [] {
      SlotIsLastStarted(first, es[..|es| - 1]);
      BuffersAreAccountedFor(first, es[..|es| - 1]);
    }
  }

  /** Exactly when a completion is a wrapper's own, over every run, kernel-side drops included: when
      no other wrapper has started a transaction since. */
  lemma {:induction false} CompletionIsOwnIff(first: set<Buffers>, es: seq<Event>, w: nat, answer: Answer)
    requires var x := Run(first, es); w in x.held && RecvStep(x.held[w], x.slot, answer).2.Completion?
    ensures var x := Run(first, es); x.held[w] == x.slot <==> LastStarter(first, es) == Some(w)
  {
    SlotIsLastStarted(first, es);
    BuffersAreAccountedFor(first, es);
  }

  // ---- which answer a call gets, by history ----

  /** Event `i` is a start that was accepted. */
  ghost predicate Accepted(first: set<Buffers>, es: seq<Event>, i: nat) {
    && i < |es| && es[i].Start?
    && var x, e := Run(first, es[..i]), es[i];
       Enabled(x, e) && StartStep(x.held[e.w], x.slot, e.b, e.trouble).2.Started?
  }

  /** Event `i` ends a wrapper's transaction: a completion, a cancel, or a drop while pending. */
  ghost predicate Ends(first: set<Buffers>, es: seq<Event>, i: nat) {
    && i < |es| && (es[i].TryRecv? || es[i].Cancel? || es[i].Drop?)
    && var x, e := Run(first, es[..i]), es[i];
       && Enabled(x, e)
       && match e
          case TryRecv(w, answer) => RecvStep(x.held[w], x.slot, answer).2.Completion?
          case Cancel(w) => CancelStep(x.held[w], x.slot).2.Cancelled?
          case Drop(w) => x.held[w].Some?
  }

  ghost predicate StartedBy(first: set<Buffers>, es: seq<Event>, i: nat, w: nat) {
    Accepted(first, es, i) && es[i].w == w
  }

  ghost predicate EndedBy(first: set<Buffers>, es: seq<Event>, k: nat, w: nat) {
    Ends(first, es, k) && es[k].w == w
  }

  /** Before event `n`, wrapper `w` has started a transaction that it has not ended since. */
  ghost predicate Pending(first: set<Buffers>, es: seq<Event>, w: nat, n: nat) {
    exists i: nat :: PendingSince(first, es, w, i, n)
  }

  ghost predicate PendingSince(first: set<Buffers>, es: seq<Event>, w: nat, i: nat, n: nat) {
    i < n && StartedBy(first, es, i, w) && forall k :: i < k < n ==> !EndedBy(first, es, k, w)
  }

  ghost predicate Clears(first: set<Buffers>, es: seq<Event>, k: nat) {
    Ends(first, es, k) || (k < |es| && es[k].KernelDrops?)
  }

  /** Before event `n`, a transaction was started that nobody has ended since and the kernel has not
      dropped. */
  ghost predicate InKernel(first: set<Buffers>, es: seq<Event>, n: nat) {
    exists i: nat :: InKernelSince(first, es, i, n)
  }

  ghost predicate InKernelSince(first: set<Buffers>, es: seq<Event>, i: nat, n: nat) {
    i < n && Accepted(first, es, i) && forall k :: i < k < n ==> !Clears(first, es, k)
  }

  lemma {:induction false} PendingStep(first: set<Buffers>, es: seq<Event>, w: nat, n: nat)
    ensures Pending(first, es, w, n + 1) <==>
            StartedBy(first, es, n, w) || (Pending(first, es, w, n) && !EndedBy(first, es, n, w))
  {
    if StartedBy(first, es, n, w) {
      assert PendingSince(first, es, w, n, n + 1);
    }
    if Pending(first, es, w, n) && !EndedBy(first, es, n, w) {
      var i: nat :| PendingSince(first, es, w, i, n);
      assert PendingSince(first, es, w, i, n + 1);
    }
    if Pending(first, es, w, n + 1) {
      var i: nat :| PendingSince(first, es, w, i, n + 1);
      if i < n { assert PendingSince(first, es, w, i, n); }
    }
  }

  lemma {:induction false} InKernelStep(first: set<Buffers>, es: seq<Event>, n: nat)
    ensures InKernel(first, es, n + 1) <==>
            Accepted(first, es, n) || (InKernel(first, es, n) && !Clears(first, es, n))
  {
    if Accepted(first, es, n) {
      assert InKernelSince(first, es, n, n + 1);
    }
    if InKernel(first, es, n) && !Clears(first, es, n) {
      var i: nat :| InKernelSince(first, es, i, n);
      assert InKernelSince(first, es, i, n + 1);
    }
    if InKernel(first, es, n + 1) {
      var i: nat :| InKernelSince(first, es, i, n + 1);
      if i < n { assert InKernelSince(first, es, i, n); }
    }
  }

  /** A wrapper holds buffers exactly while its transaction is pending, the kernel's slot is taken
      exactly while a transaction is in the kernel. */
  lemma {:induction false} StateFollowsHistory(first: set<Buffers>, es: seq<Event>, w: nat, n: nat)
    requires n <= |es|
    ensures var x := Run(first, es[..n]);
            && ((w in x.held && x.held[w].Some?) <==> Pending(first, es, w, n))
            && (x.slot.Some? <==> InKernel(first, es, n))
    decreases n
  {
    if n > 0 {
      StateFollowsHistory(first, es, w, n - 1);
      PendingStep(first, es, w, n - 1);
      InKernelStep(first, es, n - 1);
      assert es[..n][..n - 1] == es[..n - 1];
    }
  }

  /** The buffers a pending wrapper holds are those of its own start. */
  lemma {:induction false} HoldsWhatItStarted(first: set<Buffers>, es: seq<Event>, w: nat, i: nat, n: nat)
    requires n <= |es| && PendingSince(first, es, w, i, n)
    ensures var x := Run(first, es[..n]); w in x.held && x.held[w] == Some(es[i].b)
    decreases n
  {
    assert es[..n][..n - 1] == es[..n - 1];
    if i < n - 1 {
      HoldsWhatItStarted(first, es, w, i, n - 1);
      assert !EndedBy(first, es, n - 1, w);
    }
  }

  /** What comes back is what was handed over: a completion has the buffers of the wrapper's own pending
      start and the length the kernel reports, a cancel the same buffers. */
  lemma {:induction false} OwnBuffersComeBack(first: set<Buffers>, es: seq<Event>, w: nat, i: nat, len: nat)
    requires PendingSince(first, es, w, i, |es|)
    ensures var x := Run(first, es);
            && w in x.held
            && CancelStep(x.held[w], x.slot).2 == Cancelled(es[i].b)
            && (InKernel(first, es, |es|) ==>
                 RecvStep(x.held[w], x.slot, Replied(len)).2 == Completion(len, es[i].b))
  {
    assert es[..|es|] == es;
    HoldsWhatItStarted(first, es, w, i, |es|);
    StateFollowsHistory(first, es, w, |es|);
  }

  /** Over every run, which answer a start and a receive get. A start is refused as a failed
      precondition exactly while the wrapper's own transaction is pending, as unavailable while another
      is in the kernel, and else only for the kernel's own reason. A receive needs a pending
      transaction; one the kernel has dropped is unavailable, and else the kernel's answer is passed on. */
  lemma {:induction false} AnswersHaveCauses(first: set<Buffers>, es: seq<Event>, w: nat, b: Buffers,
                                             trouble: Option<Error>, answer: Answer)
    requires w in Run(first, es).held
    ensures var x := Run(first, es);
            var mine, busy := Pending(first, es, w, |es|), InKernel(first, es, |es|);
            && StartStep(x.held[w], x.slot, b, trouble).2
               == (if mine then StartError(FailedPrecondition, b)
                   else if busy then StartError(Unavailable, b)
                   else if trouble.Some? then StartError(trouble.value, b)
                   else Started)
            && (!mine ==> RecvStep(x.held[w], x.slot, answer).2 == RecvError(FailedPrecondition))
            && (mine && !busy ==> RecvStep(x.held[w], x.slot, answer).2 == RecvError(Unavailable))
            && (mine && busy && answer.NotDone? ==> RecvStep(x.held[w], x.slot, answer).2 == RecvError(answer.error))
            && (mine && busy && answer.Replied? ==>
                 RecvStep(x.held[w], x.slot, answer).2.Completion?)
            && (CancelStep(x.held[w], x.slot).2.Cancelled? <==> mine)
  {
    assert es[..|es|] == es;
    StateFollowsHistory(first, es, w, |es|);
  }

  /** With such a drop a completion can be someone else's: wrapper 0 reports the length of the answer
      to wrapper 1's request, with its own buffers. */
  lemma {:induction false} CompletionCanBeStolen()
    ensures var es := [New(0), New(1), Start(0, 10, None), KernelDrops, Start(1, 11, None)];
            var x := Run({10, 11}, es);
            && x.slot == Some(11) && 0 in x.held && x.held[0] == Some(10)
            && RecvStep(x.held[0], x.slot, Replied(5)).2 == Completion(5, 10)
  {
    var first := {10, 11};
    var x1 := World(map[0 := None], None, first, {});
    var x2 := World(map[0 := None, 1 := None], None, first, {});
    var x3 := World(map[0 := Some(10), 1 := None], Some(10), {11}, {});
    RunAppend(first, [], New(0));
    assert Run(first, [New(0)]) == x1 by { assert [] + [New(0)] == [New(0)]; }
    RunAppend(first, [New(0)], New(1));
    var es := [New(0), New(1)];
    assert Run(first, es) == x2 by { assert [New(0)] + [New(1)] == es; }
    RunAppend(first, es, Start(0, 10, None));
    assert first - {10} == {11};
    assert Run(first, es + [Start(0, 10, None)]) == x3;
    RunAppend(first, es + [Start(0, 10, None)], KernelDrops);
    RunAppend(first, es + [Start(0, 10, None)] + [KernelDrops], Start(1, 11, None));
    assert es + [Start(0, 10, None)] + [KernelDrops] + [Start(1, 11, None)]
        == [New(0), New(1), Start(0, 10, None), KernelDrops, Start(1, 11, None)];
  }

  lemma {:induction false} RunAppend(first: set<Buffers>, es: seq<Event>, e: Event)
    ensures var x := Run(first, es);
            Run(first, es + [e]) == if Enabled(x, e) then Step(x, e) else x
  {
    assert (es + [e])[..|es|] == es;
  }
}
