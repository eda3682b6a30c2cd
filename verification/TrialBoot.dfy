/** The slot record behind a trial boot: an activation arms one boot of the new image, and stays
    open until it is confirmed or reverted. */
module TrialBoot {
  import opened Bytes

  datatype Record = Record(confirmed: u8, trial: Option<u8>, armed: bool)
  datatype Event = Activate(slot: u8) | Boot | Confirm | Revert

  class SlotRecord {
    var confirmedSlot: u8
    var trialSlot: Option<u8>
    var nextBootArmed: bool

    constructor (confirmedSlot: u8)
      ensures V() == Record(confirmedSlot, None, false)
    {
      this.confirmedSlot, trialSlot, nextBootArmed := confirmedSlot, None, false;
    }

    function V(): Record
      reads this
    {
      Record(confirmedSlot, trialSlot, nextBootArmed)
    }

    method ActivateSlot(slot: u8)
      modifies this
      ensures V() == Step(old(V()), Activate(slot))
    {
      trialSlot, nextBootArmed := Some(slot), true;
    }

    method BootDevice() returns (ran: u8)
      modifies this
      ensures V() == Step(old(V()), Boot) && ran == Booted(old(V()))
    {
      if trialSlot.Some? && nextBootArmed {
        nextBootArmed := false;
        return trialSlot.value;
      }
      ran := confirmedSlot;
    }

    /** Whether a trial is open; a record that cannot be accessed does not tell. */
    method IsPending(faulty: bool) returns (r: Option<bool>)
      ensures r == if faulty then None else Some(V().trial.Some?)
    {
      r := if faulty then None else Some(trialSlot.Some?);
    }

    /** Keep the image on trial. A record that cannot be accessed fails and changes nothing. */
    method ConfirmTrial(faulty: bool) returns (ok: bool)
      modifies this
      ensures ok == !faulty && V() == if ok then Step(old(V()), Confirm) else old(V())
    {
      if faulty {
        return false;
      }
      if trialSlot.Some? {
        confirmedSlot := trialSlot.value;
        trialSlot := None;
      }
      ok := true;
    }

    method RevertTrial(faulty: bool) returns (ok: bool)
      modifies this
      ensures ok == !faulty && V() == if ok then Step(old(V()), Revert) else old(V())
    {
      if faulty {
        return false;
      }
      trialSlot := None;
      ok := true;
    }
  }

  function Step(r: Record, e: Event): Record {
    match e
    case Activate(slot) => r.(trial := Some(slot), armed := true)
    case Boot => if r.trial.Some? && r.armed then r.(armed := false) else r
    case Confirm => if r.trial.Some? then r.(confirmed := r.trial.value, trial := None) else r
    case Revert => r.(trial := None)
  }

  /** The slot a boot runs. */
  function Booted(r: Record): u8 {
    if r.trial.Some? && r.armed then r.trial.value else r.confirmed
  }

  function Run(first: u8, es: seq<Event>): Record {
    if es == [] then Record(first, None, false) else Step(Run(first, es[..|es| - 1]), es[|es| - 1])
  }

  // ---- the history, without the record ----

  /** Event `i` is the latest activation before `n` and nothing has resolved it. */
  ghost predicate Open(es: seq<Event>, i: nat, n: nat)
    requires n <= |es|
  {
    i < n && es[i].Activate? && forall k :: i < k < n ==> es[k] == Boot
  }

  /** A trial is pending exactly when the latest activation is unresolved, and it is that slot's;
      the next boot is armed for it exactly until a boot. */
  lemma {:induction false} PendingIsOpenActivation(first: u8, es: seq<Event>)
    ensures var r := Run(first, es);
            && (r.trial.Some? <==> exists i: nat :: Open(es, i, |es|))
            && (forall i: nat :: Open(es, i, |es|) ==>
                 && r.trial == Some(es[i].slot)
                 && (r.armed <==> i == |es| - 1))
  {
    if es != [] {
      var n := |es| - 1;
      var e := es[n];
      PendingIsOpenActivation(first, es[..n]);
      forall i: nat | i < n ensures Open(es, i, |es|) <==> Open(es[..n], i, n) && e == Boot {}
      if e.Activate? {
        assert Open(es, n, |es|);
      } else if e == Boot {
        if i: nat :| Open(es[..n], i, n) {
          assert Open(es, i, |es|);
        }
      }
    }
  }

  /** A boot runs the image on trial exactly when it is the first event after its activation; every
      other boot runs the confirmed slot. So an unconfirmed image boots at most once per
      activation, and never after a revert. */
  lemma {:induction false} BootsTrialOnce(first: u8, es: seq<Event>, j: nat)
    requires j < |es| && es[j] == Boot
    ensures Booted(Run(first, es[..j])) ==
            if j > 0 && es[j - 1].Activate? then es[j - 1].slot else Run(first, es[..j]).confirmed
  {
    var g := es[..j];
    PendingIsOpenActivation(first, g);
    if j > 0 && es[j - 1].Activate? {
      assert Open(g, j - 1, j);
    } else if Run(first, g).trial.Some? {
      var i: nat :| Open(g, i, j);
      assert i != j - 1;
    }
  }

  /** Only a confirm changes the confirmed slot, and only to the slot of the open activation. */
  lemma {:induction false} OnlyConfirmCommits(first: u8, es: seq<Event>)
    requires es != []
    ensures var n := |es| - 1;
            var before, after := Run(first, es[..n]).confirmed, Run(first, es).confirmed;
            && (es[n] != Confirm ==> after == before)
            && (forall i: nat :: es[n] == Confirm && Open(es, i, n) ==> after == es[i].slot)
            && (es[n] == Confirm && !(exists i: nat :: Open(es, i, n)) ==> after == before)
  {
    var n := |es| - 1;
    PendingIsOpenActivation(first, es[..n]);
    forall i: nat ensures Open(es, i, n) <==> Open(es[..n], i, n) {}
  }

  /** Resolutions close the trial and disarm it; repeating any resolution changes nothing. */
  lemma {:induction false} ResolutionsAreFinal(first: u8, es: seq<Event>, a: Event, b: Event)
    requires (a == Confirm || a == Revert) && (b == Confirm || b == Revert)
    ensures var once := Run(first, es + [a]);
            && once.trial == None
            && Run(first, es + [a] + [b]) == once
            && Booted(once) == once.confirmed
  {
    assert (es + [a])[..|es|] == es;
    assert (es + [a] + [b])[..|es| + 1] == es + [a];
  }
}
