/** What the MCTP server's receive table keeps over every run. */
module MctpRuns {
  import opened Bytes
  import opened MctpWire
  import opened MctpServer

  datatype Event = Request(call: Call, now: nat) | Tick(now: nat) | Inbound(packet: seq<u8>)

  /** A server in its environment: the router, the table size and the router's initial state. */
  datatype World<!S> = World(router: Router<S>, capacity: nat, start: S) {

    function Step(st: State<S>, e: Event): State<S> {
      match e
      case Request(c, now) => Perform(router, capacity, st, c, now).0
      case Tick(now) => Update(router, st, now).0
      case Inbound(packet) => st.(stack := router.inbound(st.stack, packet))
    }

    function Run(es: seq<Event>): State<S> {
      if es == [] then State(start, []) else Step(Run(es[..|es| - 1]), es[|es| - 1])
    }

    /** Event `e` makes `h` outstanding. */
    ghost predicate Registers(st: State<S>, e: Event, h: u32) {
      && e.Request? && e.call.Recv? && e.call.handle == h
      && router.recv(st.stack, h).1.None? && !Has(st.table, h) && |st.table| < capacity
    }

    /** Event `e` resolves the outstanding receive on `h`: message, expiry or unbind. */
    ghost predicate ResolvesAt(st: State<S>, e: Event, h: u32) {
      match e
      case Request(Unbind(g), _) => g == h && Has(st.table, h)
      case Tick(now) => InReady(Update(router, st, now).1, h)
      case _ => false
    }

    ghost function Registered(es: seq<Event>, h: u32): nat {
      if es == [] then 0
      else
        var n := |es| - 1;
        Registered(es[..n], h) + if Registers(Run(es[..n]), es[n], h) then 1 else 0
    }

    ghost function Resolved(es: seq<Event>, h: u32): nat {
      if es == [] then 0
      else
        var n := |es| - 1;
        Resolved(es[..n], h) + if ResolvesAt(Run(es[..n]), es[n], h) then 1 else 0
    }

    lemma {:induction false} StepTable(st: State<S>, e: Event)
      requires Unique(st.table) && |st.table| <= capacity
      ensures var after := Step(st, e).table;
              && Unique(after) && |after| <= capacity
              && (forall p :: p in after ==>
                   || (p in st.table && !ResolvesAt(st, e, p.handle))
                   || (Registers(st, e, p.handle) && p.deadline == Deadline(e.call.timeout, e.now)))
              && (forall h :: Has(after, h) <==>
                   (Has(st.table, h) && !ResolvesAt(st, e, h)) || Registers(st, e, h))
    {
      match e {
        case Request(Unbind(g), _) =>
          RemoveTakesOne(st.table, g);
          forall h ensures Has(Remove(st.table, g), h) <==> Has(st.table, h) && h != g {
            HasIn(st.table, h);
            HasIn(Remove(st.table, g), h);
          }
        case Tick(now) =>
          UpdateSplitsTable(router, st, now, capacity);
          var after := Update(router, st, now).0.table;
          forall h ensures Has(after, h) <==> Has(st.table, h) && !InReady(Update(router, st, now).1, h) {
            HasIn(st.table, h);
            HasIn(after, h);
          }
        case Request(Recv(g, timeout), now) =>
          var after := Register(st.table, capacity, g, timeout, now);
          if |after| > |st.table| {
            forall h ensures Has(after, h) <==> Has(st.table, h) || h == g { HasIn(st.table, h); HasIn(after, h); }
          }
        case _ =>
      }
    }

    /** Every registration is resolved at most once, and until then it is in the table: over any
        run, registrations of a handle are its resolutions plus one if it is still outstanding. */
    lemma {:induction false} RegistrationsAreConserved(es: seq<Event>, h: u32)
      ensures Unique(Run(es).table) && |Run(es).table| <= capacity
      ensures Registered(es, h) == Resolved(es, h) + if Has(Run(es).table, h) then 1 else 0
    {
      if es != [] {
        var n := |es| - 1;
        RegistrationsAreConserved(es[..n], h);
        var st, e := Run(es[..n]), es[n];
        StepTable(st, e);
        ResolvedWasOutstanding(st, e, h);
      }
    }

    lemma {:induction false} ResolvedWasOutstanding(st: State<S>, e: Event, h: u32)
      requires Unique(st.table) && |st.table| <= capacity
      ensures ResolvesAt(st, e, h) ==> Has(st.table, h)
    {
      if e.Tick? && ResolvesAt(st, e, h) {
        UpdateSplitsTable(router, st, e.now, capacity);
        var ready := Update(router, st, e.now).1;
        var k :| 0 <= k < |ready| && ready[k].handle == h;
        assert Resolves(st.table, ready[k], e.now);
      }
    }

    /** Event `i` registered `h`, and nothing has resolved it up to `upto`. */
    ghost predicate OpenedBy(es: seq<Event>, i: nat, h: u32, upto: nat)
      requires upto <= |es|
    {
      && i < upto && Registers(Run(es[..i]), es[i], h)
      && forall k :: i < k < upto ==> !ResolvesAt(Run(es[..k]), es[k], h)
    }

    lemma {:induction false} OpenedInPrefix(es: seq<Event>, i: nat, h: u32, upto: nat)
      requires upto <= |es| && OpenedBy(es[..upto], i, h, upto)
      ensures OpenedBy(es, i, h, upto)
    {
      assert es[..upto][..i] == es[..i];
      forall k | i < k < upto ensures !ResolvesAt(Run(es[..k]), es[k], h) {
        assert es[..upto][..k] == es[..k];
        assert es[..upto][k] == es[k];
      }
    }

    lemma {:induction false} OpenedExtends(es: seq<Event>, i: nat, h: u32)
      requires es != [] && OpenedBy(es, i, h, |es| - 1)
      requires !ResolvesAt(Run(es[..|es| - 1]), es[|es| - 1], h)
      ensures OpenedBy(es, i, h, |es|)
    {}

    /** The first deadline is never overwritten: each entry still carries the deadline of the event
        that registered it, however many receives were issued on that handle since. */
    lemma {:induction false} EntriesKeepFirstDeadline(es: seq<Event>, p: Pending) returns (i: nat)
      requires p in Run(es).table
      ensures OpenedBy(es, i, p.handle, |es|)
      ensures p.deadline == Deadline(es[i].call.timeout, es[i].now)
    {
      var n := |es| - 1;
      var st, e := Run(es[..n]), es[n];
      RegistrationsAreConserved(es[..n], p.handle);
      StepTable(st, e);
      if p in st.table && !ResolvesAt(st, e, p.handle) {
        i := EntriesKeepFirstDeadline(es[..n], p);
        OpenedInPrefix(es, i, p.handle, n);
        OpenedExtends(es, i, p.handle);
      } else {
        assert Registers(st, e, p.handle);
        i := n;
      }
    }

    /** An expiry is never early: it answers a registration with a non-zero timeout, at or after
        the time of that registration plus the timeout (unless their sum leaves 64 bits). */
    lemma {:induction false} ExpiriesAreDue(es: seq<Event>, j: nat, k: nat) returns (i: nat)
      requires j < |es| && es[j].Tick?
      requires var ready := Update(router, Run(es[..j]), es[j].now).1; k < |ready| && ready[k].how == Expired
      ensures var h := Update(router, Run(es[..j]), es[j].now).1[k].handle;
              && OpenedBy(es, i, h, j)
              && es[i].call.timeout != 0
              && (es[i].now + es[i].call.timeout < U64 ==> es[j].now >= es[i].now + es[i].call.timeout)
    {
      RegistrationsAreConserved(es[..j], 0);
      var p := ExpiredEntry(Run(es[..j]), es[j].now, k);
      i := EntriesKeepFirstDeadline(es[..j], p);
      OpenedInPrefix(es, i, p.handle, j);
      DeadlineIsLater(es[i].call.timeout, es[i].now);
    }

    /** An expiry is that of an entry whose deadline has come. */
    lemma {:induction false} ExpiredEntry(st: State<S>, now: nat, k: nat) returns (p: Pending)
      requires Unique(st.table) && |st.table| <= capacity
      requires var ready := Update(router, st, now).1; k < |ready| && ready[k].how == Expired
      ensures p in st.table && p.handle == Update(router, st, now).1[k].handle
      ensures p.deadline != 0 && now >= p.deadline
    {
      var r := Update(router, st, now).1[k];
      UpdateSplitsTable(router, st, now, capacity);
      assert Resolves(st.table, r, now);
      var x :| 0 <= x < |st.table| && st.table[x].handle == r.handle
               && (r.how == Expired ==> st.table[x].deadline != 0 && now >= st.table[x].deadline);
      p := st.table[x];
    }
  }

  lemma {:induction false} DeadlineIsLater(timeout: u32, now: nat)
    ensures Deadline(timeout, now) != 0 ==> timeout != 0
    ensures timeout != 0 && now + timeout < U64 ==> Deadline(timeout, now) == now + timeout
  {}

  lemma {:induction false} HasIn(table: seq<Pending>, h: u32)
    ensures Has(table, h) <==> exists p :: p in table && p.handle == h
  {
    if p :| p in table && p.handle == h {
      var i :| 0 <= i < |table| && table[i] == p;
    }
  }

  /** Deadline 0 means "no timeout" and nothing else exactly when the sum is not 2^64. */
  lemma {:induction false} ZeroDeadlineMeaning(timeout: u32, now: nat)
    requires now < U64
    ensures Deadline(timeout, now) == 0 <==> timeout == 0 || now + timeout == U64
  {
    if timeout != 0 && now + timeout >= U64 {
      assert (now + timeout) % U64 == now + timeout - U64;
    }
  }
}
