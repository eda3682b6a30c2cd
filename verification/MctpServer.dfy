/** The MCTP server: operations over a router, and the table of outstanding receives. */
module MctpServer {
  import opened Bytes
  import opened MctpWire

  const U64: nat := 0x1_0000_0000_0000_0000

  datatype RouterError =
    | RouterInternal | RouterNoSpace | RouterAddrInUse | RouterTimedOut | RouterBadArgument | RouterOther
  datatype Reply<+T> = Fine(value: T) | Bad(error: RouterError)
  datatype Tag = Owned(value: u8) | Unowned(value: u8)

  function ErrorCode(e: RouterError): (c: ResponseCode)
    ensures c != Success
  {
    match e
    case RouterNoSpace => NoSpace
    case RouterAddrInUse => AddrInUse
    case RouterTimedOut => TimedOut
    case RouterBadArgument => BadArgument
    case _ => InternalError
  }

  /** The router the server wraps, as an arbitrary state machine. */
  datatype Router<!S> = Router(
    setEid: (S, u8) -> (S, Reply<()>),
    getEid: S -> u8,
    listener: (S, u8) -> (S, Reply<u32>),
    req: (S, u8) -> (S, Reply<u32>),
    recv: (S, u32) -> (S, Option<Message>),
    send: (S, Option<u8>, u8, Option<Tag>, bool, u32, seq<u8>) -> (S, Reply<u8>),
    unbind: (S, u32) -> S,
    update: (S, nat) -> (S, Option<nat>),
    inbound: (S, seq<u8>) -> S)

  /** A receive waiting for a message; deadline 0 means it waits forever. */
  datatype Pending = Pending(handle: u32, deadline: nat)

  datatype State<S> = State(stack: S, table: seq<Pending>)

  // ---- the outstanding table ----

  ghost predicate Unique(table: seq<Pending>) {
    forall i, j :: 0 <= i < j < |table| ==> table[i].handle != table[j].handle
  }

  predicate Has(table: seq<Pending>, h: u32) {
    exists i :: 0 <= i < |table| && table[i].handle == h
  }

  /** The slot of a handle, or the table length. */
  function Slot(table: seq<Pending>, h: u32): (i: nat)
    ensures i <= |table| && (i < |table| <==> Has(table, h))
    ensures i < |table| ==> table[i].handle == h
  {
    if table == [] then 0
    else if table[0].handle == h then 0
    else
      var r := Slot(table[1..], h);
      assert Has(table[1..], h) ==> Has(table, h) by {
        if Has(table[1..], h) {
          var k :| 0 <= k < |table[1..]| && table[1..][k].handle == h;
          assert table[k + 1].handle == h;
        }
      }
      assert Has(table, h) ==> Has(table[1..], h) by {
        if Has(table, h) {
          var k :| 0 <= k < |table| && table[k].handle == h;
          assert table[1..][k - 1].handle == h;
        }
      }
      1 + r
  }

  /** Removal fills the hole with the last entry. */
  function Remove(table: seq<Pending>, h: u32): seq<Pending> {
    var i := Slot(table, h);
    var last := |table| - 1;
    if i == |table| then table else table[i := table[last]][..last]
  }

  lemma {:induction false} RemoveTakesOne(table: seq<Pending>, h: u32)
    requires Unique(table)
    ensures Unique(Remove(table, h))
    ensures forall p :: p in Remove(table, h) <==> p in table && p.handle != h
    ensures |Remove(table, h)| == |table| - if Has(table, h) then 1 else 0
  {
    var r, i, last := Remove(table, h), Slot(table, h), |table| - 1;
    if i < |table| {
      forall p ensures p in r <==> p in table && p.handle != h {
        if p in r {
          var k :| 0 <= k < |r| && r[k] == p;
          assert p == table[if k == i then last else k];
        }
        if p in table && p.handle != h {
          var k :| 0 <= k < |table| && table[k] == p;
          assert k != i;
          assert p == r[if k == last then i else k];
        }
      }
    }
  }

  function RemoveAll(table: seq<Pending>, ready: seq<Ready>): seq<Pending> {
    if ready == [] then table
    else Remove(RemoveAll(table, ready[..|ready| - 1]), ready[|ready| - 1].handle)
  }

  ghost predicate InReady(ready: seq<Ready>, h: u32) {
    exists k :: 0 <= k < |ready| && ready[k].handle == h
  }

  lemma {:induction false} RemoveAllTakesReady(table: seq<Pending>, ready: seq<Ready>)
    requires Unique(table)
    ensures Unique(RemoveAll(table, ready))
    ensures forall p :: p in RemoveAll(table, ready) <==> p in table && !InReady(ready, p.handle)
  {
    if ready != [] {
      var init, last := ready[..|ready| - 1], ready[|ready| - 1];
      RemoveAllTakesReady(table, init);
      RemoveTakesOne(RemoveAll(table, init), last.handle);
      forall h ensures InReady(ready, h) <==> InReady(init, h) || h == last.handle {
        if InReady(init, h) {
          var k :| 0 <= k < |init| && init[k].handle == h;
          assert ready[k].handle == h;
        }
        if InReady(ready, h) && h != last.handle {
          var k :| 0 <= k < |ready| && ready[k].handle == h;
          assert init[k].handle == h;
        }
      }
    }
  }

  // ---- operations ----

  /** 64-bit milliseconds; the sum wraps like the machine's. */
  function Deadline(timeout: u32, now: nat): nat {
    if timeout == 0 then 0 else (now + timeout) % U64
  }

  function Register(table: seq<Pending>, capacity: nat, h: u32, timeout: u32, now: nat): seq<Pending> {
    if Has(table, h) || |table| >= capacity then table else table + [Pending(h, Deadline(timeout, now))]
  }

  /** The result of a call: an answer now, or one owed when the handle is ready. */
  datatype Outcome = Now(answer: Answer) | Later(handle: u32)

  function Settle<T>(r: Reply<T>, ok: T -> Answer): Answer {
    match r
    case Fine(v) => ok(v)
    case Bad(e) => Failed(ErrorCode(e))
  }

  /** Responses (no handle) use unowned tags and a dummy cookie, requests owned ones. */
  function WireTag(to: Option<u32>, tag: Option<u8>): Option<Tag> {
    if tag.None? then None else Some(if to.None? then Unowned(tag.value) else Owned(tag.value))
  }

  /** Calling the server directly. */
  function Perform<S>(router: Router<S>, capacity: nat, st: State<S>, c: Call, now: nat): (State<S>, Outcome) {
    match c
    case SetEid(eid) =>
      var (s, r) := router.setEid(st.stack, eid);
      (st.(stack := s), Now(Settle(r, _ => Done)))
    case GetEid => (st, Now(EidIs(router.getEid(st.stack))))
    case Listener(t) =>
      var (s, r) := router.listener(st.stack, t);
      (st.(stack := s), Now(Settle(r, h => HandleIs(h))))
    case Req(eid) =>
      var (s, r) := router.req(st.stack, eid);
      (st.(stack := s), Now(Settle(r, h => HandleIs(h))))
    case Recv(h, timeout) =>
      var (s, m) := router.recv(st.stack, h);
      if m.Some? then (st.(stack := s), Now(Got(m.value)))
      else (State(s, Register(st.table, capacity, h, timeout, now)), Later(h))
    case Send(to, t, dest, tag, ic, payload) =>
      if |payload| > MAX_PAYLOAD_SIZE then (st, Now(Failed(NoSpace)))
      else
        var (s, r) := router.send(st.stack, dest, t, WireTag(to, tag), ic, OptionOr(to, 255), payload);
        (st.(stack := s), Now(Settle(r, tag => TagIs(tag))))
    case Unbind(h) =>
      (State(router.unbind(st.stack, h), Remove(st.table, h)), Now(Done))
  }

  // ---- the update pass ----

  datatype Resolution = Arrived(msg: Message) | Expired
  datatype Ready = Ready(handle: u32, how: Resolution)

  /** Poll the outstanding receives in table order, threading the router. */
  function Poll<S>(router: Router<S>, stack: S, table: seq<Pending>, now: nat): (r: (S, seq<Ready>))
    ensures |r.1| <= |table|
  {
    if table == [] then (stack, [])
    else
      var (s, ready) := Poll(router, stack, table[..|table| - 1], now);
      var p := table[|table| - 1];
      var (s', m) := router.recv(s, p.handle);
      if m.Some? then (s', ready + [Ready(p.handle, Arrived(m.value))])
      else if p.deadline != 0 && now >= p.deadline then (s', ready + [Ready(p.handle, Expired)])
      else (s', ready)
  }

  function Update<S>(router: Router<S>, st: State<S>, now: nat): (State<S>, seq<Ready>) {
    var (s, _) := router.update(st.stack, now);
    var (s', ready) := Poll(router, s, st.table, now);
    (State(s', RemoveAll(st.table, ready)), ready)
  }

  /** `r` resolves an entry of the table; an expiry comes at or after a non-zero deadline. */
  ghost predicate Resolves(table: seq<Pending>, r: Ready, now: nat) {
    exists i :: 0 <= i < |table| && table[i].handle == r.handle
                && (r.how == Expired ==> table[i].deadline != 0 && now >= table[i].deadline)
  }

  /** Every ready handle is one outstanding entry, and none is ready twice. */
  ghost predicate WellResolved(table: seq<Pending>, ready: seq<Ready>, now: nat) {
    && (forall k :: 0 <= k < |ready| ==> Resolves(table, ready[k], now))
    && (forall k, l :: 0 <= k < l < |ready| ==> ready[k].handle != ready[l].handle)
  }

  /** Each ready handle is one outstanding entry, resolved at most once in the pass. */
  lemma {:induction false} PollResolves<S>(router: Router<S>, stack: S, table: seq<Pending>, now: nat)
    requires Unique(table)
    ensures WellResolved(table, Poll(router, stack, table, now).1, now)
  {
    if table != [] {
      var n := |table| - 1;
      var before, ready := Poll(router, stack, table[..n], now).1, Poll(router, stack, table, now).1;
      PollResolves(router, stack, table[..n], now);
      forall k | 0 <= k < |before|
        ensures Resolves(table, before[k], now) && before[k].handle != table[n].handle
      {
        assert Resolves(table[..n], before[k], now);
        var i :| 0 <= i < n && table[..n][i].handle == before[k].handle
                 && (before[k].how == Expired ==> table[..n][i].deadline != 0 && now >= table[..n][i].deadline);
        assert table[i] == table[..n][i];
      }
      assert before <= ready;
      assert |ready| > |before| ==> table[n].handle == ready[|before|].handle;
    }
  }

  /** The pass splits the table exactly: an entry stays or is resolved, never both, never neither;
      so with at most `capacity` entries the ready list never overflows. */
  lemma {:induction false} UpdateSplitsTable<S>(router: Router<S>, st: State<S>, now: nat, capacity: nat)
    requires Unique(st.table) && |st.table| <= capacity
    ensures var (after, ready) := Update(router, st, now);
            && Unique(after.table) && |after.table| + |ready| == |st.table|
            && |ready| <= capacity
            && (forall p :: p in after.table <==> p in st.table && !InReady(ready, p.handle))
            && WellResolved(st.table, ready, now)
  {
    var s := router.update(st.stack, now).0;
    var ready := Poll(router, s, st.table, now).1;
    PollResolves(router, s, st.table, now);
    RemoveAllTakesReady(st.table, ready);
    RemoveAllCounts(st.table, ready, now);
  }

  lemma {:induction false} RemoveAllCounts(table: seq<Pending>, ready: seq<Ready>, now: nat)
    requires Unique(table)
    requires WellResolved(table, ready, now)
    ensures |RemoveAll(table, ready)| + |ready| == |table|
  {
    if ready != [] {
      var n := |ready| - 1;
      var rest := RemoveAll(table, ready[..n]);
      RemoveAllCounts(table, ready[..n], now);
      RemoveAllTakesReady(table, ready[..n]);
      RemoveTakesOne(rest, ready[n].handle);
      assert Has(rest, ready[n].handle) by {
        assert Resolves(table, ready[n], now);
        var i :| 0 <= i < |table| && table[i].handle == ready[n].handle;
        assert !InReady(ready[..n], ready[n].handle);
        assert table[i] in rest;
      }
    }
  }

  lemma {:induction false} DueAreReady<S>(router: Router<S>, stack: S, table: seq<Pending>, now: nat, p: Pending)
    requires p in table && p.deadline != 0 && now >= p.deadline
    ensures InReady(Poll(router, stack, table, now).1, p.handle)
  {
    var n := |table| - 1;
    var some, all := Poll(router, stack, table[..n], now).1, Poll(router, stack, table, now).1;
    if p == table[n] {
      assert all[|all| - 1].handle == p.handle;
    } else {
      DueAreReady(router, stack, table[..n], now, p);
      var k :| 0 <= k < |some| && some[k].handle == p.handle;
      assert all[k] == some[k];
    }
  }

  /** No entry whose deadline has come outlives a pass. */
  lemma {:induction false} NothingOverdue<S>(router: Router<S>, st: State<S>, now: nat, capacity: nat)
    requires Unique(st.table) && |st.table| <= capacity
    ensures forall p :: p in Update(router, st, now).0.table ==> p.deadline == 0 || now < p.deadline
  {
    UpdateSplitsTable(router, st, now, capacity);
    var (s, _) := router.update(st.stack, now);
    forall p | p in Update(router, st, now).0.table ensures p.deadline == 0 || now < p.deadline {
      if p.deadline != 0 && now >= p.deadline {
        DueAreReady(router, s, st.table, now, p);
      }
    }
  }
}
