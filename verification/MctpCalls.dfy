/** What reaches the router: a router that records its calls, and what every operation, every pass and
    every run of the server leaves in the record. */
module MctpCalls {
  import opened Bytes
  import opened MctpWire
  import opened MctpServer
  import Rpc = MctpRpc
  import Runs = MctpRuns

  /** One call of the router, with what it returned. */
  datatype Asked =
    | AskedSetEid(eid: u8, done: Reply<()>)
    | AskedListener(msgType: u8, bound: Reply<u32>)
    | AskedReq(eid: u8, bound: Reply<u32>)
    | AskedRecv(handle: u32, got: Option<Message>)
    | AskedSend(dest: Option<u8>, msgType: u8, tag: Option<Tag>, ic: bool, cookie: u32, payload: seq<u8>,
                sent: Reply<u8>)
    | AskedUnbind(handle: u32)
    | AskedUpdate(now: nat)
    | AskedInbound(packet: seq<u8>)

  /** A router's state with the record of its calls. */
  type Recorded<S> = (S, seq<Asked>)

  /** Any router, made to record. The end-point identifier is only looked at, which leaves no trace. */
  function Recording<S>(r: Router<S>): Router<Recorded<S>> {
    Router(
      (x: Recorded<S>, eid: u8) =>
        var (s, a) := r.setEid(x.0, eid); ((s, x.1 + [AskedSetEid(eid, a)]), a),
      (x: Recorded<S>) => r.getEid(x.0),
      (x: Recorded<S>, t: u8) =>
        var (s, a) := r.listener(x.0, t); ((s, x.1 + [AskedListener(t, a)]), a),
      (x: Recorded<S>, eid: u8) =>
        var (s, a) := r.req(x.0, eid); ((s, x.1 + [AskedReq(eid, a)]), a),
      (x: Recorded<S>, h: u32) =>
        var (s, m) := r.recv(x.0, h); ((s, x.1 + [AskedRecv(h, m)]), m),
      (x: Recorded<S>, dest: Option<u8>, t: u8, tag: Option<Tag>, ic: bool, cookie: u32, payload: seq<u8>) =>
        var (s, a) := r.send(x.0, dest, t, tag, ic, cookie, payload);
        ((s, x.1 + [AskedSend(dest, t, tag, ic, cookie, payload, a)]), a),
      (x: Recorded<S>, h: u32) => (r.unbind(x.0, h), x.1 + [AskedUnbind(h)]),
      (x: Recorded<S>, now: nat) => var (s, next) := r.update(x.0, now); ((s, x.1 + [AskedUpdate(now)]), next),
      (x: Recorded<S>, packet: seq<u8>) => (r.inbound(x.0, packet), x.1 + [AskedInbound(packet)]))
  }

  /** The state without the record. */
  function Plain<S>(st: State<Recorded<S>>): State<S> {
    State(st.stack.0, st.table)
  }

  // ---- one operation ----

  /** Operations that ask nothing of the router: looking up the identifier, and a payload that no
      message can hold. */
  predicate AsksNothing(c: Call) {
    c.GetEid? || (c.Send? && |c.payload| > 1023)
  }

  /** `a` is the router call that operation `c` stands for. A message with a handle is a request: an
      owned tag, the handle as cookie. One without is a response: an unowned tag, cookie 255. */
  predicate StandsFor(c: Call, a: Asked) {
    match c
    case SetEid(eid) => a.AskedSetEid? && a.eid == eid
    case GetEid => false
    case Listener(t) => a.AskedListener? && a.msgType == t
    case Req(eid) => a.AskedReq? && a.eid == eid
    case Recv(h, _) => a.AskedRecv? && a.handle == h
    case Unbind(h) => a.AskedUnbind? && a.handle == h
    case Send(to, t, dest, tag, ic, payload) =>
      && a.AskedSend? && a.dest == dest && a.msgType == t && a.ic == ic && a.payload == payload
      && a.cookie == (if to.Some? then to.value else 255)
      && (a.tag.Some? <==> tag.Some?)
      && (a.tag.Some? ==> a.tag.value.value == tag.value && a.tag.value.Owned? == to.Some?)
  }

  /** The code a router's error is reported with. */
  predicate Codes(e: RouterError, code: ResponseCode) {
    match code
    case NoSpace => e == RouterNoSpace
    case AddrInUse => e == RouterAddrInUse
    case TimedOut => e == RouterTimedOut
    case BadArgument => e == RouterBadArgument
    case InternalError => e == RouterInternal || e == RouterOther
    case _ => false
  }

  predicate Carries<T>(r: Reply<T>, o: Outcome, good: bool) {
    && o.Now? && (r.Fine? ==> good)
    && (r.Bad? ==> o.answer.Failed? && Codes(r.error, o.answer.code))
  }

  /** The outcome is what the router returned: its value, or the code of its error. */
  predicate Reports(a: Asked, o: Outcome) {
    match a
    case AskedSetEid(_, r) => Carries(r, o, o == Now(Done))
    case AskedListener(_, r) => Carries(r, o, r.Fine? && o == Now(HandleIs(r.value)))
    case AskedReq(_, r) => Carries(r, o, r.Fine? && o == Now(HandleIs(r.value)))
    case AskedSend(_, _, _, _, _, _, r) => Carries(r, o, r.Fine? && o == Now(TagIs(r.value)))
    case AskedRecv(h, got) => o == if got.Some? then Now(Got(got.value)) else Later(h)
    case AskedUnbind(_) => o == Now(Done)
    case _ => false
  }

  /** Every operation on every router: exactly one router call, the one it stands for, and the outcome
      is what that call returned. Recording changes nothing else. */
  lemma {:induction false} CallReachesRouter<S>(router: Router<S>, capacity: nat, st: State<Recorded<S>>, c: Call,
                                                now: nat)
    ensures var (after, o) := Perform(Recording(router), capacity, st, c, now);
            && Perform(router, capacity, Plain(st), c, now) == (Plain(after), o)
            && (AsksNothing(c) ==>
                 after == st && o == Now(if c.GetEid? then EidIs(router.getEid(st.stack.0)) else Failed(NoSpace)))
            && (!AsksNothing(c) ==>
                 exists a :: after.stack.1 == st.stack.1 + [a] && StandsFor(c, a) && Reports(a, o))
  {
    var (after, o) := Perform(Recording(router), capacity, st, c, now);
    if !AsksNothing(c) {
      var a := after.stack.1[|after.stack.1| - 1];
      assert after.stack.1 == st.stack.1 + [a] && StandsFor(c, a) && Reports(a, o);
    }
  }

  /** A request that is no operation asks nothing, changes nothing and is answered as a bad argument;
      and those are the short ones and the ones with an unknown code. */
  lemma {:induction false} MalformedAsksNothing<S>(router: Router<S>, capacity: nat, st: State<S>, request: seq<u8>,
                                                   now: nat)
    ensures ParseCall(request).None? <==> |request| < 12 || request[0] > 6
    ensures ParseCall(request).None? ==>
              Rpc.Serve(router, capacity, st, request, now) == (st, Now(Failed(BadArgument)))
  {}

  // ---- one pass ----

  /** What a pass has to report, given what the router had for each entry: messages, and expiries of
      entries whose non-zero deadline has come, in table order. */
  function Reported(table: seq<Pending>, got: seq<Option<Message>>, now: nat): seq<Ready>
    requires |table| == |got|
  {
    if table == [] then []
    else
      var n := |table| - 1;
      Reported(table[..n], got[..n], now)
      + if got[n].Some? then [Ready(table[n].handle, Arrived(got[n].value))]
        else if 0 < table[n].deadline <= now then [Ready(table[n].handle, Expired)]
        else []
  }

  /** The record of asking for every entry of the table, in order. */
  function Polled(table: seq<Pending>, got: seq<Option<Message>>): seq<Asked>
    requires |table| == |got|
  {
    seq(|table|, i requires 0 <= i < |table| => AskedRecv(table[i].handle, got[i]))
  }

  lemma {:induction false} PollReachesRouter<S>(router: Router<S>, x: Recorded<S>, table: seq<Pending>, now: nat)
    returns (got: seq<Option<Message>>)
    ensures |got| == |table|
    ensures var (s, ready) := Poll(Recording(router), x, table, now);
            && Poll(router, x.0, table, now) == (s.0, ready)
            && s.1 == x.1 + Polled(table, got)
            && ready == Reported(table, got, now)
  {
    if table == [] {
      got := [];
      assert x.1 + Polled(table, got) == x.1;
    } else {
      var n := |table| - 1;
      var init := PollReachesRouter(router, x, table[..n], now);
      var before := Poll(Recording(router), x, table[..n], now).0;
      var m := router.recv(before.0, table[n].handle).1;
      got := init + [m];
      assert got[..n] == init;
      assert Polled(table, got) == Polled(table[..n], init) + [AskedRecv(table[n].handle, m)];
    }
  }

  /** A pass updates the router once, then asks it once for every outstanding receive, in order, and
      reports exactly what the router had and what has expired. */
  lemma {:induction false} PassReachesRouter<S>(router: Router<S>, st: State<Recorded<S>>, now: nat)
    returns (got: seq<Option<Message>>)
    ensures |got| == |st.table|
    ensures var (after, ready) := Update(Recording(router), st, now);
            && Update(router, Plain(st), now) == (Plain(after), ready)
            && after.stack.1 == st.stack.1 + [AskedUpdate(now)] + Polled(st.table, got)
            && ready == Reported(st.table, got, now)
  {
    var s := Recording(router).update(st.stack, now).0;
    got := PollReachesRouter(router, s, st.table, now);
  }

  // ---- whole runs ----

  /** The router calls one event makes. */
  predicate Makes(table: seq<Pending>, e: Runs.Event, asked: seq<Asked>) {
    match e
    case Request(c, _) => if AsksNothing(c) then asked == [] else |asked| == 1 && StandsFor(c, asked[0])
    case Tick(now) =>
      && |asked| == 1 + |table| && asked[0] == AskedUpdate(now)
      && forall i :: 0 <= i < |table| ==> asked[1 + i].AskedRecv? && asked[1 + i].handle == table[i].handle
    case Inbound(packet) => asked == [AskedInbound(packet)]
  }

  /** Over every run, the router's record grows with each event by the calls that event makes, and by
      nothing else: no call is lost, made twice or made out of order. */
  lemma {:induction false} RunReachesRouter<S>(router: Router<S>, capacity: nat, start: S, es: seq<Runs.Event>)
    returns (asked: seq<Asked>)
    requires es != []
    ensures var w := Runs.World(Recording(router), capacity, (start, []));
            var st, after := w.Run(es[..|es| - 1]), w.Run(es);
            after.stack.1 == st.stack.1 + asked && Makes(st.table, es[|es| - 1], asked)
  {
    var w := Runs.World(Recording(router), capacity, (start, []));
    var st, e, after := w.Run(es[..|es| - 1]), es[|es| - 1], w.Run(es);
    match e {
      case Request(c, now) =>
        CallReachesRouter(router, capacity, st, c, now);
        asked := after.stack.1[|st.stack.1|..];
      case Tick(now) =>
        var got := PassReachesRouter(router, st, now);
        asked := [AskedUpdate(now)] + Polled(st.table, got);
      case Inbound(packet) =>
        asked := [AskedInbound(packet)];
    }
  }
}
