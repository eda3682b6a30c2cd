/** The slave-receive latch of the I2C server runtime: per-bus state driven by
    hardware interrupts and client requests, many buses behind one loop. */
module I2cLatch {
  import opened Bytes
  import opened I2cProtocol

  datatype EventKind = DataReceived | ReadRequest | Stop

  function KindByte(k: EventKind): u8 {
    match k
    case DataReceived => 0
    case ReadRequest => 1
    case Stop => 2
  }

  function KindFromByte(b: u8): Option<EventKind> {
    match b
    case 0 => Some(DataReceived)
    case 1 => Some(ReadRequest)
    case 2 => Some(Stop)
    case _ => None
  }

  /** What the driver reports when its interrupt is serviced. A finished master write carries
      the drained bytes, or nothing when draining failed. */
  datatype DriverEvent =
    | WriteReceived(drained: Option<seq<u8>>)
    | ReadWanted
    | Stopped
    | Intermediate
    | NoEvent
    | Fault

  /** The client commands that concern the latch; all others leave it alone. */
  datatype Command = Arm | Disarm | Receive(max: nat) | Unrelated

  datatype Latch = Latch(armed: bool, rx: seq<u8>, kind: EventKind)

  datatype Event = Irq(driver: DriverEvent) | Request(cmd: Command)
  datatype Reply = Silent | Ack | Empty | Delivered(kind: EventKind, bytes: seq<u8>)

  const FRESH := Latch(false, [], DataReceived)

  /** A driver drains at most what the buffer it is given holds. */
  predicate WellSized(e: Event) {
    e.Irq? && e.driver.WriteReceived? && e.driver.drained.Some? ==> |e.driver.drained.value| <= MAX_PAYLOAD_SIZE
  }

  function AfterIrq(l: Latch, e: DriverEvent): Latch {
    if !l.armed then l
    else
      match e
      case WriteReceived(drained) =>
        l.(kind := DataReceived, rx := if drained.Some? && |drained.value| > 0 then drained.value else l.rx)
      case ReadWanted => l.(kind := ReadRequest)
      case Stopped => l.(kind := Stop)
      case _ => l
  }

  /** Whether servicing an interrupt raises the client's USER signal. */
  predicate Wakes(l: Latch) {
    l.armed && (|l.rx| > 0 || l.kind == Stop)
  }

  /** Room for data in a reply: the server's buffer less the header and the kind byte. */
  const DATA_CAP: nat := MAX_BUF_SIZE - RESPONSE_HEADER - 1

  function Step(l: Latch, e: Event): (r: (Latch, Reply))
    ensures r.1.Delivered? ==> |r.1.bytes| <= DATA_CAP
  {
    match e
    case Irq(d) => (AfterIrq(l, d), Silent)
    case Request(Arm) => (l.(armed := true), Ack)
    case Request(Disarm) => (Latch(false, [], DataReceived), Ack)
    case Request(Receive(max)) =>
      if |l.rx| == 0 then (l, Empty)
      else (l.(rx := []), Delivered(l.kind, l.rx[..Min(Min(|l.rx|, max), DATA_CAP)]))
    case Request(Unrelated) => (l, Ack)
  }

  function Run(h: seq<Event>): Latch {
    if h == [] then FRESH else Step(Run(h[..|h| - 1]), h[|h| - 1]).0
  }

  /** The reply to event `j` of a history. */
  function ReplyAt(h: seq<Event>, j: nat): Reply
    requires j < |h|
  {
    Step(Run(h[..j]), h[j]).1
  }

  // ---- the history the latch stands for, without its state ----

  /** The last arm or disarm before position `n` was an arm. */
  ghost predicate ArmedBefore(h: seq<Event>, n: nat)
    requires n <= |h|
  {
    exists a :: 0 <= a < n && h[a] == Request(Arm) && forall k :: a < k < n ==> h[k] != Request(Disarm)
  }

  /** Event `i` is a non-empty master write drained while armed. */
  ghost predicate Arrives(h: seq<Event>, i: nat)
    requires i < |h|
  {
    && h[i].Irq? && h[i].driver.WriteReceived? && h[i].driver.drained.Some? && |h[i].driver.drained.value| > 0
    && ArmedBefore(h, i)
  }

  /** Nothing after `i` consumed, dropped or replaced the write of event `i`. */
  ghost predicate Survives(h: seq<Event>, i: nat, n: nat)
    requires i < n <= |h|
  {
    forall k :: i < k < n ==> !(h[k].Request? && (h[k].cmd.Receive? || h[k].cmd.Disarm?)) && !Arrives(h, k)
  }

  ghost predicate Latest(h: seq<Event>, i: nat, n: nat)
    requires n <= |h|
  {
    i < n && Arrives(h, i) && Survives(h, i, n)
  }

  lemma {:induction false} RunArmed(h: seq<Event>)
    ensures Run(h).armed <==> ArmedBefore(h, |h|)
    ensures |Run(h).rx| > 0 ==> Run(h).armed
  {
    if h != [] {
      var n := |h| - 1;
      RunArmed(h[..n]);
      ArmedAgrees(h, n, n);
      if h[n] == Request(Arm) {
        assert ArmedBefore(h, |h|);
      } else if h[n] == Request(Disarm) {
        assert !ArmedBefore(h, |h|);
      } else {
        assert ArmedBefore(h, n) ==> ArmedBefore(h, |h|);
      }
    }
  }

  lemma {:induction false} ArmedAgrees(h: seq<Event>, n: nat, k: nat)
    requires k <= n <= |h|
    ensures ArmedBefore(h[..n], k) <==> ArmedBefore(h, k)
  {
    var g := h[..n];
    assert forall x :: 0 <= x < k ==> g[x] == h[x];
    if a :| 0 <= a < k && h[a] == Request(Arm) && forall x :: a < x < k ==> h[x] != Request(Disarm) {
      assert g[a] == Request(Arm);
    }
  }

  /** What happened before `n` does not depend on what follows. */
  lemma {:induction false} PrefixAgrees(h: seq<Event>, n: nat, i: nat)
    requires i < n <= |h|
    ensures Arrives(h[..n], i) <==> Arrives(h, i)
    ensures Latest(h[..n], i, n) <==> Latest(h, i, n)
  {
    forall k | 0 <= k < n ensures Arrives(h[..n], k) <==> Arrives(h, k) {
      ArmedAgrees(h, n, k);
    }
  }

  /** One more event keeps the last surviving write, unless it takes, drops or replaces it. */
  lemma {:induction false} LatestExtends(h: seq<Event>, i: nat)
    requires h != [] && i < |h| - 1
    ensures var n := |h| - 1;
            Latest(h, i, |h|) <==>
            && Latest(h[..n], i, n)
            && !(h[n].Request? && (h[n].cmd.Receive? || h[n].cmd.Disarm?)) && !Arrives(h, n)
  {
    PrefixAgrees(h, |h| - 1, i);
  }

  /** The latch refines its history: it holds exactly the last write that arrived and survived. */
  lemma {:induction false} LatchRefinesHistory(h: seq<Event>)
    ensures forall i: nat :: Latest(h, i, |h|) ==> Run(h).rx == h[i].driver.drained.value
    ensures |Run(h).rx| > 0 ==> exists i: nat :: Latest(h, i, |h|)
  {
    if h != [] {
      var n := |h| - 1;
      var g := h[..n];
      LatchRefinesHistory(g);
      RunArmed(g);
      ArmedAgrees(h, n, n);
      forall i: nat | Latest(h, i, |h|) ensures Run(h).rx == h[i].driver.drained.value {
        if i < n {
          LatestExtends(h, i);
        }
      }
      if |Run(h).rx| > 0 {
        if Arrives(h, n) {
          assert Latest(h, n, |h|);
        } else {
          var i: nat :| Latest(g, i, n);
          LatestExtends(h, i);
        }
      }
    }
  }

  // ---- the event kind the latch stands for ----

  /** The event kind the client is told about after a driver event, if it is told at all. */
  predicate Tells(d: DriverEvent, kind: EventKind) {
    match kind
    case DataReceived => d.WriteReceived?
    case ReadRequest => d.ReadWanted?
    case Stop => d.Stopped?
  }

  /** Event `i` is a finished write, a read request or a stop, while armed. */
  ghost predicate Marks(h: seq<Event>, i: nat)
    requires i < |h|
  {
    && h[i].Irq? && (h[i].driver.WriteReceived? || h[i].driver.ReadWanted? || h[i].driver.Stopped?)
    && ArmedBefore(h, i)
  }

  /** Event `i` is the last of these before `n`, and no disarm came after it. */
  ghost predicate LastMark(h: seq<Event>, i: nat, n: nat)
    requires n <= |h|
  {
    i < n && Marks(h, i) && forall k :: i < k < n ==> !Marks(h, k) && h[k] != Request(Disarm)
  }

  lemma {:induction false} MarkAgrees(h: seq<Event>, n: nat, i: nat)
    requires i < n <= |h|
    ensures Marks(h[..n], i) <==> Marks(h, i)
    ensures LastMark(h[..n], i, n) <==> LastMark(h, i, n)
  {
    forall k | 0 <= k < n ensures Marks(h[..n], k) <==> Marks(h, k) {
      ArmedAgrees(h, n, k);
    }
  }

  /** The kind is that of the last such event since the last disarm, and the initial one without any. */
  ghost predicate KindFollows(h: seq<Event>, n: nat, kind: EventKind)
    requires n <= |h|
  {
    && (forall i: nat :: LastMark(h, i, n) ==> Tells(h[i].driver, kind))
    && ((forall i: nat :: !LastMark(h, i, n)) ==> kind == DataReceived)
  }

  lemma {:induction false} KindStays(h: seq<Event>, kind: EventKind)
    requires h != [] && KindFollows(h[..|h| - 1], |h| - 1, kind)
    requires !Marks(h, |h| - 1) && h[|h| - 1] != Request(Disarm)
    ensures KindFollows(h, |h|, kind)
  {
    var n := |h| - 1;
    forall i: nat | i < n ensures LastMark(h, i, |h|) <==> LastMark(h[..n], i, n) {
      MarkAgrees(h, n, i);
    }
    if forall i: nat :: !LastMark(h, i, |h|) {
      forall i: nat ensures !LastMark(h[..n], i, n) {
        if i < n { assert !LastMark(h, i, |h|); }
      }
    }
  }

  /** The latch's kind refines its history. */
  lemma {:induction false} KindIsLastMark(h: seq<Event>)
    ensures KindFollows(h, |h|, Run(h).kind)
  {
    if h != [] {
      var n := |h| - 1;
      KindIsLastMark(h[..n]);
      RunArmed(h[..n]);
      ArmedAgrees(h, n, n);
      if Marks(h, n) {
        assert LastMark(h, n, |h|);
        assert Tells(h[n].driver, Run(h).kind);
      } else if h[n] != Request(Disarm) {
        KindStays(h, Run(h).kind);
      }
    }
  }

  /** When an interrupt wakes the client, by history alone: the bus is armed, and either a write is
      there to be fetched or the last thing that happened was a stop. */
  lemma {:induction false} WakesIff(h: seq<Event>, d: DriverEvent)
    ensures var g := h + [Irq(d)];
            Wakes(AfterIrq(Run(h), d)) <==>
              && ArmedBefore(g, |g|)
              && ((exists i: nat :: Latest(g, i, |g|))
                  || exists i: nat :: LastMark(g, i, |g|) && g[i].driver.Stopped?)
  {
    var g := h + [Irq(d)];
    assert g[..|h|] == h;
    RunArmed(g);
    LatchRefinesHistory(g);
    KindIsLastMark(g);
  }

  /** A receive answers with the one write that survived up to it, as far as the caller's limit and
      the reply's room go, and the kind of the last event; it reports no data exactly when there is
      no such write. */
  lemma {:induction false} ReceiveDeliversLatest(h: seq<Event>, j: nat)
    requires j < |h| && h[j].Request? && h[j].cmd.Receive?
    ensures ReplyAt(h, j) == Empty <==> !exists i: nat :: Latest(h, i, j)
    ensures forall i: nat :: Latest(h, i, j) ==>
              && ReplyAt(h, j).Delivered?
              && var data := h[i].driver.drained.value;
                 ReplyAt(h, j).bytes == data[..Min(|data|, Min(h[j].cmd.max, 507))]
    ensures ReplyAt(h, j).Delivered? ==> KindFollows(h, j, ReplyAt(h, j).kind)
  {
    var g := h[..j];
    LatchRefinesHistory(g);
    KindIsLastMark(g);
    forall i | 0 <= i < j ensures Latest(g, i, j) <==> Latest(h, i, j) {
      PrefixAgrees(h, j, i);
    }
    if i: nat :| Latest(h, i, j) {
      assert Latest(g, i, j);
    }
    KindAgrees(h, j, Run(g).kind);
  }

  lemma {:induction false} KindAgrees(h: seq<Event>, n: nat, kind: EventKind)
    requires n <= |h| && KindFollows(h[..n], n, kind)
    ensures KindFollows(h, n, kind)
  {
    forall i: nat | i < n ensures LastMark(h[..n], i, n) <==> LastMark(h, i, n) { MarkAgrees(h, n, i); }
    if forall i: nat :: !LastMark(h, i, n) {
      forall i: nat ensures !LastMark(h[..n], i, n) {
        if i < n { assert !LastMark(h, i, n); }
      }
    }
  }

  /** Every delivery has its own write: two deliveries come from writes on either side of the first. */
  lemma {:induction false} DeliveriesHaveOwnWrites(h: seq<Event>, j: nat, j': nat) returns (i: nat, i': nat)
    requires j < j' < |h|
    requires ReplyAt(h, j).Delivered? && ReplyAt(h, j').Delivered?
    ensures i < j < i' < j' && Arrives(h, i) && Arrives(h, i')
    ensures ReplyAt(h, j).bytes <= h[i].driver.drained.value
    ensures ReplyAt(h, j').bytes <= h[i'].driver.drained.value
  {
    i := DeliveredWrite(h, j);
    i' := DeliveredWrite(h, j');
  }

  lemma {:induction false} DeliveredWrite(h: seq<Event>, j: nat) returns (i: nat)
    requires j < |h| && ReplyAt(h, j).Delivered?
    ensures Latest(h, i, j) && ReplyAt(h, j).bytes <= h[i].driver.drained.value
  {
    ReceiveDeliversLatest(h, j);
    i :| Latest(h, i, j);
  }

  // ---- many buses behind one wait group ----

  /** One served bus: its channel handle, its interrupt handle and its latch. */
  datatype Bus = Bus(channel: u32, irq: u32, latch: Latch)

  /** A wake-up, as the loop sees it: which object, and what happened. */
  datatype Wake = OnIrq(irq: u32, driver: DriverEvent) | OnChannel(channel: u32, cmd: Command)

  predicate Matches(b: Bus, w: Wake) {
    match w
    case OnIrq(irq, _) => b.irq == irq
    case OnChannel(channel, _) => b.channel == channel
  }

  function Body(w: Wake): Event {
    match w
    case OnIrq(_, d) => Irq(d)
    case OnChannel(_, cmd) => Request(cmd)
  }

  /** The first matching bus is served; an unknown handle is ignored. */
  function WorldStep(buses: seq<Bus>, w: Wake): (r: seq<Bus>)
    ensures |r| == |buses|
  {
    if buses == [] then []
    else if Matches(buses[0], w) then [buses[0].(latch := Step(buses[0].latch, Body(w)).0)] + buses[1..]
    else [buses[0]] + WorldStep(buses[1..], w)
  }

  function WorldRun(buses: seq<Bus>, ws: seq<Wake>): (r: seq<Bus>)
    ensures |r| == |buses|
  {
    if ws == [] then buses else WorldStep(WorldRun(buses, ws[..|ws| - 1]), ws[|ws| - 1])
  }

  /** The events one bus gets to see. */
  function Mine(b: Bus, ws: seq<Wake>): seq<Event> {
    if ws == [] then []
    else
      var w := ws[|ws| - 1];
      Mine(b, ws[..|ws| - 1]) + if Matches(b, w) then [Body(w)] else []
  }

  ghost predicate Distinct(buses: seq<Bus>) {
    forall i, j :: 0 <= i < j < |buses| ==> buses[i].channel != buses[j].channel && buses[i].irq != buses[j].irq
  }

  lemma {:induction false} WorldStepAt(buses: seq<Bus>, w: Wake, i: nat)
    requires Distinct(buses) && i < |buses|
    ensures WorldStep(buses, w)[i] ==
            if Matches(buses[i], w) then buses[i].(latch := Step(buses[i].latch, Body(w)).0) else buses[i]
  {
    if i > 0 {
      if !Matches(buses[0], w) {
        WorldStepAt(buses[1..], w, i - 1);
      }
    }
  }

  lemma {:induction false} WorldRunKeepsHandles(buses: seq<Bus>, ws: seq<Wake>)
    requires Distinct(buses)
    ensures forall k :: 0 <= k < |buses| ==> WorldRun(buses, ws)[k].(latch := buses[k].latch) == buses[k]
  {
    if ws != [] {
      var before := WorldRun(buses, ws[..|ws| - 1]);
      WorldRunKeepsHandles(buses, ws[..|ws| - 1]);
      assert Distinct(before) by {
        forall k | 0 <= k < |buses| ensures before[k].channel == buses[k].channel && before[k].irq == buses[k].irq {
          assert before[k].(latch := buses[k].latch) == buses[k];
        }
      }
      forall k | 0 <= k < |buses| ensures WorldRun(buses, ws)[k].(latch := buses[k].latch) == buses[k] {
        WorldStepAt(before, ws[|ws| - 1], k);
        assert before[k].(latch := buses[k].latch) == buses[k];
      }
    }
  }

  /** Buses never interfere: under any interleaving, each ends exactly where its own events lead. */
  lemma {:induction false} BusesDoNotInterfere(buses: seq<Bus>, ws: seq<Wake>, i: nat)
    requires Distinct(buses) && i < |buses| && buses[i].latch == FRESH
    ensures WorldRun(buses, ws)[i] == buses[i].(latch := Run(Mine(buses[i], ws)))
  {
    if ws != [] {
      var n := |ws| - 1;
      var before := WorldRun(buses, ws[..n]);
      BusesDoNotInterfere(buses, ws[..n], i);
      WorldRunKeepsHandles(buses, ws[..n]);
      forall k | 0 <= k < |buses| ensures before[k].channel == buses[k].channel && before[k].irq == buses[k].irq {
        assert before[k].(latch := buses[k].latch) == buses[k];
      }
      WorldStepAt(before, ws[n], i);
      var mine := Mine(buses[i], ws);
      if Matches(buses[i], ws[n]) {
        assert mine[..|mine| - 1] == Mine(buses[i], ws[..n]);
        assert Run(mine) == Step(Run(mine[..|mine| - 1]), Body(ws[n])).0;
      } else {
        assert mine == Mine(buses[i], ws[..n]);
      }
    }
  }

  // ---- the state as the runtime holds it, and the reply bytes ----

  class BusSlot {
    var notifEnabled: bool
    const rx: array<u8>
    var rxLen: nat
    var rxEventKind: EventKind

    ghost predicate Valid()
      reads this
    {
      rx.Length == MAX_PAYLOAD_SIZE && rxLen <= MAX_PAYLOAD_SIZE
    }

    ghost function View(): Latch
      requires Valid()
      reads this, rx
    {
      Latch(notifEnabled, rx[..rxLen], rxEventKind)
    }

    constructor ()
      ensures fresh(rx) && Valid() && View() == FRESH
    {
      notifEnabled, rxLen, rxEventKind := false, 0, DataReceived;
      rx := new u8[MAX_PAYLOAD_SIZE](_ => 0);
    }

    /** Service the interrupt: drain into the latch, then decide whether to wake the client. */
    method OnIrq(e: DriverEvent) returns (wake: bool)
      requires Valid() && WellSized(Irq(e))
      modifies this, rx
      ensures Valid() && View() == AfterIrq(old(View()), e)
      ensures wake == Wakes(View())
    {
      if notifEnabled {
        match e {
          case WriteReceived(drained) =>
            rxEventKind := DataReceived;
            if drained.Some? {
              var bytes := drained.value;
              forall k | 0 <= k < |bytes| { rx[k] := bytes[k]; }
              if |bytes| > 0 {
                rxLen := |bytes|;
              }
            }
          case ReadWanted => rxEventKind := ReadRequest;
          case Stopped => rxEventKind := Stop;
          case _ =>
        }
      }
      wake := notifEnabled && (rxLen > 0 || rxEventKind == Stop);
    }

    /** Serve a latch command, encoding the reply into the shared response buffer. */
    method OnRequest(cmd: Command, response: array<u8>) returns (n: nat)
      requires Valid() && !cmd.Unrelated? && response.Length == MAX_BUF_SIZE && response != rx
      modifies this, response
      ensures Valid() && View() == Step(old(View()), Request(cmd)).0
      ensures n <= response.Length && response[..n] == ReplyBytes(Step(old(View()), Request(cmd)).1)
    {
      match cmd {
        case Arm =>
          notifEnabled := true;
          n := Put(response, ResponseHeader(0, 0));
        case Disarm =>
          notifEnabled, rxLen, rxEventKind := false, 0, DataReceived;
          n := Put(response, ResponseHeader(0, 0));
        case Receive(max) =>
          if rxLen == 0 {
            n := Put(response, ResponseHeader(ErrorByte(NoData), 0));
          } else {
            var count := Min(Min(rxLen, max), DATA_CAP);
            ghost var was := rx[..rxLen];
            n := Put(response, ResponseHeader(0, 1 + count) + [KindByte(rxEventKind)] + rx[..count]);
            rxLen := 0;
            assert was[..count] == rx[..count];
          }
      }
    }
  }

  method Put(response: array<u8>, bytes: seq<u8>) returns (n: nat)
    requires |bytes| <= response.Length
    modifies response
    ensures n == |bytes| && response[..n] == bytes
  {
    forall k | 0 <= k < |bytes| { response[k] := bytes[k]; }
    n := |bytes|;
  }

  function ReplyBytes(r: Reply): seq<u8>
    requires r.Delivered? ==> |r.bytes| <= DATA_CAP
  {
    match r
    case Silent => []
    case Ack => ResponseHeader(0, 0)
    case Empty => ResponseHeader(ErrorByte(NoData), 0)
    case Delivered(kind, bytes) => ResponseHeader(0, 1 + |bytes|) + [KindByte(kind)] + bytes
  }

  // ---- the client's side of a receive ----

  datatype Received = Received(kind: EventKind, buf: seq<u8>, dataLen: nat, truncated: bool)
  datatype ReceiveResult = Ok(event: Received) | ServerError(status: I2cError) | InvalidResponse

  /** The byte count the client asks for, given its buffer. */
  function AskFor(bufLen: nat): nat {
    Min(if bufLen == 0 then 0 else bufLen - 1, MAX_PAYLOAD_SIZE)
  }

  /** How the client decodes a receive reply into a buffer that holds `buf`. */
  function DecodeReceive(reply: seq<u8>, buf: seq<u8>): ReceiveResult {
    if |reply| < RESPONSE_HEADER then InvalidResponse
    else if reply[0] != 0 then ServerError(ErrorFromByte(reply[0]))
    else
      var n := FromLe16(reply[2..4]);
      if |reply| < RESPONSE_HEADER + n || n < 1 || KindFromByte(reply[RESPONSE_HEADER]).None? then InvalidResponse
      else
        var copy := Min(n - 1, |buf|);
        Ok(Received(KindFromByte(reply[RESPONSE_HEADER]).value,
                    reply[RESPONSE_HEADER + 1..RESPONSE_HEADER + 1 + copy] + buf[copy..], copy, n - 1 > copy))
  }

  /** The client's response buffer. */
  const CLIENT_RESPONSE: nat := RESPONSE_HEADER + MAX_PAYLOAD_SIZE

  /** Receive through the wire returns the latched bytes, the event kind and nothing else; the
      `truncated` flag is never raised, since the server already cut the data to what was asked. The
      reply fits the client's response buffer unless the latch is full and the caller's buffer is
      larger than it. */
  lemma {:induction false} ReceiveRoundTrip(l: Latch, buf: seq<u8>)
    requires |l.rx| <= MAX_PAYLOAD_SIZE
    ensures var (after, reply) := Step(l, Request(Receive(AskFor(|buf|))));
            var got := DecodeReceive(ReplyBytes(reply), buf);
            && after.rx == []
            && (|ReplyBytes(reply)| <= CLIENT_RESPONSE <==> |l.rx| < MAX_PAYLOAD_SIZE || |buf| <= MAX_PAYLOAD_SIZE)
            && (l.rx == [] ==> got == ServerError(NoData))
            && (l.rx != [] ==>
                 var n := Min(|l.rx|, AskFor(|buf|));
                 got == Ok(Received(l.kind, l.rx[..n] + buf[n..], n, false)))
  {
    var n := Min(|l.rx|, AskFor(|buf|));
    if l.rx != [] {
      DecodeUndoesReply(l.kind, l.rx[..n], buf);
    }
  }

  /** Arming and disarming always succeed: status 0 and no payload, whatever is latched. */
  lemma {:induction false} CommandsAreAcknowledged(l: Latch, cmd: Command)
    requires cmd == Arm || cmd == Disarm
    ensures ReplyBytes(Step(l, Request(cmd)).1) == [0, 0, 0, 0]
  {}

  /** A full latch and a caller's buffer with room for it: the reply is one byte too long. */
  lemma {:induction false} FullLatchOverflowsReply(l: Latch, buf: seq<u8>)
    requires |l.rx| == 256 && |buf| == 257
    ensures |ReplyBytes(Step(l, Request(Receive(AskFor(|buf|)))).1)| == CLIENT_RESPONSE + 1
  {
    ReceiveRoundTrip(l, buf);
  }

  lemma {:induction false} DecodeUndoesReply(kind: EventKind, data: seq<u8>, buf: seq<u8>)
    requires |data| <= DATA_CAP && |data| <= |buf|
    ensures DecodeReceive(ReplyBytes(Delivered(kind, data)), buf)
            == Ok(Received(kind, data + buf[|data|..], |data|, false))
  {
    var bytes := ReplyBytes(Delivered(kind, data));
    assert bytes[2..4] == Le16(1 + |data|);
    assert bytes[RESPONSE_HEADER] == KindByte(kind);
    assert bytes[RESPONSE_HEADER + 1..RESPONSE_HEADER + 1 + |data|] == data;
  }
}
