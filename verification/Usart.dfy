/** The USART server loop and its client: requests answered at once, except a read that finds no data,
    which is parked until the receive interrupt. */
module Usart {
  import opened Bytes

  const REQUEST_HEADER: nat := 8
  const RESPONSE_HEADER: nat := 4
  const MAX_RESPONSE_SIZE: nat := 512
  const CAPACITY: nat := MAX_RESPONSE_SIZE - RESPONSE_HEADER
  const RX_DATA_AVAILABLE: u16 := 1

  datatype UsartError =
    | InvalidOperation | InvalidConfiguration | BufferTooSmall | Busy | Timeout | WouldBlock | InternalError

  function ErrorByte(e: UsartError): u8 {
    match e
    case InvalidOperation => 1
    case InvalidConfiguration => 2
    case BufferTooSmall => 3
    case Busy => 4
    case Timeout => 5
    case WouldBlock => 6
    case InternalError => 0xFF
  }

  /** What the backend does with one call: bytes (for a read, at most the room it is given), or an error. */
  datatype Backend = Data(bytes: seq<u8>) | Fails(error: UsartError)

  /** An operation a client asks for, and a call of the backend. */
  datatype Op =
    | Configure(baud: u32)
    | Write(data: seq<u8>)
    | Read(size: nat)
    | LineStatus
    | EnableIrq(mask: nat)
    | DisableIrq(mask: nat)
    | TryRead(size: nat)

  /** The operation of a request, or the error it is answered with at once. */
  datatype Request = Malformed(error: UsartError) | Ask(op: Op)

  /** Interrupt masks are cut to the two known sources. */
  function Parse(request: seq<u8>): Request {
    if |request| < REQUEST_HEADER then Malformed(InvalidOperation)
    else if !(1 <= request[0] <= 7) then Malformed(InvalidOperation)
    else
      var arg0, arg1, len := FromLe16(request[2..4]), FromLe16(request[4..6]), FromLe16(request[6..8]);
      if |request| < REQUEST_HEADER + len then Malformed(InvalidOperation)
      else
        match request[0]
        case 1 => Ask(Configure(arg0 + 0x1_0000 * arg1))
        case 2 => Ask(Write(request[REQUEST_HEADER..REQUEST_HEADER + len]))
        case 3 => Ask(Read(arg0))
        case 4 => Ask(LineStatus)
        case 5 => Ask(EnableIrq(arg0 % 4))
        case 6 => Ask(DisableIrq(arg0 % 4))
        case _ => Ask(TryRead(arg0))
  }

  function ErrorResponse(e: UsartError): (r: seq<u8>)
    ensures |r| == RESPONSE_HEADER
  {
    [ErrorByte(e), 0, 0, 0]
  }

  function DataResponse(bytes: seq<u8>): seq<u8>
    requires |bytes| <= CAPACITY
  {
    [0, 0] + Le16(|bytes|) + bytes
  }

  /** How many bytes an operation can bring back. */
  function Room(op: Op): (n: nat)
    ensures n <= CAPACITY
  {
    match op
    case Read(size) => Min(size, CAPACITY)
    case TryRead(size) => Min(size, CAPACITY)
    case LineStatus => 1
    case _ => 0
  }

  /** The backend call of an operation: a read is given the room there is. */
  function BackendCall(op: Op): Op {
    match op
    case Read(_) => Read(Room(op))
    case TryRead(_) => TryRead(Room(op))
    case _ => op
  }

  /** The response to a backend's answer. */
  function Answer(b: Backend, room: nat): (r: seq<u8>)
    requires room <= CAPACITY
    ensures |r| <= MAX_RESPONSE_SIZE
  {
    match b
    case Data(bytes) => DataResponse(bytes[..Min(|bytes|, room)])
    case Fails(e) => ErrorResponse(e)
  }

  /** The parked read: who asked, and for how much. */
  datatype Parked = Parked(channel: u32, size: nat)

  datatype Outcome = Respond(bytes: seq<u8>) | Queued

  /** One turn of the loop: the parked slot, what happens to the request and the backend calls made. */
  datatype Turn = Turn(pending: Option<Parked>, outcome: Outcome, calls: seq<Op>)

  function Dispatch(pending: Option<Parked>, channel: u32, request: seq<u8>, b: Backend): Turn {
    match Parse(request)
    case Malformed(e) => Turn(pending, Respond(ErrorResponse(e)), [])
    case Ask(op) =>
      if op.TryRead? && b == Fails(WouldBlock) then
        if pending.Some? then Turn(pending, Respond(ErrorResponse(Timeout)), [BackendCall(op)])
        else Turn(Some(Parked(channel, op.size)), Queued, [BackendCall(op), EnableIrq(RX_DATA_AVAILABLE)])
      else Turn(pending, Respond(Answer(b, Room(op))), [BackendCall(op)])
  }

  /** The receive interrupt: complete the parked read, or leave it parked and arm the interrupt again. */
  function Interrupt(pending: Option<Parked>, b: Backend): Turn {
    if pending.None? then Turn(None, Queued, [])
    else
      var call := BackendCall(TryRead(pending.value.size));
      match b
      case Data(_) => Turn(None, Respond(Answer(b, call.size)), [DisableIrq(RX_DATA_AVAILABLE), call])
      case Fails(_) =>
        Turn(pending, Queued, [DisableIrq(RX_DATA_AVAILABLE), call, EnableIrq(RX_DATA_AVAILABLE)])
  }

  // ---- the objects of the loop ----

  /** The device behind the server, with the calls it got; what it answers is up to the caller. */
  class Uart {
    var calls: seq<Op>

    constructor ()
      ensures calls == []
    {
      calls := [];
    }

    method Do(op: Op, answer: Backend) returns (b: Backend)
      modifies this
      ensures calls == old(calls) + [op] && b == answer
    {
      calls := calls + [op];
      b := answer;
    }
  }

  class PendingRead {
    var channel: Option<u32>
    var requestedSize: nat

    constructor ()
      ensures V() == None
    {
      channel, requestedSize := None, 0;
    }

    function V(): Option<Parked>
      reads this
    {
      if channel.Some? then Some(Parked(channel.value, requestedSize)) else None
    }

    method Park(channel: u32, size: nat) returns (ok: bool)
      modifies this
      ensures ok == old(V()).None?
      ensures V() == if ok then Some(Parked(channel, size)) else old(V())
    {
      if this.channel.Some? {
        return false;
      }
      this.channel, requestedSize := Some(channel), size;
      ok := true;
    }

    method Take() returns (p: Option<Parked>)
      modifies this
      ensures V() == None && p == old(V())
    {
      p := V();
      channel := None;
    }
  }

  method Put(response: array<u8>, bytes: seq<u8>) returns (n: nat)
    requires |bytes| <= response.Length
    modifies response
    ensures n == |bytes| && response[..n] == bytes
  {
    forall k | 0 <= k < |bytes| { response[k] := bytes[k]; }
    n := |bytes|;
  }

  /** `ok` is what interrupt control calls return; the loop ignores it. */
  method DispatchRequest(uart: Uart, pending: PendingRead, channel: u32, request: seq<u8>, answer: Backend,
                         ok: Backend, response: array<u8>)
    returns (queued: bool, n: nat)
    requires response.Length == MAX_RESPONSE_SIZE
    modifies uart, pending, response
    ensures var turn := Dispatch(old(pending.V()), channel, request, answer);
            && pending.V() == turn.pending
            && uart.calls == old(uart.calls) + turn.calls
            && queued == turn.outcome.Queued?
            && n <= response.Length
            && (!queued ==> response[..n] == turn.outcome.bytes)
  {
    queued, n := false, 0;
    match Parse(request)
    case Malformed(e) =>
      n := Put(response, ErrorResponse(e));
    case Ask(op) =>
      var b := uart.Do(BackendCall(op), answer);
      if op.TryRead? && b == Fails(WouldBlock) {
        var parked := pending.Park(channel, op.size);
        if !parked {
          n := Put(response, ErrorResponse(Timeout));
        } else {
          var _ := uart.Do(EnableIrq(RX_DATA_AVAILABLE), ok);
          queued := true;
        }
      } else {
        n := Put(response, Answer(b, Room(op)));
      }
  }

  /** The interrupt path: complete the parked read, or park it again. The result of that second park
      is ignored by the caller; it is always true. */
  method OnInterrupt(uart: Uart, pending: PendingRead, answer: Backend, ok: Backend, response: array<u8>)
    returns (to: Option<u32>, n: nat)
    requires response.Length == MAX_RESPONSE_SIZE
    modifies uart, pending, response
    ensures var turn := Interrupt(old(pending.V()), answer);
            && pending.V() == turn.pending
            && uart.calls == old(uart.calls) + turn.calls
            && n <= response.Length
            && (turn.outcome.Queued? ==> to == None)
            && (turn.outcome.Respond? ==>
                 to == Some(old(pending.V()).value.channel) && response[..n] == turn.outcome.bytes)
  {
    n := 0;
    var p := pending.Take();
    if p.None? {
      return None, 0;
    }
    var _ := uart.Do(DisableIrq(RX_DATA_AVAILABLE), ok);
    var room := Min(p.value.size, CAPACITY);
    var b := uart.Do(TryRead(room), answer);
    match b
    case Fails(_) =>
      var _ := uart.Do(EnableIrq(RX_DATA_AVAILABLE), ok);
      var again := pending.Park(p.value.channel, p.value.size);
      assert again;
      to := None;
    case Data(_) =>
      n := Put(response, Answer(b, room));
      to := Some(p.value.channel);
  }

  // ---- every run of the loop ----

  datatype Wake = Readable(channel: u32, request: seq<u8>, backend: Backend) | Irq(backend: Backend) | Nothing

  /** A response sent: to which request (its position in the run), on which channel, with what. */
  datatype Sent = Sent(request: nat, channel: u32, bytes: seq<u8>)

  /** The loop's state with the position of the parked request. */
  datatype Loop = Loop(parked: Option<(nat, Parked)>, sent: seq<Sent>, calls: seq<Op>)

  function Slot(l: Loop): Option<Parked> {
    if l.parked.Some? then Some(l.parked.value.1) else None
  }

  function Step(l: Loop, j: nat, w: Wake): Loop {
    match w
    case Nothing => l
    case Readable(channel, request, b) =>
      var turn := Dispatch(Slot(l), channel, request, b);
      var calls := l.calls + turn.calls;
      if turn.outcome.Respond? then Loop(l.parked, l.sent + [Sent(j, channel, turn.outcome.bytes)], calls)
      else Loop(if turn.pending.Some? then Some((j, turn.pending.value)) else None, l.sent, calls)
    case Irq(b) =>
      var turn := Interrupt(Slot(l), b);
      var calls := l.calls + turn.calls;
      if turn.outcome.Queued? || l.parked.None? then l.(calls := calls)
      else Loop(None, l.sent + [Sent(l.parked.value.0, l.parked.value.1.channel, turn.outcome.bytes)], calls)
  }

  function Run(ws: seq<Wake>): Loop {
    if ws == [] then Loop(None, [], []) else Step(Run(ws[..|ws| - 1]), |ws| - 1, ws[|ws| - 1])
  }

  ghost predicate Answered(l: Loop, j: nat) {
    exists k :: 0 <= k < |l.sent| && l.sent[k].request == j
  }

  /** Position `j` is a request waiting in the parked slot. */
  predicate Waiting(l: Loop, j: nat) {
    l.parked.Some? && l.parked.value.0 == j
  }

  /** A read gets at most what it asked for. */
  predicate Sized(request: seq<u8>, response: seq<u8>) {
    match Parse(request)
    case Ask(TryRead(size)) => |response| <= RESPONSE_HEADER + size
    case Ask(Read(size)) => |response| <= RESPONSE_HEADER + size
    case _ => true
  }

  ghost predicate ProperAnswer(ws: seq<Wake>, s: Sent) {
    && s.request < |ws| && ws[s.request].Readable?
    && s.channel == ws[s.request].channel && Sized(ws[s.request].request, s.bytes)
  }

  /** Each answer goes to its own request's channel and fits what was asked; the parked read is a
      request that was read. */
  ghost predicate Proper(ws: seq<Wake>, l: Loop) {
    && (forall k :: 0 <= k < |l.sent| ==> ProperAnswer(ws, l.sent[k]))
    && (l.parked.Some? ==>
         var (j, p) := l.parked.value;
         && j < |ws| && ws[j].Readable? && p.channel == ws[j].channel && Parse(ws[j].request) == Ask(TryRead(p.size)))
  }

  /** Every request read is answered once or is the one waiting, never both. */
  ghost predicate Conserved(ws: seq<Wake>, l: Loop) {
    && (forall j: nat :: j < |ws| && ws[j].Readable? ==> Answered(l, j) || Waiting(l, j))
    && (forall j: nat :: Waiting(l, j) ==> !Answered(l, j))
    && (forall k, m :: 0 <= k < m < |l.sent| ==> l.sent[k].request != l.sent[m].request)
  }

  lemma {:induction false} AnswersAreProper(ws: seq<Wake>)
    ensures Proper(ws, Run(ws))
  {
    if ws != [] {
      var n := |ws| - 1;
      AnswersAreProper(ws[..n]);
      forall k | 0 <= k < |Run(ws[..n]).sent| ensures ProperAnswer(ws, Run(ws[..n]).sent[k]) {
        assert ProperAnswer(ws[..n], Run(ws[..n]).sent[k]);
      }
      var l := Run(ws[..n]);
      if l.parked.Some? {
        assert ws[..n][l.parked.value.0] == ws[l.parked.value.0];
      }
      if Run(ws).parked != l.parked && Run(ws).parked.Some? {
        assert Run(ws).parked.value.0 == n;
      }
    }
  }

  lemma {:induction false} AnsweredGrows(l: Loop, s: Sent, j: nat)
    ensures Answered(l.(sent := l.sent + [s]), j) <==> Answered(l, j) || s.request == j
  {
    var more := l.sent + [s];
    if Answered(l, j) {
      var k :| 0 <= k < |l.sent| && l.sent[k].request == j;
      assert more[k].request == j;
    }
    if s.request == j {
      assert more[|l.sent|].request == j;
    }
  }

  /** Sending an answer that was not sent before, and taking its request off the slot if it was there. */
  lemma {:induction false} SendKeepsConserved(ws: seq<Wake>, l: Loop, s: Sent, parked: Option<(nat, Parked)>,
                                              calls: seq<Op>)
    requires ws != [] && Conserved(ws[..|ws| - 1], l) && !Answered(l, s.request)
    requires if s.request == |ws| - 1 then parked == l.parked && !Waiting(l, s.request)
             else Waiting(l, s.request) && parked == None && !ws[|ws| - 1].Readable?
    ensures Conserved(ws, Loop(parked, l.sent + [s], calls))
  {
    var after := Loop(parked, l.sent + [s], calls);
    forall j: nat ensures Answered(after, j) <==> Answered(l, j) || s.request == j {
      AnsweredGrows(l, s, j);
      assert Answered(after, j) <==> Answered(l.(sent := l.sent + [s]), j);
    }
  }

  /** Over every run: requests read are responses sent plus the one that may be parked; each is
      answered at most once, on its own channel, with at most the bytes it asked for. */
  lemma {:induction false} RequestsAreConserved(ws: seq<Wake>)
    ensures Conserved(ws, Run(ws)) && Proper(ws, Run(ws))
  {
    AnswersAreProper(ws);
    if ws != [] {
      var n := |ws| - 1;
      RequestsAreConserved(ws[..n]);
      var l, w := Run(ws[..n]), ws[n];
      assert !Answered(l, n) && !Waiting(l, n) by { NotYet(ws[..n], l); }
      match w {
        case Nothing =>
        case Readable(channel, request, b) =>
          var turn := Dispatch(Slot(l), channel, request, b);
          if turn.outcome.Respond? {
            SendKeepsConserved(ws, l, Sent(n, channel, turn.outcome.bytes), l.parked, l.calls + turn.calls);
          } else {
            assert forall j: nat :: Answered(Run(ws), j) <==> Answered(l, j);
          }
        case Irq(b) =>
          if l.parked.Some? && b.Data? {
            var (j, p) := l.parked.value;
            assert Waiting(l, j);
            var turn := Interrupt(Some(p), b);
            SendKeepsConserved(ws, l, Sent(j, p.channel, turn.outcome.bytes), None, l.calls + turn.calls);
          } else {
            assert forall j: nat :: Answered(Run(ws), j) <==> Answered(l, j);
          }
      }
    }
  }

  lemma {:induction false} NotYet(ws: seq<Wake>, l: Loop)
    requires Proper(ws, l)
    ensures !Answered(l, |ws|) && !Waiting(l, |ws|)
  {
    forall k | 0 <= k < |l.sent| ensures l.sent[k].request < |ws| {
      assert ProperAnswer(ws, l.sent[k]);
    }
  }

  function Requests(ws: seq<Wake>): nat {
    if ws == [] then 0 else Requests(ws[..|ws| - 1]) + if ws[|ws| - 1].Readable? then 1 else 0
  }

  /** The same as a count. */
  lemma {:induction false} RequestsCount(ws: seq<Wake>)
    ensures Requests(ws) == |Run(ws).sent| + if Run(ws).parked.Some? then 1 else 0
  {
    if ws != [] { RequestsCount(ws[..|ws| - 1]); }
  }

  /** A read that finds no data is answered with a timeout, never with busy, exactly when another read
      is parked; otherwise it is parked itself and gets no answer yet. */
  lemma {:induction false} SecondBlockedReadTimesOut(ws: seq<Wake>, channel: u32, request: seq<u8>)
    requires var p := Parse(request); p.Ask? && p.op.TryRead?
    ensures var n, l, after := |ws|, Run(ws), Run(ws + [Readable(channel, request, Fails(WouldBlock))]);
            && (after.sent == l.sent + [Sent(n, channel, ErrorResponse(Timeout))] <==> l.parked.Some?)
            && (l.parked.Some? ==> after.parked == l.parked)
            && (l.parked.None? ==>
                 after.parked == Some((n, Parked(channel, Parse(request).op.size))) && after.sent == l.sent)
    ensures ErrorResponse(Timeout) != ErrorResponse(Busy)
  {
    var w := Readable(channel, request, Fails(WouldBlock));
    assert (ws + [w])[..|ws|] == ws;
    assert ErrorResponse(Timeout)[0] != ErrorResponse(Busy)[0];
  }

  // ---- what every request is answered with, by history alone ----

  /** Request `j` is a non-blocking read that finds no data. */
  predicate Blocked(ws: seq<Wake>, j: nat) {
    j < |ws| && ws[j].Readable? && ws[j].backend == Fails(WouldBlock)
    && var p := Parse(ws[j].request); p.Ask? && p.op.TryRead?
  }

  /** An interrupt at which the backend has data. */
  predicate Delivers(ws: seq<Wake>, k: nat) {
    k < |ws| && ws[k].Irq? && ws[k].backend.Data?
  }

  /** A blocked read is parked unless an earlier one is still waiting for data. */
  ghost predicate Parks(ws: seq<Wake>, j: nat)
    decreases j, 0
  {
    Blocked(ws, j) && !exists i :: 0 <= i < j && Holds(ws, i, j)
  }

  /** Request `i` was parked and no data has come up to `n`. */
  ghost predicate Holds(ws: seq<Wake>, i: nat, n: nat)
    decreases i, 1
  {
    Parks(ws, i) && forall k :: i < k < n ==> !Delivers(ws, k)
  }

  lemma {:induction false} ParksAgrees(ws: seq<Wake>, n: nat, j: nat)
    requires j < n <= |ws|
    ensures Parks(ws[..n], j) <==> Parks(ws, j)
    decreases j
  {
    forall i | 0 <= i < j ensures Holds(ws[..n], i, j) <==> Holds(ws, i, j) {
      ParksAgrees(ws, n, i);
      assert forall k :: i < k < j ==> Delivers(ws[..n], k) == Delivers(ws, k);
    }
  }

  lemma {:induction false} HoldsAgrees(ws: seq<Wake>, n: nat, j: nat)
    requires j < n <= |ws|
    ensures Holds(ws[..n], j, n) <==> Holds(ws, j, n)
  {
    ParksAgrees(ws, n, j);
    assert forall k :: j < k < n ==> Delivers(ws[..n], k) == Delivers(ws, k);
  }

  /** The slot holds exactly the request that, by history, is still waiting. */
  lemma {:induction false} SlotIsTheOneWaiting(ws: seq<Wake>)
    ensures forall j: nat :: j < |ws| ==> (Waiting(Run(ws), j) <==> Holds(ws, j, |ws|))
    ensures Proper(ws, Run(ws))
  {
    AnswersAreProper(ws);
    if ws != [] {
      var n := |ws| - 1;
      var l := Run(ws[..n]);
      SlotIsTheOneWaiting(ws[..n]);
      forall j: nat | j < n ensures Holds(ws, j, n) <==> Waiting(l, j) { HoldsAgrees(ws, n, j); }
      SlotAtEnd(ws, n, l);
      forall j: nat | j < |ws| ensures Waiting(Run(ws), j) <==> Holds(ws, j, |ws|) {
        if j < n {
          assert Holds(ws, j, |ws|) <==> Holds(ws, j, n) && !Delivers(ws, n);
        } else {
          assert Holds(ws, n, |ws|) <==> Parks(ws, n);
        }
      }
    }
  }

  lemma {:induction false} SlotAtEnd(ws: seq<Wake>, n: nat, l: Loop)
    requires n < |ws| && (forall j: nat :: j < n ==> (Holds(ws, j, n) <==> Waiting(l, j)))
    requires Proper(ws[..n], l)
    ensures Parks(ws, n) <==> Blocked(ws, n) && l.parked.None?
  {
    if l.parked.Some? {
      var j := l.parked.value.0;
      assert Waiting(l, j) && Holds(ws, j, n);
    }
  }

  /** `response` is what the backend's answer amounts to: its bytes as far as there is room, with
      status 0 and their number, or the status of its error alone. */
  ghost predicate Conveys(response: seq<u8>, b: Backend, room: nat) {
    && |response| >= 4 && response[1] == 0
    && match b
       case Data(bytes) =>
         var m := if |bytes| <= room then |bytes| else room;
         && |response| == 4 + m && response[0] == 0 && response[4..] == bytes[..m]
         && response[2] as int + 256 * response[3] as int == m
       case Fails(e) => |response| == 4 && response[0] == ErrorByte(e) && response[2] == response[3] == 0
  }

  /** The room a request leaves for data: what it asks for, up to the 508 bytes of a response. */
  ghost predicate HasRoom(op: Op, room: nat) {
    match op
    case Read(size) => room == if size <= 508 then size else 508
    case TryRead(size) => room == if size <= 508 then size else 508
    case LineStatus => room == 1
    case _ => room == 0
  }

  lemma {:induction false} AnswerConveys(b: Backend, op: Op)
    ensures HasRoom(op, Room(op)) && Conveys(Answer(b, Room(op)), b, Room(op))
  {
    if b.Data? {
      var m := Min(|b.bytes|, Room(op));
      var r := Answer(b, Room(op));
      assert r[2..4] == Le16(m);
      assert r[4..] == b.bytes[..m];
    }
  }

  /** What the loop sent for request `j` of a run. */
  ghost predicate SentWith(ws: seq<Wake>, j: nat, b: Backend, room: nat) {
    exists k :: 0 <= k < |Run(ws).sent| && Is(Run(ws).sent[k], ws, j, b, room)
  }

  ghost predicate Is(s: Sent, ws: seq<Wake>, j: nat, b: Backend, room: nat) {
    s.request == j < |ws| && ws[j].Readable? && s.channel == ws[j].channel && Conveys(s.bytes, b, room)
  }

  lemma {:induction false} SentGrows(ws: seq<Wake>, n: nat)
    requires n <= |ws|
    ensures Run(ws[..n]).sent <= Run(ws).sent
    decreases |ws|
  {
    if n == |ws| {
      assert ws[..n] == ws;
    } else {
      assert ws[..|ws| - 1][..n] == ws[..n];
      SentGrows(ws[..|ws| - 1], n);
    }
  }

  lemma {:induction false} SentStays(ws: seq<Wake>, n: nat, j: nat, b: Backend, room: nat)
    requires n <= |ws| && SentWith(ws[..n], j, b, room)
    ensures SentWith(ws, j, b, room)
  {
    SentGrows(ws, n);
    var k :| 0 <= k < |Run(ws[..n]).sent| && Is(Run(ws[..n]).sent[k], ws[..n], j, b, room);
    assert Is(Run(ws).sent[k], ws, j, b, room);
  }

  /** A response sent at step `n`. */
  lemma {:induction false} SentNow(ws: seq<Wake>, s: Sent, b: Backend, room: nat)
    requires ws != [] && Run(ws).sent == Run(ws[..|ws| - 1]).sent + [s] && Is(s, ws, s.request, b, room)
    ensures SentWith(ws, s.request, b, room)
  {
    var k := |Run(ws).sent| - 1;
    assert Run(ws).sent[k] == s;
  }

  /** A request answered in its own turn: malformed ones with an invalid operation, a read that may not
      wait with a timeout, everything else with what the backend said. */
  lemma {:induction false} AnsweredInTurn(ws: seq<Wake>, j: nat)
    requires j < |ws| && ws[j].Readable? && !Parks(ws, j)
    ensures var p := Parse(ws[j].request);
            && (p.Malformed? ==> SentWith(ws, j, Fails(InvalidOperation), 0))
            && (p.Ask? && Blocked(ws, j) ==> SentWith(ws, j, Fails(Timeout), 0))
            && (p.Ask? && !Blocked(ws, j) ==>
                 forall room: nat :: HasRoom(p.op, room) ==> SentWith(ws, j, ws[j].backend, room))
  {
    var before, upto := ws[..j], ws[..j + 1];
    var l, w, p := Run(before), ws[j], Parse(ws[j].request);
    assert upto[..j] == before && upto[j] == w;
    SlotIsTheOneWaiting(before);
    forall i: nat | i < j ensures Holds(ws, i, j) <==> Waiting(l, i) { HoldsAgrees(ws, j, i); }
    SlotAtEnd(ws, j, l);
    var turn := Dispatch(Slot(l), w.channel, w.request, w.backend);
    var s := Sent(j, w.channel, turn.outcome.bytes);
    if p.Malformed? {
      SentNow(upto, s, Fails(InvalidOperation), 0);
      SentStays(ws, j + 1, j, Fails(InvalidOperation), 0);
    } else if Blocked(ws, j) {
      SentNow(upto, s, Fails(Timeout), 0);
      SentStays(ws, j + 1, j, Fails(Timeout), 0);
    } else {
      AnswerConveys(w.backend, p.op);
      SentNow(upto, s, w.backend, Room(p.op));
      SentStays(ws, j + 1, j, w.backend, Room(p.op));
    }
  }

  /** A parked read is answered at the first interrupt with data, with that data, and not before. */
  lemma {:induction false} AnsweredByInterrupt(ws: seq<Wake>, j: nat)
    requires j < |ws| && Parks(ws, j)
    ensures Holds(ws, j, |ws|) ==> !Answered(Run(ws), j)
    ensures forall k: nat, room: nat ::
              j < k && Delivers(ws, k) && Holds(ws, j, k) && HasRoom(Parse(ws[j].request).op, room) ==>
              SentWith(ws, j, ws[k].backend, room)
  {
    RequestsAreConserved(ws);
    SlotIsTheOneWaiting(ws);
    forall k: nat, room: nat | j < k && Delivers(ws, k) && Holds(ws, j, k) && HasRoom(Parse(ws[j].request).op, room)
      ensures SentWith(ws, j, ws[k].backend, room)
    {
      Completed(ws, j, k);
      AnswerConveys(ws[k].backend, Parse(ws[j].request).op);
    }
  }

  lemma {:induction false} Completed(ws: seq<Wake>, j: nat, k: nat)
    requires j < k < |ws| && Parks(ws, j) && Holds(ws, j, k) && Delivers(ws, k)
    ensures SentWith(ws, j, ws[k].backend, Room(Parse(ws[j].request).op))
  {
    var op := Parse(ws[j].request).op;
    var s := Sent(j, ws[j].channel, Answer(ws[k].backend, Room(op)));
    InterruptSends(ws, j, k, s);
    AnswerConveys(ws[k].backend, op);
    SentNow(ws[..k + 1], s, ws[k].backend, Room(op));
    SentStays(ws, k + 1, j, ws[k].backend, Room(op));
  }

  lemma {:induction false} InterruptSends(ws: seq<Wake>, j: nat, k: nat, s: Sent)
    requires j < k < |ws| && Blocked(ws, j) && Holds(ws, j, k) && Delivers(ws, k)
    requires s == Sent(j, ws[j].channel, Answer(ws[k].backend, Room(Parse(ws[j].request).op)))
    ensures Run(ws[..k + 1]).sent == Run(ws[..k + 1][..k]).sent + [s]
  {
    var before := ws[..k];
    assert ws[..k + 1][..k] == before && before[j] == ws[j];
    SlotIsTheOneWaiting(before);
    HoldsAgrees(ws, k, j);
    assert Waiting(Run(before), j);
  }

  // ---- what reaches the backend ----

  /** The backend calls of a request, by history: its own call, a read being given the room there is;
      a read that is parked also arms the receive interrupt; a malformed request makes none. */
  lemma {:induction false} RequestCalls(ws: seq<Wake>) returns (call: Op)
    requires ws != [] && ws[|ws| - 1].Readable?
    ensures var n, p := |ws| - 1, Parse(ws[|ws| - 1].request);
            var before := Run(ws[..n]).calls;
            && (p.Malformed? ==> Run(ws).calls == before)
            && (p.Ask? ==>
                 && Passes(p.op, call)
                 && Run(ws).calls == before + [call] + (if Parks(ws, n) then [EnableIrq(1)] else []))
  {
    var n, p := |ws| - 1, Parse(ws[|ws| - 1].request);
    var l := Run(ws[..n]);
    SlotIsTheOneWaiting(ws[..n]);
    forall j: nat | j < n ensures Holds(ws, j, n) <==> Waiting(l, j) { HoldsAgrees(ws, n, j); }
    SlotAtEnd(ws, n, l);
    if p.Ask? {
      call := BackendCall(p.op);
      assert [call, EnableIrq(1)] == [call] + [EnableIrq(1)];
    } else {
      call := LineStatus;
    }
  }

  /** The backend calls of an interrupt while read `j` waits: disarm, try again, and arm again if there
      is still no data. */
  lemma {:induction false} InterruptCalls(ws: seq<Wake>, j: nat, room: nat)
    requires ws != [] && ws[|ws| - 1].Irq? && j < |ws| - 1 && Blocked(ws, j) && Holds(ws, j, |ws| - 1)
    requires HasRoom(Parse(ws[j].request).op, room)
    ensures Run(ws).calls == Run(ws[..|ws| - 1]).calls + [DisableIrq(1), TryRead(room)]
                             + if ws[|ws| - 1].backend.Data? then [] else [EnableIrq(1)]
  {
    var n := |ws| - 1;
    var l, b := Run(ws[..n]), ws[n].backend;
    SlotIsTheOneWaiting(ws[..n]);
    HoldsAgrees(ws, n, j);
    assert Waiting(l, j) && ws[..n][j] == ws[j];
    var two := [DisableIrq(1), TryRead(room)];
    var rest: seq<Op> := if b.Data? then [] else [EnableIrq(1)];
    assert Interrupt(Slot(l), b).calls == two + rest;
    assert l.calls + (two + rest) == l.calls + two + rest;
  }

  /** And while none waits it makes none. */
  lemma {:induction false} IdleInterruptCalls(ws: seq<Wake>, n: nat)
    requires |ws| == n + 1 && ws[n].Irq? && forall j: nat :: j < n ==> !Holds(ws, j, n)
    ensures Run(ws) == Run(ws[..n])
  {
    var l := Run(ws[..n]);
    SlotIsTheOneWaiting(ws[..n]);
    if l.parked.Some? {
      HoldsAgrees(ws, n, l.parked.value.0);
      assert Waiting(l, l.parked.value.0);
    }
    assert l.calls + [] == l.calls;
  }

  /** The call an operation makes: the operation itself, except that a read is given the room there is. */
  ghost predicate Passes(op: Op, call: Op) {
    match op
    case Read(_) => call.Read? && HasRoom(op, call.size)
    case TryRead(_) => call.TryRead? && HasRoom(op, call.size)
    case _ => call == op
  }

  /** Whether the receive interrupt is on after a list of calls. */
  function RxOn(calls: seq<Op>): bool {
    if calls == [] then false
    else
      match calls[|calls| - 1]
      case EnableIrq(mask) => mask % 2 == 1 || RxOn(calls[..|calls| - 1])
      case DisableIrq(mask) => mask % 2 == 0 && RxOn(calls[..|calls| - 1])
      case _ => RxOn(calls[..|calls| - 1])
  }

  lemma {:induction false} RxAppend(calls: seq<Op>, op: Op)
    ensures RxOn(calls + [op]) ==
            match op
            case EnableIrq(mask) => mask % 2 == 1 || RxOn(calls)
            case DisableIrq(mask) => mask % 2 == 0 && RxOn(calls)
            case _ => RxOn(calls)
  {
    assert (calls + [op])[..|calls|] == calls;
  }

  /** A client turns the receive interrupt off. */
  predicate TurnsOff(w: Wake) {
    w.Readable? && var p := Parse(w.request); p.Ask? && p.op.DisableIrq? && p.op.mask % 2 == 1
  }

  /** It comes on again: by an interrupt of another source, or a client. */
  predicate TurnsOn(w: Wake) {
    w.Irq? || (w.Readable? && var p := Parse(w.request); p.Ask? && p.op.EnableIrq? && p.op.mask % 2 == 1)
  }

  ghost predicate TurnedOnAgain(ws: seq<Wake>, k: nat) {
    exists m :: k < m < |ws| && TurnsOn(ws[m])
  }

  /** No lost wake-up: while a read is parked the receive interrupt is on, exactly unless a client has
      turned it off since and nothing has turned it on again. */
  lemma {:induction false} ParkedReadIsArmed(ws: seq<Wake>, j: nat)
    requires j < |ws| && Holds(ws, j, |ws|)
    ensures RxOn(Run(ws).calls) <==> EachTurnedOn(ws, j)
    decreases |ws|
  {
    var n := |ws| - 1;
    RxAfterWake(ws, j);
    if j < n {
      HoldsAgrees(ws, n, j);
      assert Holds(ws, j, n);
      ParkedReadIsArmed(ws[..n], j);
      EachTurnedOnStep(ws, j);
    }
  }

  /** Every time a client turned the interrupt off after `j`, it came on again. */
  ghost predicate EachTurnedOn(ws: seq<Wake>, j: nat) {
    forall k :: j < k < |ws| && TurnsOff(ws[k]) ==> TurnedOnAgain(ws, k)
  }

  lemma {:induction false} EachTurnedOnStep(ws: seq<Wake>, j: nat)
    requires j < |ws| - 1
    ensures var n := |ws| - 1;
            EachTurnedOn(ws, j) <==> TurnsOn(ws[n]) || (!TurnsOff(ws[n]) && EachTurnedOn(ws[..n], j))
  {
    var n := |ws| - 1;
    var init := ws[..n];
    assert !TurnedOnAgain(ws, n);
    forall k | j < k < n
      ensures TurnsOff(init[k]) == TurnsOff(ws[k])
      ensures TurnedOnAgain(ws, k) <==> TurnedOnAgain(init, k) || TurnsOn(ws[n])
    {
      if TurnedOnAgain(init, k) {
        var m :| k < m < n && TurnsOn(init[m]);
        assert TurnsOn(ws[m]);
      }
      if TurnedOnAgain(ws, k) && !TurnsOn(ws[n]) {
        var m :| k < m < |ws| && TurnsOn(ws[m]);
        assert TurnsOn(init[m]);
      }
    }
  }

  /** What the last wake-up does to the interrupt while a read waits. */
  lemma {:induction false} RxAfterWake(ws: seq<Wake>, j: nat)
    requires j < |ws| && Holds(ws, j, |ws|)
    ensures var n, before := |ws| - 1, Run(ws[..|ws| - 1]).calls;
            RxOn(Run(ws).calls) == (j == n || TurnsOn(ws[n]) || (!TurnsOff(ws[n]) && RxOn(before)))
  {
    var n := |ws| - 1;
    var calls := Run(ws[..n]).calls;
    assert j == n ==> Parks(ws, n);
    assert j < n ==> Holds(ws, j, n);
    match ws[n]
    case Nothing =>
    case Readable(_, request, b) =>
      var call := RequestCalls(ws);
      RxAppend(calls, call);
      RxAppend(calls + [call], EnableIrq(1));
      assert calls + [call] + [] == calls + [call];
    case Irq(b) =>
      var op := Parse(ws[j].request).op;
      AnswerConveys(b, op);
      InterruptCalls(ws, j, Room(op));
      assert !Delivers(ws, n);
      RxAppend(calls + [DisableIrq(1), TryRead(Room(op))], EnableIrq(1));
  }

  // ---- the client ----

  const CLIENT_MAX: nat := 256

  datatype ClientError = ServerError(status: UsartError) | InvalidResponse
  datatype ReadResult = Got(out: seq<u8>, n: nat) | ReadFailed(error: ClientError)

  function Header(code: u8, arg0: u16, arg1: u16, len: u16): (h: seq<u8>)
    ensures |h| == REQUEST_HEADER
  {
    [code, 0] + Le16(arg0) + Le16(arg1) + Le16(len)
  }

  /** What a client sends for an operation; none when it is too long for one message. The client has
      no call for the line status and the interrupts. */
  function ClientRequest(op: Op): Option<seq<u8>> {
    match op
    case Configure(baud) => Some(Header(1, baud % 0x1_0000, baud / 0x1_0000, 0))
    case Write(data) => if |data| > CLIENT_MAX then None else Some(Header(2, 0, 0, |data|) + data)
    case Read(size) => if size > CLIENT_MAX then None else Some(Header(3, size, 0, 0))
    case TryRead(size) => if size > CLIENT_MAX then None else Some(Header(7, size, 0, 0))
    case _ => None
  }

  /** The server reads from a client's request the operation the client was asked for. */
  lemma {:induction false} RequestRoundTrips(op: Op)
    requires ClientRequest(op).Some?
    ensures Parse(ClientRequest(op).value) == Ask(op)
  {
    var r := ClientRequest(op).value;
    if op.Write? {
      HeaderFields(2, 0, 0, |op.data|, op.data);
      assert r[8..8 + |op.data|] == op.data;
    } else {
      HeaderFields(r[0], FromLe16(r[2..4]), FromLe16(r[4..6]), 0, []);
      match op
      case Configure(baud) => HeaderFields(1, baud % 0x1_0000, baud / 0x1_0000, 0, []); assert r + [] == r;
      case Read(size) => HeaderFields(3, size, 0, 0, []); assert r + [] == r;
      case TryRead(size) => HeaderFields(7, size, 0, 0, []); assert r + [] == r;
    }
  }

  lemma {:induction false} HeaderFields(code: u8, arg0: u16, arg1: u16, len: u16, rest: seq<u8>)
    ensures var r := Header(code, arg0, arg1, len) + rest;
            && r[0] == code && FromLe16(r[2..4]) == arg0 && FromLe16(r[4..6]) == arg1 && FromLe16(r[6..8]) == len
  {
    var r := Header(code, arg0, arg1, len) + rest;
    assert r[2..4] == Le16(arg0) && r[4..6] == Le16(arg1) && r[6..8] == Le16(len);
  }

  function ErrorFromByte(b: u8): UsartError {
    match b
    case 1 => InvalidOperation
    case 2 => InvalidConfiguration
    case 3 => BufferTooSmall
    case 4 => Busy
    case 5 => Timeout
    case 6 => WouldBlock
    case _ => InternalError
  }

  /** How a client reads the response to a read into a buffer that holds `out`. */
  function DecodeRead(response: seq<u8>, out: seq<u8>): ReadResult {
    if |response| < RESPONSE_HEADER then ReadFailed(InvalidResponse)
    else if response[0] != 0 then ReadFailed(ServerError(ErrorFromByte(response[0])))
    else
      var len := FromLe16(response[2..4]);
      if len > |out| || |response| < RESPONSE_HEADER + len then ReadFailed(InvalidResponse)
      else Got(response[RESPONSE_HEADER..RESPONSE_HEADER + len] + out[len..], len)
  }

  lemma {:induction false} DecodeConveyed(response: seq<u8>, b: Backend, out: seq<u8>)
    requires Conveys(response, b, |out|)
    ensures DecodeRead(response, out) ==
            match b
            case Data(bytes) => var m := Min(|bytes|, |out|); Got(bytes[..m] + out[m..], m)
            case Fails(e) => ReadFailed(ServerError(e))
  {}

  /** End to end: a client's non-blocking read into `out`, answered at once or after having waited,
      brings the backend's bytes into the buffer and leaves the rest of it alone. */
  lemma {:induction false} ClientReadGetsData(ws: seq<Wake>, j: nat, k: nat, out: seq<u8>) returns (s: Sent)
    requires |out| <= 256 && j <= k < |ws| && ws[j].Readable?
    requires ws[j].request == Header(7, |out|, 0, 0)
    requires if j == k then !Blocked(ws, j) else Parks(ws, j) && Holds(ws, j, k) && Delivers(ws, k)
    ensures s in Run(ws).sent && s.request == j && s.channel == ws[j].channel
    ensures DecodeRead(s.bytes, out) ==
            match ws[k].backend
            case Data(bytes) => var m := Min(|bytes|, |out|); Got(bytes[..m] + out[m..], m)
            case Fails(e) => ReadFailed(ServerError(e))
  {
    RequestRoundTrips(TryRead(|out|));
    assert HasRoom(TryRead(|out|), |out|);
    var b := ws[k].backend;
    if j == k { AnsweredInTurn(ws, j); } else { AnsweredByInterrupt(ws, j); }
    assert SentWith(ws, j, b, |out|);
    var i :| 0 <= i < |Run(ws).sent| && Is(Run(ws).sent[i], ws, j, b, |out|);
    s := Run(ws).sent[i];
    DecodeConveyed(s.bytes, b, out);
  }
}
