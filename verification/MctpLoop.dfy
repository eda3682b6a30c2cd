/** The MCTP server object and its dispatcher in their own form: fields updated in place, replies
    written into caller buffers. Each method is proved against the functions of the other modules. */
module MctpLoop {
  import opened Bytes
  import opened MctpWire
  import opened MctpServer
  import opened MctpRpc

  datatype Meta = Meta(msgType: u8, ic: bool, tag: u8, source: u8, size: nat)

  function MetaOf(m: Message): Meta {
    Meta(m.msgType, m.ic, m.tag, m.source, |m.payload|)
  }

  /** What the pass reports for one resolved receive: its metadata, or an expiry. */
  function Summary(r: Ready): (u32, Option<Meta>) {
    (r.handle, if r.how.Arrived? then Some(MetaOf(r.how.msg)) else None)
  }

  /** Copy a payload to the start of a buffer; one that does not fit is not copied at all. */
  method CopyPayload(buf: array<u8>, payload: seq<u8>)
    modifies buf
    ensures buf[..] == if |payload| <= buf.Length then payload + old(buf[|payload|..]) else old(buf[..])
  {
    if |payload| <= buf.Length {
      forall k | 0 <= k < |payload| { buf[k] := payload[k]; }
    }
  }

  class Server<!S> {
    const router: Router<S>
    const capacity: nat
    var stack: S
    var outstanding: seq<Pending>

    constructor (router: Router<S>, capacity: nat, stack: S)
      ensures this.router == router && this.capacity == capacity && View() == State(stack, [])
    {
      this.router, this.capacity, this.stack, outstanding := router, capacity, stack, [];
    }

    function View(): State<S>
      reads this
    {
      State(stack, outstanding)
    }

    /** Take a waiting message, leaving its payload in `buf` if it fits. */
    method TryRecv(h: u32, buf: array<u8>) returns (m: Option<Meta>)
      modifies this, buf
      ensures var (s, got) := router.recv(old(stack), h);
              && View() == old(View()).(stack := s)
              && m == (if got.Some? then Some(MetaOf(got.value)) else None)
              && buf[..] == (if got.Some? && |got.value.payload| <= buf.Length
                             then got.value.payload + old(buf[|got.value.payload|..]) else old(buf[..]))
    {
      var (s, got) := router.recv(stack, h);
      stack := s;
      if got.None? {
        return None;
      }
      CopyPayload(buf, got.value.payload);
      m := Some(MetaOf(got.value));
    }

    /** Remember a receive; an existing one keeps its deadline, a full table refuses. */
    method RegisterRecv(h: u32, timeout: u32, now: nat) returns (ok: bool)
      modifies this
      ensures View() == old(View()).(table := Register(old(outstanding), capacity, h, timeout, now))
      ensures ok == (Has(old(outstanding), h) || |old(outstanding)| < capacity)
    {
      if Has(outstanding, h) {
        return true;
      }
      if |outstanding| >= capacity {
        return false;
      }
      outstanding := outstanding + [Pending(h, Deadline(timeout, now))];
      ok := true;
    }

    /** Poll every outstanding receive, collect the resolved ones, then drop them from the table.
        The push into the fixed-size ready list is never refused. */
    method Update(now: nat, recvBuf: array<u8>) returns (ready: seq<(u32, Option<Meta>)>)
      requires |outstanding| <= capacity
      modifies this, recvBuf
      ensures var (after, resolved) := MctpServer.Update(router, old(View()), now);
              && View() == after
              && |ready| == |resolved|
              && (forall k :: 0 <= k < |ready| ==> ready[k] == Summary(resolved[k]))
              && recvBuf[..] == Landed(old(recvBuf[..]), resolved)
    {
      var (s, _) := router.update(stack, now);
      stack := s;
      ready := [];
      ghost var resolved: seq<Ready> := [];
      ghost var table := outstanding;
      var i := 0;
      while i < |outstanding|
        invariant i <= |outstanding| && outstanding == table
        invariant Poll(router, s, table[..i], now) == (stack, resolved)
        invariant |ready| == |resolved| <= i
        invariant forall k :: 0 <= k < |ready| ==> ready[k] == Summary(resolved[k])
        invariant recvBuf[..] == Landed(old(recvBuf[..]), resolved)
      {
        var p := outstanding[i];
        PollStep(router, s, table, i, now);
        var (s', got) := router.recv(stack, p.handle);
        stack := s';
        if got.Some? {
          CopyPayload(recvBuf, got.value.payload);
          if |ready| < capacity {
            ready := ready + [(p.handle, Some(MetaOf(got.value)))];
          }
          LandedStep(old(recvBuf[..]), resolved, Ready(p.handle, Arrived(got.value)));
          resolved := resolved + [Ready(p.handle, Arrived(got.value))];
        } else if p.deadline != 0 && now >= p.deadline {
          if |ready| < capacity {
            ready := ready + [(p.handle, None)];
          }
          LandedStep(old(recvBuf[..]), resolved, Ready(p.handle, Expired));
          resolved := resolved + [Ready(p.handle, Expired)];
        }
        i := i + 1;
      }
      assert table[..i] == table;
      DropReady(ready, resolved);
    }

    /** Drop every resolved handle from the table. */
    method DropReady(ready: seq<(u32, Option<Meta>)>, ghost resolved: seq<Ready>)
      requires |ready| == |resolved| && forall k :: 0 <= k < |ready| ==> ready[k] == Summary(resolved[k])
      modifies this`outstanding
      ensures outstanding == RemoveAll(old(outstanding), resolved)
    {
      var i := 0;
      while i < |ready|
        invariant i <= |ready| && outstanding == RemoveAll(old(outstanding), resolved[..i])
      {
        assert resolved[..i + 1][..i] == resolved[..i];
        outstanding := Remove(outstanding, ready[i].0);
        i := i + 1;
      }
      assert resolved[..i] == resolved;
    }
  }

  lemma {:induction false} PollStep<S>(router: Router<S>, stack: S, table: seq<Pending>, i: nat, now: nat)
    requires i < |table|
    ensures var (s, ready) := Poll(router, stack, table[..i], now);
            var (s', m) := router.recv(s, table[i].handle);
            Poll(router, stack, table[..i + 1], now)
            == if m.Some? then (s', ready + [Ready(table[i].handle, Arrived(m.value))])
               else if table[i].deadline != 0 && now >= table[i].deadline
               then (s', ready + [Ready(table[i].handle, Expired)])
               else (s', ready)
  {
    assert table[..i + 1][..i] == table[..i];
  }

  lemma {:induction false} LandedStep(buf: seq<u8>, ready: seq<Ready>, r: Ready)
    ensures var b := Landed(buf, ready);
            Landed(buf, ready + [r])
            == if r.how.Arrived? && |r.how.msg.payload| <= |b| then r.how.msg.payload + b[|r.how.msg.payload|..] else b
  {
    assert (ready + [r])[..|ready|] == ready;
  }

  /** Write an answer at the start of the response buffer. */
  method PutAnswer(response: array<u8>, a: Answer) returns (n: nat)
    requires response.Length >= MAX_RESPONSE_SIZE
    modifies response
    ensures n == |AnswerBytes(a)| <= response.Length && response[..n] == AnswerBytes(a)
  {
    var bytes := AnswerBytes(a);
    CopyPayload(response, bytes);
    n := |bytes|;
  }

  /** Rebuild a message from its metadata and the receive buffer. */
  function FromBuffer(m: Meta, buf: seq<u8>): Message
    requires m.size <= |buf|
  {
    Message(m.msgType, m.ic, m.tag, m.source, buf[..m.size])
  }

  /** The dispatcher slices the receive buffer by the size of a message it picks up, and panics on one
      that is larger. */
  predicate Panics<S>(router: Router<S>, stack: S, c: Call, size: nat) {
    && c.Recv?
    && var m := router.recv(stack, c.handle).1;
       m.Some? && |m.value.payload| > size
  }

  /** Carry out a parsed call on the server. */
  method Execute<S>(server: Server<S>, c: Call, recvBuf: array<u8>, now: nat) returns (o: Outcome)
    requires !Panics(server.router, server.stack, c, recvBuf.Length)
    modifies server, recvBuf
    ensures (server.View(), o) == Perform(server.router, server.capacity, old(server.View()), c, now)
  {
    match c
    case SetEid(eid) =>
      var (s, r) := server.router.setEid(server.stack, eid);
      server.stack := s;
      o := Now(if r.Fine? then Done else Failed(ErrorCode(r.error)));
    case GetEid =>
      o := Now(EidIs(server.router.getEid(server.stack)));
    case Listener(t) =>
      var (s, r) := server.router.listener(server.stack, t);
      server.stack := s;
      o := Now(if r.Fine? then HandleIs(r.value) else Failed(ErrorCode(r.error)));
    case Req(eid) =>
      var (s, r) := server.router.req(server.stack, eid);
      server.stack := s;
      o := Now(if r.Fine? then HandleIs(r.value) else Failed(ErrorCode(r.error)));
    case Recv(h, timeout) =>
      var m := server.TryRecv(h, recvBuf);
      if m.Some? {
        o := Now(Got(FromBuffer(m.value, recvBuf[..])));
        assert recvBuf[..][..m.value.size] == recvBuf[..m.value.size];
      } else {
        var _ := server.RegisterRecv(h, timeout, now);
        o := Later(h);
      }
    case Send(to, t, dest, tag, ic, payload) =>
      if |payload| > MAX_PAYLOAD_SIZE {
        return Now(Failed(NoSpace));
      }
      var (s, r) := server.router.send(server.stack, dest, t, WireTag(to, tag), ic, OptionOr(to, 255), payload);
      server.stack := s;
      o := Now(if r.Fine? then TagIs(r.value) else Failed(ErrorCode(r.error)));
    case Unbind(h) =>
      server.stack := server.router.unbind(server.stack, h);
      server.outstanding := Remove(server.outstanding, h);
      o := Now(Done);
  }

  /** Dispatch one request: reply with `n` bytes, or owe a reply when the handle is ready. */
  method Dispatch<S>(request: seq<u8>, response: array<u8>, server: Server<S>, recvBuf: array<u8>, now: nat)
    returns (o: Outcome, n: nat)
    requires response.Length >= MAX_RESPONSE_SIZE && response != recvBuf
    requires var c := ParseCall(request); c.None? || !Panics(server.router, server.stack, c.value, recvBuf.Length)
    modifies server, response, recvBuf
    ensures (server.View(), o) == Serve(server.router, server.capacity, old(server.View()), request, now)
    ensures n <= response.Length
    ensures o.Now? ==> response[..n] == AnswerBytes(o.answer)
  {
    n := 0;
    match ParseCall(request) {
      case None => o := Now(Failed(BadArgument));
      case Some(c) => o := Execute(server, c, recvBuf, now);
    }
    if o.Now? {
      n := PutAnswer(response, o.answer);
    }
  }

  /** The reply to one resolved receive, from what the shared buffer holds. */
  method Reply(summary: (u32, Option<Meta>), recvBuf: array<u8>, response: array<u8>, ghost r: Ready)
    returns (bytes: seq<u8>)
    requires response.Length >= MAX_RESPONSE_SIZE && response != recvBuf && summary == Summary(r)
    requires r.how.Arrived? ==> |r.how.msg.payload| <= recvBuf.Length
    modifies response
    ensures bytes == AnswerBytes(DeliveredAnswer(recvBuf[..], r))
  {
    var a := if summary.1.Some? then Got(FromBuffer(summary.1.value, recvBuf[..])) else Failed(TimedOut);
    var n := PutAnswer(response, a);
    bytes := response[..n];
  }

  /** Drive deferred receives: one callback per resolved handle, with the reply it is sent. It panics
      on a message larger than the receive buffer, like the dispatcher. */
  method DrivePending<S>(server: Server<S>, now: nat, recvBuf: array<u8>, response: array<u8>)
    returns (sent: seq<(u32, seq<u8>)>)
    requires response.Length >= MAX_RESPONSE_SIZE && response != recvBuf
    requires |server.outstanding| <= server.capacity
    requires Fit(MctpServer.Update(server.router, server.View(), now).1, recvBuf.Length)
    modifies server, recvBuf, response
    ensures var (after, resolved) := MctpServer.Update(server.router, old(server.View()), now);
            && server.View() == after
            && |sent| == |resolved|
            && forall k :: 0 <= k < |sent| ==>
                 sent[k] == (resolved[k].handle,
                             AnswerBytes(DeliveredAnswer(Landed(old(recvBuf[..]), resolved), resolved[k])))
  {
    ghost var (after, resolved) := MctpServer.Update(server.router, server.View(), now);
    ghost var final := Landed(recvBuf[..], resolved);
    var ready := server.Update(now, recvBuf);
    sent := [];
    var i := 0;
    while i < |ready|
      invariant i <= |ready| == |resolved| && |sent| == i
      invariant recvBuf[..] == final
      invariant server.View() == after
      invariant forall k :: 0 <= k < i ==>
                  sent[k] == (resolved[k].handle, AnswerBytes(DeliveredAnswer(final, resolved[k])))
    {
      var bytes := Reply(ready[i], recvBuf, response, resolved[i]);
      sent := sent + [(ready[i].0, bytes)];
      i := i + 1;
    }
  }
}
