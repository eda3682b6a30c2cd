/** MCTP over IPC: request dispatch, the client's decoder, delivery of deferred receives, and the
    theorem that going through the wire is calling the server. */
module MctpRpc {
  import opened Bytes
  import opened Bits
  import opened MctpWire
  import opened MctpServer

  // ---- dispatch and client, as functions of bytes ----

  /** Serving one request of arbitrary bytes. */
  function Serve<S>(router: Router<S>, capacity: nat, st: State<S>, request: seq<u8>, now: nat): (State<S>, Outcome) {
    match ParseCall(request)
    case None => (st, Now(Failed(BadArgument)))
    case Some(c) => Perform(router, capacity, st, c, now)
  }

  /** The client's reading of a reply of arbitrary bytes to call `c`. */
  function Decode(c: Call, reply: seq<u8>): Answer {
    var r := Transacted(c, reply);
    match c
    case GetEid => if r.Failed? then EidIs(0) else r
    case Unbind(_) => Done
    case _ => r
  }

  function Transacted(c: Call, reply: seq<u8>): Answer {
    if |reply| < HEADER || |reply| > MAX_RESPONSE_SIZE then Failed(InternalError)
    else
      var h := ParseResponse(reply).value;
      if h.code != 0 then Failed(CodeFromByte(h.code))
      else
        match c
        case SetEid(_) => Done
        case Unbind(_) => Done
        case GetEid => EidIs(h.eid)
        case Listener(_) => HandleIs(h.handle)
        case Req(_) => HandleIs(h.handle)
        case Send(_, _, _, _, _, _) => TagIs(h.tag)
        case Recv(_, _) =>
          if |reply| < HEADER + h.payloadLen then Failed(InternalError)
          else Got(Message(h.msgType, And(h.flags, IC) != 0, h.tag, h.eid, reply[HEADER..HEADER + h.payloadLen]))
  }

  /** The kind of answer a call can get. */
  predicate Fitting(c: Call, a: Answer) {
    match a
    case Done => c.SetEid? || c.Unbind?
    case EidIs(_) => c.GetEid?
    case HandleIs(_) => c.Listener? || c.Req?
    case TagIs(_) => c.Send?
    case Got(_) => c.Recv?
    case Failed(code) => code != Success && !c.GetEid? && !c.Unbind?
  }

  lemma {:induction false} AnswerRoundTrips(c: Call, a: Answer)
    requires Fitting(c, a) && (a.Got? ==> |a.msg.payload| <= MAX_PAYLOAD_SIZE)
    ensures Decode(c, AnswerBytes(a)) == a
  {
    match a {
      case Done => HeaderAlone(PLAIN);
      case EidIs(eid) => HeaderAlone(PLAIN.(eid := eid));
      case HandleIs(handle) => HeaderAlone(PLAIN.(handle := handle));
      case TagIs(tag) => HeaderAlone(PLAIN.(tag := tag));
      case Failed(code) => HeaderAlone(PLAIN.(code := CodeByte(code)));
      case Got(m) => MessageRoundTrips(c, m);
    }
  }

  lemma {:induction false} HeaderAlone(h: ResponseHeader)
    ensures |ResponseBytes(h)| == HEADER && ParseResponse(ResponseBytes(h)) == Some(h)
  {
    ResponseHeaderRoundTrips(h, []);
    assert ResponseBytes(h) + [] == ResponseBytes(h);
  }

  lemma {:induction false} MessageRoundTrips(c: Call, m: Message)
    requires c.Recv? && |m.payload| <= MAX_PAYLOAD_SIZE
    ensures Decode(c, AnswerBytes(Got(m))) == Got(m)
  {
    var h := ResponseHeader(0, if m.ic then IC else 0, m.msgType, m.source, 0, |m.payload|, m.tag);
    HeaderAlone(h);
    ResponseHeaderRoundTrips(h, m.payload);
    FlagsSeparate(m.ic, false, false, false);
    assert AnswerBytes(Got(m))[HEADER..HEADER + |m.payload|] == m.payload;
  }

  /** One client operation: encode (refusing an oversized payload), dispatch, decode. */
  function ClientCall<S>(router: Router<S>, capacity: nat, st: State<S>, c: Call, now: nat): (State<S>, Outcome) {
    if c.Send? && |c.payload| > MAX_PAYLOAD_SIZE then (st, Now(Failed(InternalError)))
    else
      var (st', o) := Serve(router, capacity, st, CallBytes(c), now);
      (st', if o.Later? then o else Now(Decode(c, AnswerBytes(o.answer))))
  }

  /** The call fits the wire: its payload, and a message it would pick up at once. */
  predicate Transportable<S>(router: Router<S>, st: State<S>, c: Call) {
    && (c.Send? ==> |c.payload| <= MAX_PAYLOAD_SIZE)
    && (c.Recv? ==>
         var m := router.recv(st.stack, c.handle).1;
         m.Some? ==> |m.value.payload| <= MAX_PAYLOAD_SIZE)
  }

  /** The refinement theorem: for every router, server state and operation, the client over the
      wire and the direct call agree on result, error code and final state, exactly when the call
      fits the wire. */
  lemma {:induction false} RpcRefinesServer<S>(router: Router<S>, capacity: nat, st: State<S>, c: Call, now: nat)
    ensures ClientCall(router, capacity, st, c, now) == Perform(router, capacity, st, c, now)
            <==> Transportable(router, st, c)
  {
    CallRoundTrips(c);
    var (_, o) := Perform(router, capacity, st, c, now);
    if Transportable(router, st, c) {
      if o.Now? {
        AnswerRoundTrips(c, o.answer);
      }
    } else if c.Recv? {
      ResponseHeaderRoundTrips(PLAIN.(code := CodeByte(InternalError)), []);
      assert AnswerBytes(o.answer) == ResponseBytes(PLAIN.(code := CodeByte(InternalError))) + [];
      assert Decode(c, AnswerBytes(o.answer)).Failed?;
    }
  }

  // ---- the caller's receive buffer ----

  /** What a receive gives its caller: metadata, the message's true size, and the filled buffer. */
  datatype Received =
    | Filled(msgType: u8, ic: bool, tag: u8, source: u8, size: nat, buf: seq<u8>)
    | NotFilled(code: ResponseCode)

  /** The client's receive, from the reply and the caller's buffer. */
  function ClientRecv(c: Call, reply: seq<u8>, buf: seq<u8>): Received
    requires c.Recv?
  {
    match Decode(c, reply)
    case Got(m) =>
      var n := Min(|m.payload|, |buf|);
      Filled(m.msgType, m.ic, m.tag, m.source, |m.payload|, m.payload[..n] + buf[n..])
    case Failed(code) => NotFilled(code)
    case _ => NotFilled(InternalError)
  }

  /** Whether answered at once or later, the caller gets the message's metadata and size, as many of
      its bytes as the buffer takes, and the rest of the buffer as it was. So the message was cut
      exactly when the reported size exceeds the buffer. */
  lemma {:induction false} ReceiveFillsBuffer(c: Call, m: Message, buf: seq<u8>)
    requires c.Recv? && |m.payload| <= MAX_PAYLOAD_SIZE
    ensures var got := ClientRecv(c, AnswerBytes(Got(m)), buf);
            && got.Filled? && got.size == |m.payload| && |got.buf| == |buf|
            && (got.msgType, got.ic, got.tag, got.source) == (m.msgType, m.ic, m.tag, m.source)
            && (forall i :: 0 <= i < |buf| ==> got.buf[i] == if i < |m.payload| then m.payload[i] else buf[i])
            && (m.payload <= got.buf <==> got.size <= |buf|)
  {
    AnswerRoundTrips(c, Got(m));
    var got := ClientRecv(c, AnswerBytes(Got(m)), buf);
    if |m.payload| <= |buf| {
      assert got.buf[..|m.payload|] == m.payload;
    }
  }

  // ---- deferred receives share one buffer ----

  /** The receive buffer after an update pass stored every arrived payload in it, in order. */
  function Landed(buf: seq<u8>, ready: seq<Ready>): (b: seq<u8>)
    ensures |b| == |buf|
  {
    if ready == [] then buf
    else
      var b := Landed(buf, ready[..|ready| - 1]);
      var r := ready[|ready| - 1];
      if r.how.Arrived? && |r.how.msg.payload| <= |b| then r.how.msg.payload + b[|r.how.msg.payload|..] else b
  }

  /** What the client behind a ready handle should get. */
  function OwnAnswer(r: Ready): Answer {
    match r.how
    case Arrived(m) => Got(m)
    case Expired => Failed(TimedOut)
  }

  /** What it does get: the metadata is its own, the bytes are whatever the buffer holds by then. */
  function DeliveredAnswer(buf: seq<u8>, r: Ready): Answer
    requires r.how.Arrived? ==> |r.how.msg.payload| <= |buf|
  {
    match r.how
    case Arrived(m) => Got(m.(payload := buf[..|m.payload|]))
    case Expired => Failed(TimedOut)
  }

  ghost predicate Fit(ready: seq<Ready>, size: nat) {
    forall k :: 0 <= k < |ready| && ready[k].how.Arrived? ==> |ready[k].how.msg.payload| <= size
  }

  ghost predicate AgreeOnCommonPrefix(a: seq<u8>, b: seq<u8>) {
    forall i :: 0 <= i < |a| && i < |b| ==> a[i] == b[i]
  }

  /** Any two messages of the pass agree as far as both go. */
  ghost predicate Compatible(ready: seq<Ready>) {
    forall k, l :: 0 <= k < l < |ready| && ready[k].how.Arrived? && ready[l].how.Arrived? ==>
      AgreeOnCommonPrefix(ready[k].how.msg.payload, ready[l].how.msg.payload)
  }

  /** All clients of a pass get their own message exactly when the messages are compatible. */
  lemma {:induction false} DeliveryIsOwnIffCompatible(buf: seq<u8>, ready: seq<Ready>)
    requires Fit(ready, |buf|)
    ensures (forall k :: 0 <= k < |ready| ==> DeliveredAnswer(Landed(buf, ready), ready[k]) == OwnAnswer(ready[k]))
            <==> Compatible(ready)
  {
    var final := Landed(buf, ready);
    if forall k :: 0 <= k < |ready| ==> DeliveredAnswer(final, ready[k]) == OwnAnswer(ready[k]) {
      forall k, l | 0 <= k < l < |ready| && ready[k].how.Arrived? && ready[l].how.Arrived?
        ensures AgreeOnCommonPrefix(ready[k].how.msg.payload, ready[l].how.msg.payload)
      {
        assert DeliveredAnswer(final, ready[k]) == OwnAnswer(ready[k]);
        assert DeliveredAnswer(final, ready[l]) == OwnAnswer(ready[l]);
        var a, b := ready[k].how.msg.payload, ready[l].how.msg.payload;
        assert a == final[..|a|] && b == final[..|b|];
      }
    }
    if Compatible(ready) {
      forall k | 0 <= k < |ready| ensures DeliveredAnswer(final, ready[k]) == OwnAnswer(ready[k]) {
        CompatibleSurvives(buf, ready, k);
      }
    }
  }

  lemma {:induction false} CompatibleSurvives(buf: seq<u8>, ready: seq<Ready>, k: nat)
    requires Fit(ready, |buf|) && Compatible(ready) && k < |ready|
    ensures ready[k].how.Arrived? ==>
              Landed(buf, ready)[..|ready[k].how.msg.payload|] == ready[k].how.msg.payload
  {
    var n := |ready| - 1;
    if k < n {
      CompatibleSurvives(buf, ready[..n], k);
      if ready[k].how.Arrived? && ready[n].how.Arrived? {
        assert AgreeOnCommonPrefix(ready[k].how.msg.payload, ready[n].how.msg.payload);
      }
    }
  }

  /** In particular when at most one message arrives in the pass. */
  lemma {:induction false} SingleMessageIsOwn(buf: seq<u8>, ready: seq<Ready>)
    requires Fit(ready, |buf|)
    requires forall k, l :: 0 <= k < l < |ready| ==> !(ready[k].how.Arrived? && ready[l].how.Arrived?)
    ensures forall k :: 0 <= k < |ready| ==> DeliveredAnswer(Landed(buf, ready), ready[k]) == OwnAnswer(ready[k])
  {
    DeliveryIsOwnIffCompatible(buf, ready);
  }

  /** The same seen by the clients: each decodes its own answer from the reply it is sent exactly when
      the messages are compatible. */
  lemma {:induction false} DeferredReceiveIsOwnIff(buf: seq<u8>, ready: seq<Ready>, timeout: u32)
    requires Fit(ready, |buf|) && Fit(ready, MAX_PAYLOAD_SIZE)
    ensures (forall k :: 0 <= k < |ready| ==> Decoded(buf, ready, timeout, k) == OwnAnswer(ready[k]))
            <==> Compatible(ready)
    ensures forall k :: 0 <= k < |ready| ==>
              match ready[k].how
              case Expired => Decoded(buf, ready, timeout, k) == Failed(TimedOut)
              case Arrived(m) =>
                && Decoded(buf, ready, timeout, k).Got?
                && Decoded(buf, ready, timeout, k).msg.(payload := m.payload) == m
                && |Decoded(buf, ready, timeout, k).msg.payload| == |m.payload|
  {
    forall k | 0 <= k < |ready|
      ensures Decoded(buf, ready, timeout, k) == DeliveredAnswer(Landed(buf, ready), ready[k])
    {
      AnswerRoundTrips(Recv(ready[k].handle, timeout), DeliveredAnswer(Landed(buf, ready), ready[k]));
    }
    DeliveryIsOwnIffCompatible(buf, ready);
  }

  /** What the client behind ready entry `k` reads from its reply. */
  function Decoded(buf: seq<u8>, ready: seq<Ready>, timeout: u32, k: nat): Answer
    requires k < |ready| && (ready[k].how.Arrived? ==> |ready[k].how.msg.payload| <= |buf|)
  {
    Decode(Recv(ready[k].handle, timeout), AnswerBytes(DeliveredAnswer(Landed(buf, ready), ready[k])))
  }

  /** A router with a message for everyone: [7] for handle 1, [5] for any other. */
  function TalkingTo(h: u32): Message {
    if h == 1 then Message(1, false, 0, 8, [7]) else Message(1, false, 0, 9, [5])
  }

  const TALKER := Router(
    (s: (), eid: u8) => (s, Fine(())),
    (s: ()) => 0,
    (s: (), t: u8) => (s, Fine(0)),
    (s: (), eid: u8) => (s, Fine(0)),
    (s: (), h: u32) => (s, Some(TalkingTo(h))),
    (s: (), dest: Option<u8>, t: u8, tag: Option<Tag>, ic: bool, cookie: u32, payload: seq<u8>) => (s, Fine(0)),
    (s: (), h: u32) => s,
    (s: (), now: nat) => (s, None),
    (s: (), packet: seq<u8>) => s)

  lemma {:induction false} TalkerAnswers(table: seq<Pending>, p: Pending, now: nat)
    ensures Poll(TALKER, (), table + [p], now).1
            == Poll(TALKER, (), table, now).1 + [Ready(p.handle, Arrived(TalkingTo(p.handle)))]
  {
    assert (table + [p])[..|table|] == table;
  }

  /** Two receives outstanding and two messages in one pass: the first client gets the second's byte. */
  lemma {:induction false} SharedBufferMixesMessages(buf: seq<u8>, now: nat)
    requires |buf| >= 1
    ensures var ready := Update(TALKER, State((), [Pending(1, 0)] + [Pending(2, 0)]), now).1;
            && |ready| == 2 && Fit(ready, |buf|)
            && OwnAnswer(ready[0]) == Got(Message(1, false, 0, 8, [7]))
            && DeliveredAnswer(Landed(buf, ready), ready[0]) == Got(Message(1, false, 0, 8, [5]))
  {
    TalkerAnswers([], Pending(1, 0), now);
    TalkerAnswers([Pending(1, 0)], Pending(2, 0), now);
    assert [] + [Pending(1, 0)] == [Pending(1, 0)];
    var first, second := Ready(1, Arrived(TalkingTo(1))), Ready(2, Arrived(TalkingTo(2)));
    assert Update(TALKER, State((), [Pending(1, 0)] + [Pending(2, 0)]), now).1 == [first] + [second];
    LastByteStays(buf, first, second);
  }

  lemma {:induction false} LastByteStays(buf: seq<u8>, first: Ready, second: Ready)
    requires |buf| >= 1 && first.how.Arrived? && second.how.Arrived?
    requires |first.how.msg.payload| == 1 == |second.how.msg.payload|
    ensures Landed(buf, [first] + [second])[..1] == second.how.msg.payload
  {
    assert ([first] + [second])[..1] == [first];
  }
}
