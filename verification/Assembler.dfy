/** The I2C monitor's MCTP reassembly: fragments of many interleaved messages, keyed by source,
    destination and tag. */
module Assembler {
  import opened Bytes

  type byte = bv8
  datatype Key = Key(src: byte, dest: byte, tag: byte)

  /** Packet sequence numbers count modulo 4. */
  type Seq4 = x: int | 0 <= x < 4

  function Next(s: Seq4): Seq4 {
    (s + 1) % 4
  }

  /** A parsed packet, as the parser's result dictionary holds it. */
  datatype Fragment = Fragment(key: Key, som: bool, eom: bool, pktSeq: Seq4, msgType: Option<byte>, payload: seq<byte>)

  datatype Session = Session(fragments: seq<Fragment>, expected: Seq4)
  datatype Assembled = Assembled(key: Key, msgType: Option<byte>, payload: seq<byte>, count: nat)

  /** The payloads of the fragments, in order. */
  function Payloads(fs: seq<Fragment>): seq<byte> {
    if fs == [] then [] else Payloads(fs[..|fs| - 1]) + fs[|fs| - 1].payload
  }

  function Assemble(fs: seq<Fragment>): Assembled
    requires fs != []
  {
    Assembled(fs[0].key, fs[0].msgType, Payloads(fs), |fs|)
  }

  /** What a fragment does to one session, seen from that session alone. */
  function Advance(s: Option<Session>, f: Fragment): (Option<Session>, Option<Assembled>) {
    if f.som then
      if f.eom then (None, Some(Assemble([f]))) else (Some(Session([f], Next(f.pktSeq))), None)
    else if s.None? || f.pktSeq != s.value.expected then (None, None)
    else
      var fs := s.value.fragments + [f];
      if f.eom then (None, Some(Assemble(fs))) else (Some(Session(fs, Next(f.pktSeq))), None)
  }

  function Lookup(m: map<Key, Session>, k: Key): Option<Session> {
    if k in m then Some(m[k]) else None
  }

  /** What a fragment does to the dictionary of sessions, branch by branch. */
  function Added(m: map<Key, Session>, f: Fragment): (map<Key, Session>, Option<Assembled>) {
    if f.som then
      if f.eom then (m - {f.key}, Some(Assemble([f]))) else (m[f.key := Session([f], Next(f.pktSeq))], None)
    else if f.key !in m then (m, None)
    else if f.pktSeq != m[f.key].expected then (m - {f.key}, None)
    else
      var fs := m[f.key].fragments + [f];
      if f.eom then (m - {f.key}, Some(Assemble(fs))) else (m[f.key := Session(fs, Next(f.pktSeq))], None)
  }

  class MctpAssembler {
    var sessions: map<Key, Session>

    constructor ()
      ensures sessions == map[]
    {
      sessions := map[];
    }

    /** Add a fragment; a complete message comes out with its last one. */
    method AddFragment(f: Fragment) returns (r: Option<Assembled>)
      modifies this
      ensures (sessions, r) == Added(old(sessions), f)
    {
      if f.som {
        sessions := sessions[f.key := Session([f], Next(f.pktSeq))];
        if f.eom {
          var session := sessions[f.key];
          sessions := sessions - {f.key};
          assert sessions == old(sessions) - {f.key};
          var message := AssembleSession(session);
          return Some(message);
        }
        return None;
      }
      if f.key !in sessions {
        return None;
      }
      if f.pktSeq != sessions[f.key].expected {
        sessions := sessions - {f.key};
        return None;
      }
      var fs := sessions[f.key].fragments + [f];
      sessions := sessions[f.key := Session(fs, Next(f.pktSeq))];
      if f.eom {
        var session := sessions[f.key];
        sessions := sessions - {f.key};
        assert sessions == old(sessions) - {f.key};
        var message := AssembleSession(session);
        return Some(message);
      }
      r := None;
    }
  }

  /** Concatenate the payloads of a session's fragments. */
  method AssembleSession(s: Session) returns (r: Assembled)
    requires s.fragments != []
    ensures r == Assemble(s.fragments)
  {
    var fs := s.fragments;
    var payload: seq<byte> := [];
    for i := 0 to |fs|
      invariant payload == Payloads(fs[..i])
    {
      assert fs[..i + 1][..i] == fs[..i];
      if fs[i].payload != [] {
        payload := payload + fs[i].payload;
      }
    }
    assert fs[..|fs|] == fs;
    r := Assembled(fs[0].key, fs[0].msgType, payload, |fs|);
  }

  // ---- runs over any interleaving ----

  /** The dictionary after a capture. */
  function Sessions(fs: seq<Fragment>): map<Key, Session> {
    if fs == [] then map[] else Added(Sessions(fs[..|fs| - 1]), fs[|fs| - 1]).0
  }

  /** What the `j`-th fragment of a capture produces. */
  function Output(fs: seq<Fragment>, j: nat): Option<Assembled>
    requires j < |fs|
  {
    Added(Sessions(fs[..j]), fs[j]).1
  }

  /** The session left by fragments that are all of one message stream. */
  function Run(gs: seq<Fragment>): Option<Session> {
    if gs == [] then None else Advance(Run(gs[..|gs| - 1]), gs[|gs| - 1]).0
  }

  /** The fragments of one key. */
  function Mine(fs: seq<Fragment>, k: Key): seq<Fragment> {
    if fs == [] then []
    else
      var f := fs[|fs| - 1];
      Mine(fs[..|fs| - 1], k) + if f.key == k then [f] else []
  }

  /** One step of the dictionary is one step of the fragment's own session and no other. */
  lemma {:induction false} AddedAt(m: map<Key, Session>, f: Fragment, k: Key)
    ensures Lookup(Added(m, f).0, k) == if k == f.key then Advance(Lookup(m, k), f).0 else Lookup(m, k)
    ensures Added(m, f).1 == Advance(Lookup(m, f.key), f).1
  {}

  /** Keys do not interfere: whatever is interleaved, the shared dictionary holds for a key exactly
      the session its own fragments alone would leave. */
  lemma {:induction false} KeysDoNotInterfere(fs: seq<Fragment>, k: Key)
    ensures Lookup(Sessions(fs), k) == Run(Mine(fs, k))
    ensures forall f :: f in Mine(fs, k) ==> f.key == k
  {
    if fs != [] {
      var n := |fs| - 1;
      KeysDoNotInterfere(fs[..n], k);
      AddedAt(Sessions(fs[..n]), fs[n], k);
      var mine := Mine(fs, k);
      if fs[n].key == k {
        assert mine[..|mine| - 1] == Mine(fs[..n], k);
      } else {
        assert mine == Mine(fs[..n], k);
      }
    }
  }

  /** So what a fragment produces depends on its own key's fragments alone. */
  lemma {:induction false} OutputIsOwn(fs: seq<Fragment>, j: nat)
    requires j < |fs|
    ensures var mine := Mine(fs[..j + 1], fs[j].key);
            && mine != [] && mine[|mine| - 1] == fs[j]
            && Output(fs, j) == Advance(Run(mine[..|mine| - 1]), fs[j]).1
  {
    var k := fs[j].key;
    assert fs[..j + 1][..j] == fs[..j];
    var mine := Mine(fs[..j + 1], k);
    assert mine == Mine(fs[..j], k) + [fs[j]];
    assert mine[..|mine| - 1] == Mine(fs[..j], k);
    KeysDoNotInterfere(fs[..j], k);
    AddedAt(Sessions(fs[..j]), fs[j], k);
  }

  // ---- what comes out, without the state ----

  /** `gs[i..n]` starts a message and continues it without a gap. */
  ghost predicate Consecutive(gs: seq<Fragment>, i: nat, n: nat)
    requires n <= |gs|
  {
    && i < n && gs[i].som
    && (forall k :: i < k < n ==> !gs[k].som && gs[k].pktSeq == Next(gs[k - 1].pktSeq))
    && (forall k :: i <= k < n - 1 ==> !gs[k].eom)
  }

  /** How a run extends by one fragment. */
  lemma {:induction false} ConsecutiveStep(gs: seq<Fragment>, i: nat)
    requires gs != []
    ensures var n := |gs| - 1;
            Consecutive(gs, i, |gs|) <==>
              if gs[n].som then i == n
              else i < n && Consecutive(gs[..n], i, n) && !gs[n - 1].eom && gs[n].pktSeq == Next(gs[n - 1].pktSeq)
    ensures i < |gs| ==> gs[..|gs| - 1][i..] + [gs[|gs| - 1]] == gs[i..]
  {}

  /** The open run at the end of a key's fragments. */
  ghost predicate OpenRun(gs: seq<Fragment>, i: nat) {
    Consecutive(gs, i, |gs|) && !gs[|gs| - 1].eom
  }

  /** A session is exactly the open consecutive run of its fragments, if there is one. */
  lemma {:induction false} SessionIsOpenRun(gs: seq<Fragment>)
    ensures Run(gs).Some? <==> exists i: nat :: OpenRun(gs, i)
    ensures forall i: nat :: OpenRun(gs, i) ==> Run(gs) == Some(Session(gs[i..], Next(gs[|gs| - 1].pktSeq)))
  {
    if gs != [] {
      var n := |gs| - 1;
      SessionIsOpenRun(gs[..n]);
      forall i: nat | OpenRun(gs, i) ensures Run(gs) == Some(Session(gs[i..], Next(gs[n].pktSeq))) {
        ConsecutiveStep(gs, i);
        if gs[n].som {
          assert gs[i..] == [gs[n]];
        } else {
          assert OpenRun(gs[..n], i);
        }
      }
      if Run(gs).Some? {
        if gs[n].som {
          ConsecutiveStep(gs, n);
          assert OpenRun(gs, n);
        } else {
          var i: nat :| OpenRun(gs[..n], i);
          ConsecutiveStep(gs, i);
          assert OpenRun(gs, i);
        }
      }
    }
  }

  /** The message of a run of fragments: the key they share, the type of the first, their payloads in
      order and their number. */
  ghost predicate MessageOf(m: Assembled, run: seq<Fragment>) {
    && run != [] && m.key == run[0].key && m.msgType == run[0].msgType
    && m.payload == Payloads(run) && m.count == |run|
  }

  /** Exactness: a message comes out of the dictionary with a fragment if and only if the fragments of
      its key end in a start, consecutive sequence numbers and the first end; it is the message of
      those fragments, and of the key of the fragment it comes out with. */
  lemma {:induction false} OutputIsExact(fs: seq<Fragment>, j: nat)
    requires j < |fs|
    ensures var mine := Mine(fs[..j + 1], fs[j].key);
            && (Output(fs, j).Some? <==> fs[j].eom && exists i: nat :: Consecutive(mine, i, |mine|))
            && (forall i: nat :: fs[j].eom && Consecutive(mine, i, |mine|) ==>
                 Output(fs, j) == Some(Assemble(mine[i..])) && MessageOf(Output(fs, j).value, mine[i..]))
            && (Output(fs, j).Some? ==> Output(fs, j).value.key == fs[j].key)
  {
    OutputIsOwn(fs, j);
    var mine := Mine(fs[..j + 1], fs[j].key);
    OwnOutputIsExact(mine);
    KeysDoNotInterfere(fs[..j + 1], fs[j].key);
    if Output(fs, j).Some? {
      var i: nat :| Consecutive(mine, i, |mine|);
      assert mine[i] in mine;
    }
  }

  lemma {:induction false} OwnOutputIsExact(mine: seq<Fragment>)
    requires mine != []
    ensures var n := |mine| - 1;
            var out := Advance(Run(mine[..n]), mine[n]).1;
            && (out.Some? <==> mine[n].eom && exists i: nat :: Consecutive(mine, i, |mine|))
            && (forall i: nat :: mine[n].eom && Consecutive(mine, i, |mine|) ==> out == Some(Assemble(mine[i..])))
  {
    var n := |mine| - 1;
    var out := Advance(Run(mine[..n]), mine[n]).1;
    SessionIsOpenRun(mine[..n]);
    forall i: nat | mine[n].eom && Consecutive(mine, i, |mine|) ensures out == Some(Assemble(mine[i..])) {
      ConsecutiveStep(mine, i);
      if !mine[n].som { assert OpenRun(mine[..n], i); }
    }
    if out.Some? {
      if mine[n].som {
        ConsecutiveStep(mine, n);
      } else {
        var i: nat :| OpenRun(mine[..n], i);
        ConsecutiveStep(mine, i);
      }
    }
  }

  // ---- whole messages through the packet parser ----

  function SeqBits(b: byte): Seq4 {
    var s := (b >> 4) & 0x03;
    if s == 0 then 0 else if s == 1 then 1 else if s == 2 then 2 else 3
  }

  /** The packet parser; packets under four bytes are an error. The byte after the header is taken
      as the message type of every packet, not only of the first. */
  function ParsePacket(data: seq<byte>): Option<Fragment> {
    if |data| < 4 then None
    else
      Some(Fragment(Key(data[2], data[0], data[3] & 0x07), data[3] & 0x80 != 0, data[3] & 0x40 != 0, SeqBits(data[3]),
                    if |data| > 4 then Some(data[4] & 0x7F) else None, if |data| > 5 then data[5..] else []))
  }

  /** A packet as MCTP lays it out: endpoints, a version byte, then one byte of flags (start, end, two
      bits of sequence number, tag owner, three bits of tag). */
  function Packet(dest: byte, version: byte, src: byte, som: bool, eom: bool, n: bv2, owner: bool, tag: bv3,
                  body: seq<byte>): seq<byte>
  {
    var flags := (if som then 0x80 else 0) | (if eom then 0x40 else 0) | ((n as byte) << 4)
                 | (if owner then 0x08 else 0) | (tag as byte);
    [dest, version, src, flags] + body
  }

  /** The parser gets every field back, and keys the message by endpoints and tag alone: not by the
      version, the flags or the owner of the tag. */
  lemma {:induction false} PacketRoundTrips(dest: byte, version: byte, src: byte, som: bool, eom: bool, n: bv2,
                                            owner: bool, tag: bv3, body: seq<byte>)
    ensures ParsePacket(Packet(dest, version, src, som, eom, n, owner, tag, body))
            == Some(Fragment(Key(src, dest, tag as byte), som, eom, n as int,
                             if body == [] then None else Some(body[0] & 0x7F),
                             if body == [] then [] else body[1..]))
  {
    var p := Packet(dest, version, src, som, eom, n, owner, tag, body);
    FlagBits(som, eom, n, owner, tag);
    PacketParses([dest, version, src, p[3]], body);
  }

  lemma {:induction false} PacketParses(head: seq<byte>, body: seq<byte>)
    requires |head| == 4
    ensures ParsePacket(head + body)
            == Some(Fragment(Key(head[2], head[0], head[3] & 0x07), head[3] & 0x80 != 0, head[3] & 0x40 != 0,
                             SeqBits(head[3]), if body == [] then None else Some(body[0] & 0x7F),
                             if body == [] then [] else body[1..]))
  {
    var p := head + body;
    assert |body| > 0 ==> p[4] == body[0];
    assert |body| > 1 ==> p[5..] == body[1..];
    assert |body| == 1 ==> body[1..] == [];
  }

  lemma {:induction false} FlagBits(som: bool, eom: bool, n: bv2, owner: bool, tag: bv3)
    ensures var flags: byte := (if som then 0x80 else 0) | (if eom then 0x40 else 0) | ((n as byte) << 4)
                               | (if owner then 0x08 else 0) | (tag as byte);
            && flags & 0x07 == tag as byte && (flags & 0x80 != 0 <==> som) && (flags & 0x40 != 0 <==> eom)
            && SeqBits(flags) == n as int
  {
    assert n == 0 || n == 1 || n == 2 || n == 3;
  }

  /** `packets` carry the message body cut into `chunks`: one key, start on the first packet, end on
      the last, sequence numbers counting up. */
  ghost predicate Carries(packets: seq<seq<byte>>, chunks: seq<seq<byte>>) {
    && |packets| == |chunks| > 0
    && (forall i :: 0 <= i < |packets| ==> |packets[i]| >= 4 && packets[i][4..] == chunks[i])
    && var fs := Parsed(packets);
       && (forall i :: 0 <= i < |fs| ==> fs[i].key == fs[0].key)
       && (forall i :: 0 <= i < |fs| ==> fs[i].som == (i == 0) && fs[i].eom == (i == |fs| - 1))
       && (forall i :: 1 <= i < |fs| ==> fs[i].pktSeq == Next(fs[i - 1].pktSeq))
  }

  function Parsed(packets: seq<seq<byte>>): (fs: seq<Fragment>)
    requires forall i :: 0 <= i < |packets| ==> |packets[i]| >= 4
    ensures |fs| == |packets|
  {
    seq(|packets|, i requires 0 <= i < |packets| => ParsePacket(packets[i]).value)
  }

  function Flatten(chunks: seq<seq<byte>>): seq<byte> {
    if chunks == [] then [] else Flatten(chunks[..|chunks| - 1]) + chunks[|chunks| - 1]
  }

  /** Every chunk without its first byte. */
  function Stripped(chunks: seq<seq<byte>>): seq<byte> {
    if chunks == [] then []
    else
      var last := chunks[|chunks| - 1];
      Stripped(chunks[..|chunks| - 1]) + if last == [] then [] else last[1..]
  }

  lemma {:induction false} PayloadsAreStripped(fs: seq<Fragment>, chunks: seq<seq<byte>>)
    requires |fs| == |chunks|
    requires forall i :: 0 <= i < |fs| ==> fs[i].payload == if chunks[i] == [] then [] else chunks[i][1..]
    ensures Payloads(fs) == Stripped(chunks)
  {
    if fs != [] {
      PayloadsAreStripped(fs[..|fs| - 1], chunks[..|fs| - 1]);
    }
  }

  /** Fragment `j` of a capture is the last of a message: the fragments of its key so far end in the
      message's packets. Other messages may be interleaved, and anything may have come before. */
  ghost predicate Completes(fs: seq<Fragment>, j: nat, packets: seq<seq<byte>>, chunks: seq<seq<byte>>) {
    && j < |fs| && Carries(packets, chunks)
    && var mine := Mine(fs[..j + 1], fs[j].key);
       |packets| <= |mine| && mine[|mine| - |packets|..] == Parsed(packets)
  }

  /** A message sent in packets is emitted with the last one, with every chunk's first byte gone. */
  lemma {:induction false} MessageComesOutStripped(fs: seq<Fragment>, j: nat, packets: seq<seq<byte>>,
                                                   chunks: seq<seq<byte>>)
    requires Completes(fs, j, packets, chunks)
    ensures var out := Output(fs, j);
            && out.Some? && out.value.payload == Stripped(chunks) && out.value.count == |packets|
            && out.value.key == Key(packets[0][2], packets[0][0], packets[0][3] & 0x07)
            && out.value.msgType == if chunks[0] == [] then None else Some(chunks[0][0] & 0x7F)
  {
    var mine := Mine(fs[..j + 1], fs[j].key);
    var i := |mine| - |packets|;
    MessageIsConsecutive(mine, i, packets, chunks);
    OutputOfRun(fs, j, i);
    AssembledMessage(packets, chunks);
  }

  lemma {:induction false} OutputOfRun(fs: seq<Fragment>, j: nat, i: nat)
    requires j < |fs|
    requires var mine := Mine(fs[..j + 1], fs[j].key); Consecutive(mine, i, |mine|) && mine[|mine| - 1].eom
    ensures Output(fs, j) == Some(Assemble(Mine(fs[..j + 1], fs[j].key)[i..]))
  {
    OutputIsOwn(fs, j);
    OutputIsExact(fs, j);
  }

  lemma {:induction false} AssembledMessage(packets: seq<seq<byte>>, chunks: seq<seq<byte>>)
    requires Carries(packets, chunks)
    ensures var message := Assemble(Parsed(packets));
            && message.payload == Stripped(chunks) && message.count == |packets|
            && message.key == Key(packets[0][2], packets[0][0], packets[0][3] & 0x07)
            && message.msgType == if chunks[0] == [] then None else Some(chunks[0][0] & 0x7F)
  {
    assert |packets[0]| > 4 ==> packets[0][4] == chunks[0][0];
    PacketPayloads(packets, chunks);
    PayloadsAreStripped(Parsed(packets), chunks);
  }

  lemma {:induction false} MessageIsConsecutive(mine: seq<Fragment>, i: nat, packets: seq<seq<byte>>,
                                                chunks: seq<seq<byte>>)
    requires Carries(packets, chunks) && i <= |mine| && mine[i..] == Parsed(packets)
    ensures Consecutive(mine, i, |mine|) && mine[|mine| - 1].eom
  {
    var gs := Parsed(packets);
    assert mine[i] == gs[0] && mine[|mine| - 1] == gs[|gs| - 1];
    forall k | i < k < |mine| ensures !mine[k].som && mine[k].pktSeq == Next(mine[k - 1].pktSeq) {
      assert mine[k] == gs[k - i] && mine[k - 1] == gs[k - i - 1];
    }
    forall k | i <= k < |mine| - 1 ensures !mine[k].eom {
      assert mine[k] == gs[k - i];
    }
  }

  lemma {:induction false} PacketPayloads(packets: seq<seq<byte>>, chunks: seq<seq<byte>>)
    requires Carries(packets, chunks)
    ensures var gs := Parsed(packets);
            forall i :: 0 <= i < |gs| ==> gs[i].payload == if chunks[i] == [] then [] else chunks[i][1..]
  {
    forall i | 0 <= i < |packets|
      ensures Parsed(packets)[i].payload == if chunks[i] == [] then [] else chunks[i][1..]
    {
      if |packets[i]| > 5 { assert packets[i][5..] == packets[i][4..][1..]; }
    }
  }

  lemma {:induction false} StrippedLength(chunks: seq<seq<byte>>)
    ensures |Stripped(chunks)| <= |Flatten(chunks)|
    ensures Flatten(chunks) != [] ==> |Stripped(chunks)| < |Flatten(chunks)|
    ensures Flatten(chunks) == [] <==> forall i :: 0 <= i < |chunks| ==> chunks[i] == []
  {
    if chunks != [] {
      var n := |chunks| - 1;
      StrippedLength(chunks[..n]);
      assert Flatten(chunks) == [] <==> Flatten(chunks[..n]) == [] && chunks[n] == [];
    }
  }

  /** At most one packet carries data. */
  ghost predicate OnePacketOfData(chunks: seq<seq<byte>>) {
    forall i, j :: 0 <= i < j < |chunks| ==> chunks[i] == [] || chunks[j] == []
  }

  lemma {:induction false} OnePacketGrows(init: seq<seq<byte>>, last: seq<byte>)
    requires exists i :: 0 <= i < |init| && init[i] != []
    ensures OnePacketOfData(init + [last]) <==> OnePacketOfData(init) && last == []
  {
    var chunks := init + [last];
    var i :| 0 <= i < |init| && init[i] != [];
    assert chunks[|init|] == last && chunks[i] == init[i];
    assert forall k :: 0 <= k < |init| ==> chunks[k] == init[k];
  }

  lemma {:induction false} AppendedChunk(body: seq<byte>, out: seq<byte>, last: seq<byte>)
    requires |out| + 1 <= |body|
    ensures out + (if last == [] then [] else last[1..]) == (body + last)[1..] <==> last == [] && out == body[1..]
  {
    if last == [] {
      assert out + [] == out && body + [] == body;
    } else {
      assert |out + last[1..]| < |(body + last)[1..]|;
    }
  }

  lemma {:induction false} StrippedIffOnePacket(chunks: seq<seq<byte>>)
    requires Flatten(chunks) != []
    ensures Stripped(chunks) == Flatten(chunks)[1..] <==> OnePacketOfData(chunks)
  {
    var n := |chunks| - 1;
    var init, last := chunks[..n], chunks[n];
    StrippedLength(init);
    if Flatten(init) == [] {
      assert Flatten(chunks) == [] + last == last;
      assert Stripped(init) == [] && Stripped(chunks) == [] + last[1..] == last[1..];
      assert forall i :: 0 <= i < n ==> chunks[i] == init[i] == [];
    } else {
      StrippedIffOnePacket(init);
      AppendedChunk(Flatten(init), Stripped(init), last);
      assert chunks == init + [last];
      OnePacketGrows(init, last);
    }
  }

  /** The monitor puts out a message's body after its type byte exactly when all data sits in one
      packet: only single-packet messages survive its parser. */
  lemma {:induction false} BodyRecoveredIffOnePacket(fs: seq<Fragment>, j: nat, packets: seq<seq<byte>>,
                                                     chunks: seq<seq<byte>>)
    requires Completes(fs, j, packets, chunks) && Flatten(chunks) != []
    ensures Output(fs, j).Some?
    ensures Output(fs, j).value.payload == Flatten(chunks)[1..] <==> OnePacketOfData(chunks)
  {
    MessageComesOutStripped(fs, j, packets, chunks);
    StrippedIffOnePacket(chunks);
  }

  const FIRST: seq<byte> := [8, 0, 9, 0x80, 1, 2]
  const SECOND: seq<byte> := [8, 0, 9, 0x50, 3, 4]

  lemma {:induction false} TwoPacketsCarry()
    ensures Carries([FIRST, SECOND], [[1, 2], [3, 4]])
  {
    var packets := [FIRST, SECOND];
    assert FIRST[4..] == [1, 2] && SECOND[4..] == [3, 4];
    var fs := Parsed(packets);
    assert fs[0] == ParsePacket(FIRST).value && fs[1] == ParsePacket(SECOND).value;
    assert fs[0].som && !fs[0].eom && fs[0].pktSeq == 0;
    assert !fs[1].som && fs[1].eom && fs[1].pktSeq == 1;
  }

  lemma {:induction false} OfTwoChunks(a: seq<byte>, b: seq<byte>)
    requires a != [] && b != []
    ensures Flatten([a, b]) == a + b && Stripped([a, b]) == a[1..] + b[1..]
  {
    assert [a, b][..1] == [a] && [a][..0] == [];
    assert Flatten([a]) == [] + a == a && Stripped([a]) == [] + a[1..] == a[1..];
  }

  lemma {:induction false} MineOfTwo(f: Fragment, g: Fragment)
    requires f.key == g.key
    ensures Mine([f, g], g.key) == [f, g]
  {
    assert [f, g][..1] == [f] && [f][..0] == [];
    assert Mine([f], g.key) == [] + [f] == [f];
  }

  lemma {:induction false} OutputOfTwo(p: seq<byte>, q: seq<byte>, a: seq<byte>, b: seq<byte>)
    requires Carries([p, q], [a, b]) && a != [] && b != []
    ensures var fs := Parsed([p, q]);
            |fs| == 2 && Output(fs, 1).Some? && Output(fs, 1).value.payload == a[1..] + b[1..]
  {
    var fs := Parsed([p, q]);
    assert fs == [fs[0], fs[1]] && fs[..2] == fs;
    MineOfTwo(fs[0], fs[1]);
    assert fs[0..] == fs;
    MessageComesOutStripped(fs, 1, [p, q], [a, b]);
    OfTwoChunks(a, b);
  }

  /** The body [1, 2, 3, 4] in two packets: the byte 3 is lost. */
  lemma {:induction false} TwoPacketsLoseAByte()
    ensures var fs := Parsed([FIRST, SECOND]);
            && Carries([FIRST, SECOND], [[1, 2], [3, 4]]) && Flatten([[1, 2], [3, 4]]) == [1, 2, 3, 4]
            && Output(fs, 1).Some? && Output(fs, 1).value.payload == [2, 4]
  {
    TwoPacketsCarry();
    OutputOfTwo(FIRST, SECOND, [1, 2], [3, 4]);
    OfTwoChunks([1, 2], [3, 4]);
  }
}
