/**
 * A timeout inside a packet makes `_recvn` forget the bytes it holds. For published packets the subscriber
 * gets the right messages exactly when no timeout falls inside a packet.
 */
module MqttExact {
  import opened ConveyorTypes
  import opened MqttEncoder
  import opened MqttReader
  import opened MqttStream

  type Published = p: Packet | p.Publish? && Sendable(p) witness Packet.Publish([], [], 0)

  /** All bytes of the stream, timeouts ignored. */
  function AllBytes(items: seq<Item>): Bytes {
    if items == [] then []
    else (if items[0].Chunk? then items[0].bytes else []) + AllBytes(items[1..])
  }

  /** A successful read takes bytes off the front and crosses no timeout; any read only takes from the front. */
  ghost predicate Takes(items: seq<Item>, front: Bytes, rest: seq<Item>) {
    && AllBytes(items) == front + AllBytes(rest)
    && Lead(items) == front + Lead(rest)
    && Rest(items) == Rest(rest)
    && NonEmptyChunks(rest)
  }

  lemma TakesNothing(items: seq<Item>)
    requires NonEmptyChunks(items)
    ensures Takes(items, [], items)
  {
    assert [] + AllBytes(items) == AllBytes(items);
    assert [] + Lead(items) == Lead(items);
  }

  lemma TakesTwice(a: seq<Item>, f: Bytes, b: seq<Item>, g: Bytes, c: seq<Item>)
    requires Takes(a, f, b) && Takes(b, g, c)
    ensures Takes(a, f + g, c)
  {
    ConcatAssoc(f, g, AllBytes(c));
    ConcatAssoc(f, g, Lead(c));
  }

  lemma ReceiveOneTakes(items: seq<Item>, n: nat)
    requires NonEmptyChunks(items) && n > 0 && items != [] && items[0].Chunk?
    ensures var (c, tail) := Receive(items, n);
            c.Got? && c.value != [] && Takes(items, c.value, tail)
  {
    var b := items[0].bytes;
    if |b| > n {
      var cut := [Chunk(b[n..])] + items[1..];
      assert cut[1..] == items[1..];
      assert b == b[..n] + b[n..];
      ConcatAssoc(b[..n], b[n..], AllBytes(items[1..]));
      ConcatAssoc(b[..n], b[n..], Lead(items[1..]));
      assert Receive(items, n) == (Got(b[..n]), cut);
    }
  }

  lemma {:induction false} ReceiveTakes(items: seq<Item>, n: nat)
    requires NonEmptyChunks(items)
    ensures var (r, rest) := ReceiveN(items, n);
            && NonEmptyChunks(rest)
            && |AllBytes(rest)| <= |AllBytes(items)|
            && (r.Got? ==> Takes(items, r.value, rest))
            && (r.Raised? && n > 0 && items != [] && items[0].Chunk? ==> |AllBytes(rest)| < |AllBytes(items)|)
            && (r.Raised? ==> r.exc == TimedOut || r.exc == Eof)
            && (r == Raised(Eof) ==> rest == [])
    decreases n
  {
    if n == 0 {
      TakesNothing(items);
      return;
    }
    if items == [] || items[0].Timeout? {
      if items != [] {
        assert AllBytes(items) == [] + AllBytes(items[1..]) == AllBytes(items[1..]);
      }
      return;
    }
    var b := items[0].bytes;
    assert b != [];
    var (c, tail) := Receive(items, n);
    ReceiveOneTakes(items, n);
    ReceiveTakes(tail, n - |c.value|);
    var (more, rest) := ReceiveN(tail, n - |c.value|);
    if more.Got? {
      TakesTwice(items, c.value, tail, more.value, rest);
    }
  }

  /** What a remaining length read from its i-th byte on took: `front`, no shorter than the code of its value m. */
  ghost predicate PaysForLength(items: seq<Item>, i: nat, val: nat, m: nat, front: Bytes) {
    var (r, rest) := RemlenFrom(items, i, val);
    && NonEmptyChunks(rest)
    && |AllBytes(rest)| <= |AllBytes(items)|
    && (r.Got? ==> r.value == val + Shift(m, i) && Takes(items, front, rest) && |RemlenCode(m)| <= |front|)
  }

  lemma LongerCode(low: nat, q: nat)
    requires low < 128
    ensures |RemlenCode(low + 128 * q)| <= 1 + |RemlenCode(q)|
  {
    var n := low + 128 * q;
    assert n / 128 == q;
    if n >= 128 {
      CodeSplit(n, []);
    }
  }

  lemma PaysLonger(items: seq<Item>, i: nat, val: nat, byte: Byte, rest: seq<Item>, q: nat, back: Bytes)
    returns (m: nat, front: Bytes)
    requires i < 4 && byte >= 128 && Takes(items, [byte], rest)
    requires RemlenFrom(items, i, val) == RemlenFrom(rest, i + 1, val + Septet(byte, i))
    requires PaysForLength(rest, i + 1, val + Septet(byte, i), q, back)
    ensures PaysForLength(items, i, val, m, front)
  {
    m, front := byte % 128 + 128 * q, [byte] + back;
    var (r, last) := RemlenFrom(items, i, val);
    if r.Got? {
      TakesTwice(items, [byte], rest, back, last);
      ShiftSum(byte % 128, q, i);
      LongerCode(byte % 128, q);
    }
  }

  lemma TakesOne(items: seq<Item>) returns (byte: Byte, rest: seq<Item>)
    requires NonEmptyChunks(items) && ReceiveN(items, 1).0.Got?
    ensures ReceiveN(items, 1) == (Got([byte]), rest) && Takes(items, [byte], rest)
  {
    ReceiveTakes(items, 1);
    byte, rest := ReceiveN(items, 1).0.value[0], ReceiveN(items, 1).1;
    assert ReceiveN(items, 1).0.value == [byte];
  }

  lemma PaysShort(items: seq<Item>, i: nat, val: nat, byte: Byte, rest: seq<Item>)
    requires byte < 128 && Takes(items, [byte], rest)
    requires RemlenFrom(items, i, val) == (Got(val + Septet(byte, i)), rest)
    ensures PaysForLength(items, i, val, byte, [byte])
  {
    assert byte % 128 == byte;
  }

  lemma PaysRaised(items: seq<Item>, i: nat, val: nat)
    requires NonEmptyChunks(items)
    requires i >= 4 || ReceiveN(items, 1).0.Raised?
    ensures PaysForLength(items, i, val, 0, [])
  {
    ReceiveTakes(items, 1);
  }

  /** One byte of a length was read: the induction step, given what the bytes after it pay for. */
  lemma PaysStep(items: seq<Item>, i: nat, val: nat, byte: Byte, rest: seq<Item>, q: nat, back: Bytes)
    returns (m: nat, front: Bytes)
    requires i < 4 && ReceiveN(items, 1) == (Got([byte]), rest) && Takes(items, [byte], rest)
    requires byte >= 128 ==> PaysForLength(rest, i + 1, val + Septet(byte, i), q, back)
    ensures PaysForLength(items, i, val, m, front)
  {
    RemlenStep(items, i, val, byte, rest);
    if byte < 128 {
      PaysShort(items, i, val, byte, rest);
      m, front := byte, [byte];
    } else {
      m, front := PaysLonger(items, i, val, byte, rest, q, back);
    }
  }

  /** No string of bytes encodes a length in fewer bytes than `_enc_remlen` does. */
  lemma {:induction false} CodesAreMinimal(items: seq<Item>, i: nat, val: nat) returns (m: nat, front: Bytes)
    requires NonEmptyChunks(items)
    ensures PaysForLength(items, i, val, m, front)
    decreases 4 - i
  {
    if i >= 4 || ReceiveN(items, 1).0.Raised? {
      PaysRaised(items, i, val);
      m, front := 0, [];
    } else {
      var byte, rest := TakesOne(items);
      var q, back := CodesAreMinimal(rest, i + 1, val + Septet(byte, i));
      m, front := PaysStep(items, i, val, byte, rest, q, back);
    }
  }

  /** The size of the packet that publishes the message; every message read has such a packet. */
  function MessageSize(m: Message): nat {
    if |m.topic| < 0x1_0000 then |Wire(Packet.Publish(m.topic, m.payload, 0))| else 0
  }

  /** What one loop iteration of the subscriber takes from the stream, at least. */
  ghost predicate PaysForPacket(items: seq<Item>, front: Bytes) {
    var (r, rest) := PacketFrom(items);
    && NonEmptyChunks(rest)
    && |AllBytes(rest)| <= |AllBytes(items)|
    && (r.Got? ==> Takes(items, front, rest) && front != [])
    && (r.Got? && r.value.Some? ==> |r.value.value.topic| < 0x1_0000 && MessageSize(r.value.value) <= |front|)
    && (r.Raised? && items != [] && items[0].Chunk? ==> |AllBytes(rest)| < |AllBytes(items)|)
  }

  lemma DecodeLength(h: Byte, data: Bytes)
    ensures var d := Decode(h, data);
            d.Got? && d.value.Some? ==>
              && |d.value.value.topic| < 0x1_0000
              && |Body(Packet.Publish(d.value.value.topic, d.value.value.payload, 0))| == |data|
  {
  }

  lemma PaysWhenDecoded(items: seq<Item>, h: Byte, afterHeader: seq<Item>, code: Bytes, n: nat, afterLength: seq<Item>,
                        data: Bytes, rest: seq<Item>)
    requires PacketFrom(items) == (Decode(h, data), rest)
    requires Takes(items, [h], afterHeader) && Takes(afterHeader, code, afterLength) && Takes(afterLength, data, rest)
    requires |data| == n && |RemlenCode(n)| <= |code|
    ensures PaysForPacket(items, [h] + code + data)
  {
    TakesTwice(items, [h], afterHeader, code, afterLength);
    TakesTwice(items, [h] + code, afterLength, data, rest);
    DecodeLength(h, data);
  }

  lemma PacketRaised(items: seq<Item>, h: Byte, afterHeader: seq<Item>)
    requires ReceiveN(items, 1) == (Got([h]), afterHeader)
    ensures var (rem, afterLength) := RemlenFrom(afterHeader, 0, 0);
            && (rem.Raised? ==> PacketFrom(items) == (Raised(rem.exc), afterLength))
            && (rem.Got? && ReceiveN(afterLength, rem.value).0.Raised? ==>
                  PacketFrom(items).1 == ReceiveN(afterLength, rem.value).1 && PacketFrom(items).0.Raised?)
  {
  }

  lemma PacketTakes(items: seq<Item>) returns (front: Bytes)
    requires NonEmptyChunks(items)
    ensures PaysForPacket(items, front)
  {
    front := [];
    ReceiveTakes(items, 1);
    var (h, afterHeader) := ReceiveN(items, 1);
    if h.Raised? {
      return;
    }
    var header := h.value[0];
    assert h.value == [header];
    PacketRaised(items, header, afterHeader);
    var m, code := CodesAreMinimal(afterHeader, 0, 0);
    var (rem, afterLength) := RemlenFrom(afterHeader, 0, 0);
    if rem.Raised? {
      return;
    }
    ReceiveTakes(afterLength, rem.value);
    var (data, rest) := ReceiveN(afterLength, rem.value);
    if data.Raised? {
      return;
    }
    PacketParts(items, header, afterHeader, rem.value, afterLength, data.value, rest);
    PaysWhenDecoded(items, header, afterHeader, code, rem.value, afterLength, data.value, rest);
    front := [header] + code + data.value;
  }

  function WireSum(messages: seq<Message>): nat {
    if messages == [] then 0 else MessageSize(messages[0]) + WireSum(messages[1..])
  }

  lemma WireSumCons(m: Message, messages: seq<Message>)
    ensures WireSum([m] + messages) == MessageSize(m) + WireSum(messages)
  {
    assert ([m] + messages)[1..] == messages;
  }

  /** The packets of the messages a session yields never need more bytes than the stream held. */
  lemma {:induction false} SessionPays(items: seq<Item>)
    requires NonEmptyChunks(items)
    ensures WireSum(Session(items).messages) <= |AllBytes(items)|
    decreases Size(items)
  {
    var (r, rest) := PacketFrom(items);
    var front := PacketTakes(items);
    if r.Got? {
      SessionPays(rest);
      SessionAtPacket(items, r.value, rest);
      if r.value.Some? {
        WireSumCons(r.value.value, Session(rest).messages);
      } else {
        AfterNothing(Session(rest));
      }
    } else if r.exc == TimedOut {
      SessionPays(rest);
    }
  }

  function Sent(packets: seq<Published>): (s: seq<SendablePacket>)
    ensures |s| == |packets| && forall i :: 0 <= i < |s| ==> s[i] == packets[i]
  {
    if packets == [] then [] else [packets[0]] + Sent(packets[1..])
  }

  lemma SentTail(packets: seq<Published>)
    requires packets != []
    ensures Sent(packets)[0] == packets[0] && Sent(packets)[1..] == Sent(packets[1..])
    ensures Messages(Sent(packets)) == [Message(packets[0].topic, packets[0].payload)] + Messages(Sent(packets[1..]))
    ensures Stream(Sent(packets)) == Wire(packets[0]) + Stream(Sent(packets[1..]))
  {
  }

  lemma {:induction false} StreamLength(packets: seq<Published>)
    ensures WireSum(Messages(Sent(packets))) == |Stream(Sent(packets))|
  {
    if packets != [] {
      SentTail(packets);
      StreamLength(packets[1..]);
      WireSumCons(Message(packets[0].topic, packets[0].payload), Messages(Sent(packets[1..])));
    }
  }

  lemma DeliversLonger(items: seq<Item>, packets: seq<SendablePacket>, rest: seq<Item>)
    requires packets != [] && Takes(items, Wire(packets[0]), rest) && Delivers(rest, packets[1..])
    ensures Delivers(items, packets)
  {
    var k :| 0 <= k <= |packets| - 1 && DeliversFirst(rest, packets[1..], k);
    assert packets[..k + 1][0] == packets[0] && packets[..k + 1][1..] == packets[1..][..k];
    assert packets[1..][k..] == packets[k + 1..];
    assert DeliversFirst(items, packets, k + 1);
  }

  /** Bytes taken by an iteration that raised leave too few for the messages still expected. */
  lemma BytesLost(items: seq<Item>, packets: seq<Published>)
    requires NonEmptyChunks(items) && items != [] && items[0].Chunk?
    requires AllBytes(items) == Stream(Sent(packets))
    requires PacketFrom(items).0.Raised?
    ensures Session(items).messages != Messages(Sent(packets))
  {
    var (r, rest) := PacketFrom(items);
    var front := PacketTakes(items);
    StreamLength(packets);
    if r.exc == TimedOut {
      SessionPays(rest);
    }
  }

  lemma FrontIs(f: Bytes, a: Bytes, g: Bytes, b: Bytes)
    requires f + a == g + b && |g| <= |f| && |b| <= |a|
    ensures f == g && a == b
  {
    assert |f| == |g|;
    assert f == (f + a)[..|f|] && g == (g + b)[..|g|];
    assert a == (f + a)[|f|..] && b == (g + b)[|g|..];
  }

  lemma {:induction false} RightOnlyIfDelivered(items: seq<Item>, packets: seq<Published>)
    requires NonEmptyChunks(items)
    requires AllBytes(items) == Stream(Sent(packets))
    requires Session(items).messages == Messages(Sent(packets))
    ensures Delivers(items, Sent(packets))
    decreases Size(items)
  {
    var (r, rest) := PacketFrom(items);
    var front := PacketTakes(items);
    StreamLength(packets);
    if r.Got? {
      SessionAtPacket(items, r.value, rest);
      SessionPays(rest);
      if r.value.None? {
        AfterNothing(Session(rest));
        assert false;
      } else {
        var m := r.value.value;
        assert packets != [];
        SentTail(packets);
        StreamLength(packets[1..]);
        assert Session(items).messages[0] == m && Session(items).messages[1..] == Session(rest).messages;
        assert m == Message(packets[0].topic, packets[0].payload);
        FrontIs(front, AllBytes(rest), Wire(packets[0]), Stream(Sent(packets[1..])));
        RightOnlyIfDelivered(rest, packets[1..]);
        DeliversLonger(items, Sent(packets), rest);
      }
    } else if items == [] {
      assert packets == [] by { if packets != [] { SentTail(packets); } }
      assert DeliversFirst(items, Sent(packets), 0);
    } else if items[0].Timeout? {
      SessionSkipsTimeout(items);
      assert [] + Session(items[1..]).messages == Session(items[1..]).messages;
      assert [] + AllBytes(items[1..]) == AllBytes(items[1..]);
      RightOnlyIfDelivered(items[1..], packets);
      assert Sent(packets)[0..] == Sent(packets);
      assert DeliversFirst(items, Sent(packets), 0);
    } else {
      BytesLost(items, packets);
    }
  }

  /**
   * For published packets, in any chunking and with timeouts anywhere, the subscriber yields exactly the
   * published messages if and only if every timeout falls between two packets.
   */
  lemma RightIffTimeoutsBetweenPackets(items: seq<Item>, packets: seq<Published>)
    requires NonEmptyChunks(items)
    requires AllBytes(items) == Stream(Sent(packets))
    ensures Session(items).messages == Messages(Sent(packets)) <==> Delivers(items, Sent(packets))
  {
    if Delivers(items, Sent(packets)) {
      StreamRoundTrip(items, Sent(packets));
    }
    if Session(items).messages == Messages(Sent(packets)) {
      RightOnlyIfDelivered(items, packets);
    }
  }

  /** A PINGRESP, and a minute of silence inside it. */
  const SPLIT_PING: seq<Item> := [Chunk([0xD0]), Timeout, Chunk([0x00])]

  lemma SplitPingBytes()
    ensures Lead(SPLIT_PING) == [0xD0] && AllBytes(SPLIT_PING) == [0xD0, 0x00]
    ensures SPLIT_PING[1..] == [Timeout, Chunk([0x00])] && SPLIT_PING[2..] == [Chunk([0x00])]
  {
    var last := SPLIT_PING[2..];
    assert SPLIT_PING[1..] == [Timeout] + last && SPLIT_PING[1..][1..] == last && last[1..] == [];
    assert AllBytes(last) == [0x00] + AllBytes(last[1..]) && AllBytes(last[1..]) == [];
    assert AllBytes(SPLIT_PING[1..]) == [] + AllBytes(last) == [0x00];
  }

  /** A last byte that starts no packet is dropped at the end of the stream. */
  lemma LoneByteSession(last: seq<Item>)
    requires last == [Chunk([0x00])]
    ensures Session(last) == Outcome([], 0, Eof)
  {
    assert Lead(last) == [0x00] + Lead(last[1..]) && Rest(last) == [];
    ReceivesFront(last, 1);
    var end := ReceiveN(last, 1).1;
    assert ReceiveN(end, 1) == (Raised(Eof), []);
  }

  lemma SplitPingSession()
    ensures Session(SPLIT_PING) == Outcome([], 1, Eof)
  {
    var last := SPLIT_PING[2..];
    SplitPingBytes();
    assert SPLIT_PING[1..][1..] == last && last[1..] == [];
    assert ReceiveN(SPLIT_PING, 1) == (Got([0xD0]), SPLIT_PING[1..]);
    assert ReceiveN(SPLIT_PING[1..], 1) == (Raised(TimedOut), last);
    SessionAtTimeout(SPLIT_PING, last);
    LoneByteSession(last);
  }

  /** A PINGRESP holds nothing that could be lost: with them in the stream a timeout inside a packet may be harmless. */
  lemma TimeoutInsidePingMayBeHarmless()
    ensures var packets := [PingResp];
            && AllBytes(SPLIT_PING) == Stream(packets) && !Delivers(SPLIT_PING, packets)
            && Session(SPLIT_PING).messages == Messages(packets)
  {
    var packets := [PingResp];
    SplitPingBytes();
    SplitPingSession();
    assert RemlenCode(0) == [0] && Wire(PingResp) == [0xD0, 0x00];
    assert packets[1..] == [] && Stream(packets) == Wire(PingResp) + Stream(packets[1..]);
    assert packets[..0] == [] && packets[..1] == packets;
    assert forall k :: 0 <= k <= 1 ==> !DeliversFirst(SPLIT_PING, packets, k);
  }

  /** One silent minute after the first byte of a packet is enough to lose it. */
  lemma TimeoutInsidePacketLosesIt(p: Published)
    ensures var items := [Chunk([Header(p)]), Timeout, Chunk(Wire(p)[1..])];
            AllBytes(items) == Stream(Sent([p])) && Session(items).messages != Messages(Sent([p]))
  {
    var w := Wire(p);
    var items := [Chunk([Header(p)]), Timeout, Chunk(w[1..])];
    WireSplit(p, []);
    assert w == [Header(p)] + w[1..];
    assert items[1..] == [Timeout, Chunk(w[1..])] && items[1..][1..] == [Chunk(w[1..])];
    assert AllBytes(items[1..][1..]) == w[1..] + [] == w[1..];
    assert AllBytes(items[1..]) == w[1..];
    SentTail([p]);
    assert Stream(Sent([p])) == w + [] == w;
    assert Lead(items) == [Header(p)] + Lead(items[1..]) == [Header(p)];
    assert Sent([p])[..0] == [] && Sent([p])[..1] == Sent([p]);
    assert forall k :: 0 <= k <= 1 ==> |Stream(Sent([p])[..k])| != 1;
    assert forall k :: 0 <= k <= 1 ==> !DeliversFirst(items, Sent([p]), k);
    RightIffTimeoutsBetweenPackets(items, [p]);
  }
}
