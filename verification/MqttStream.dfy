/** Publisher and subscriber together: what was published comes out of any chunking of the byte stream. */
module MqttStream {
  import opened ConveyorTypes
  import opened Powers
  import opened MqttEncoder
  import opened MqttReader

  /** The bytes that arrive before the first timeout, and what is left from that timeout on. */
  function Lead(items: seq<Item>): Bytes {
    if items == [] || items[0].Timeout? then [] else items[0].bytes + Lead(items[1..])
  }

  function Rest(items: seq<Item>): (rest: seq<Item>)
    ensures |rest| <= |items|
    ensures rest != [] ==> rest[0].Timeout?
  {
    if items == [] || items[0].Timeout? then items else Rest(items[1..])
  }

  ghost predicate NonEmptyChunks(items: seq<Item>) {
    forall i :: 0 <= i < |items| && items[i].Chunk? ==> items[i].bytes != []
  }

  lemma {:induction false} LeadEmpty(items: seq<Item>)
    requires NonEmptyChunks(items)
    ensures NonEmptyChunks(Rest(items))
    ensures Lead(items) == [] ==> Rest(items) == items
  {
    if items != [] && items[0].Chunk? {
      LeadEmpty(items[1..]);
    }
  }

  lemma Slices(b: Bytes, tail: Bytes, n: nat)
    requires n <= |b| + |tail|
    ensures |b| <= n ==> (b + tail)[..n] == b + tail[..n - |b|] && (b + tail)[n..] == tail[n - |b|..]
    ensures n < |b| ==> (b + tail)[..n] == b[..n] && (b + tail)[n..] == b[n..] + tail
  {
  }

  /** However the bytes are chunked, `_recvn` takes exactly the first n of them. */
  lemma {:induction false} ReceivesFront(items: seq<Item>, n: nat)
    requires NonEmptyChunks(items) && n <= |Lead(items)|
    ensures var (r, rest) := ReceiveN(items, n);
            && r == Got(Lead(items)[..n])
            && Lead(rest) == Lead(items)[n..] && Rest(rest) == Rest(items) && NonEmptyChunks(rest)
    decreases n
  {
    if n == 0 {
      return;
    }
    var b, tail := items[0].bytes, items[1..];
    assert b != [];
    Slices(b, Lead(tail), n);
    if |b| <= n {
      ReceivesFront(tail, n - |b|);
    } else {
      var cut := [Chunk(b[n..])] + tail;
      assert cut[1..] == tail;
      assert ReceiveN(cut, 0) == (Got([]), cut);
      assert b[..n] + [] == b[..n];
    }
  }

  lemma SeptetStep(n: nat, i: nat)
    requires n >= 128
    ensures Septet(FirstByte(n), i) + Shift(n / 128, i + 1) == Shift(n, i)
  {
    assert FirstByte(n) % 128 == n % 128 && n == n % 128 + 128 * (n / 128);
    ShiftSum(n % 128, n / 128, i);
  }

  lemma OneByte(items: seq<Item>, b: Byte, tail: Bytes) returns (rest: seq<Item>)
    requires NonEmptyChunks(items) && Lead(items) == [b] + tail
    ensures ReceiveN(items, 1) == (Got([b]), rest)
    ensures Lead(rest) == tail && Rest(rest) == Rest(items) && NonEmptyChunks(rest)
  {
    ReceivesFront(items, 1);
    rest := ReceiveN(items, 1).1;
    assert Lead(items)[..1] == [b] && Lead(items)[1..] == tail;
  }

  lemma RemlenStep(items: seq<Item>, i: nat, val: nat, b: Byte, rest: seq<Item>)
    requires i < 4 && ReceiveN(items, 1) == (Got([b]), rest)
    ensures RemlenFrom(items, i, val) ==
              if b < 128 then (Got(val + Septet(b, i)), rest) else RemlenFrom(rest, i + 1, val + Septet(b, i))
  {
  }

  /** From its i-th byte on, the code of n is read back if it fits the bytes that remain; else reading fails. */
  ghost predicate ReadsBack(items: seq<Item>, i: nat, val: nat, n: nat, tail: Bytes) {
    var (r, rest) := RemlenFrom(items, i, val);
    if i + |RemlenCode(n)| <= 4
    then r == Got(val + Shift(n, i)) && Lead(rest) == tail && Rest(rest) == Rest(items) && NonEmptyChunks(rest)
    else r == Raised(Malformed)
  }

  lemma ReadsBackLonger(items: seq<Item>, i: nat, val: nat, n: nat, tail: Bytes, rest: seq<Item>)
    requires i < 4 && n >= 128
    requires Rest(rest) == Rest(items)
    requires RemlenFrom(items, i, val) == RemlenFrom(rest, i + 1, val + Septet(FirstByte(n), i))
    requires i < 3 ==> ReadsBack(rest, i + 1, val + Septet(FirstByte(n), i), n / 128, tail)
    ensures ReadsBack(items, i, val, n, tail)
  {
    SeptetStep(n, i);
    CodeSplit(n, tail);
  }

  lemma {:induction false} RemlenRead(items: seq<Item>, i: nat, val: nat, n: nat, tail: Bytes)
    requires NonEmptyChunks(items) && i < 4
    requires Lead(items) == RemlenCode(n) + tail
    ensures ReadsBack(items, i, val, n, tail)
    decreases 4 - i
  {
    if n < 128 {
      var rest := OneByte(items, n, tail);
      RemlenStep(items, i, val, n, rest);
    } else {
      CodeSplit(n, tail);
      var rest := OneByte(items, FirstByte(n), RemlenCode(n / 128) + tail);
      RemlenStep(items, i, val, FirstByte(n), rest);
      if i < 3 {
        RemlenRead(rest, i + 1, val + Septet(FirstByte(n), i), n / 128, tail);
      }
      ReadsBackLonger(items, i, val, n, tail, rest);
    }
  }

  /** `_read_remlen` inverts `_enc_remlen` exactly below 2^28, whatever follows and however it is chunked. */
  lemma RemlenRoundTripIff(items: seq<Item>, n: nat, tail: Bytes)
    requires NonEmptyChunks(items) && Lead(items) == RemlenCode(n) + tail
    ensures RemlenFrom(items, 0, 0).0 == Got(n) <==> n < MAX_REMLEN
    ensures n < MAX_REMLEN ==>
              var rest := RemlenFrom(items, 0, 0).1;
              Lead(rest) == tail && Rest(rest) == Rest(items) && NonEmptyChunks(rest)
    ensures n >= MAX_REMLEN ==> RemlenFrom(items, 0, 0).0 == Raised(Malformed)
    ensures |RemlenCode(n)| <= 4 <==> n < MAX_REMLEN
  {
    CodeLength(n, 4);
    assert Pow(128, 4) == MAX_REMLEN;
    RemlenRead(items, 0, 0, n, tail);
  }

  // ------------------------------------------------------------- round trip

  function Stream(packets: seq<SendablePacket>): Bytes
  {
    if packets == [] then [] else Wire(packets[0]) + Stream(packets[1..])
  }

  /** What one packet yields to the subscriber's caller. */
  function Yielded(p: Packet): seq<Message> {
    if p.Publish? then [Message(p.topic, p.payload)] else []
  }

  function Messages(packets: seq<SendablePacket>): seq<Message> {
    if packets == [] then [] else Yielded(packets[0]) + Messages(packets[1..])
  }

  lemma DecodesBody(p: SendablePacket)
    requires p.Publish?
    ensures Decode(Header(p), Body(p)) == Got(Some(Message(p.topic, p.payload)))
  {
    var data := Body(p);
    assert BigEndian(data[0], data[1]) == |p.topic|;
    assert data[2..2 + |p.topic|] == p.topic;
    assert data[2 + |p.topic|..] == p.payload;
  }

  lemma PacketParts(items: seq<Item>, h: Byte, afterHeader: seq<Item>, n: nat, afterLength: seq<Item>,
                    data: Bytes, rest: seq<Item>)
    requires ReceiveN(items, 1) == (Got([h]), afterHeader)
    requires RemlenFrom(afterHeader, 0, 0) == (Got(n), afterLength)
    requires ReceiveN(afterLength, n) == (Got(data), rest)
    ensures PacketFrom(items) == (Decode(h, data), rest)
  {
  }

  lemma BodyRead(items: seq<Item>, body: Bytes, tail: Bytes) returns (rest: seq<Item>)
    requires NonEmptyChunks(items) && Lead(items) == body + tail
    ensures ReceiveN(items, |body|) == (Got(body), rest)
    ensures Lead(rest) == tail && Rest(rest) == Rest(items) && NonEmptyChunks(rest)
  {
    ReceivesFront(items, |body|);
    rest := ReceiveN(items, |body|).1;
  }

  lemma PacketRead(items: seq<Item>, p: SendablePacket, tail: Bytes) returns (rest: seq<Item>)
    requires NonEmptyChunks(items)
    requires Lead(items) == Wire(p) + tail
    ensures && PacketFrom(items) == (Got(if p.Publish? then Some(Message(p.topic, p.payload)) else None), rest)
            && Lead(rest) == tail && Rest(rest) == Rest(items) && NonEmptyChunks(rest)
  {
    var body := Body(p);
    WireSplit(p, tail);
    var afterHeader := OneByte(items, Header(p), RemlenCode(|body|) + (body + tail));
    RemlenRoundTripIff(afterHeader, |body|, body + tail);
    var afterLength := RemlenFrom(afterHeader, 0, 0).1;
    rest := BodyRead(afterLength, body, tail);
    PacketParts(items, Header(p), afterHeader, |body|, afterLength, body, rest);
    if p.Publish? {
      DecodesBody(p);
    }
  }

  lemma SessionStep(items: seq<Item>, p: SendablePacket, tail: Bytes) returns (rest: seq<Item>)
    requires NonEmptyChunks(items)
    requires Lead(items) == Wire(p) + tail
    ensures Session(items) == After(Yielded(p), 0, Session(rest))
    ensures Lead(rest) == tail && Rest(rest) == Rest(items) && NonEmptyChunks(rest)
  {
    rest := PacketRead(items, p, tail);
    SessionAtPacket(items, if p.Publish? then Some(Message(p.topic, p.payload)) else None, rest);
  }

  /** Whole packets in front of a timeout are parsed one by one; the session goes on from the timeout. */
  lemma {:induction false} SessionOfPackets(items: seq<Item>, packets: seq<SendablePacket>)
    requires NonEmptyChunks(items)
    requires Lead(items) == Stream(packets)
    ensures Session(items) == After(Messages(packets), 0, Session(Rest(items)))
    decreases |packets|
  {
    if packets == [] {
      LeadEmpty(items);
      AfterNothing(Session(items));
    } else {
      var rest := SessionStep(items, packets[0], Stream(packets[1..]));
      SessionOfPackets(rest, packets[1..]);
      AfterTwice(Yielded(packets[0]), 0, Messages(packets[1..]), 0, Session(Rest(items)));
    }
  }

  /** The stream carries exactly these packets, and every timeout falls between two of them. */
  ghost predicate Delivers(items: seq<Item>, packets: seq<SendablePacket>)
    decreases |items|
  {
    exists k :: 0 <= k <= |packets| && DeliversFirst(items, packets, k)
  }

  ghost predicate DeliversFirst(items: seq<Item>, packets: seq<SendablePacket>, k: nat)
    requires k <= |packets|
    decreases |items|, 0
  {
    && Lead(items) == Stream(packets[..k])
    && if Rest(items) == [] then k == |packets| else Delivers(Rest(items)[1..], packets[k..])
  }

  function Timeouts(items: seq<Item>): nat {
    if items == [] then 0 else (if items[0].Timeout? then 1 else 0) + Timeouts(items[1..])
  }

  lemma {:induction false} TimeoutsInRest(items: seq<Item>)
    ensures Timeouts(items) == Timeouts(Rest(items))
  {
    if items != [] && items[0].Chunk? {
      TimeoutsInRest(items[1..]);
    }
  }

  lemma {:induction false} MessagesConcat(a: seq<SendablePacket>, b: seq<SendablePacket>)
    ensures Messages(a + b) == Messages(a) + Messages(b)
  {
    if a == [] {
      assert a + b == b;
    } else {
      MessagesConcat(a[1..], b);
      assert (a + b)[1..] == a[1..] + b;
      ConcatAssoc(Yielded(a[0]), Messages(a[1..]), Messages(b));
    }
  }

  lemma SessionSkipsTimeout(items: seq<Item>)
    requires items != [] && items[0].Timeout?
    ensures Session(items) == After([], 1, Session(items[1..]))
  {
    assert ReceiveN(items, 1) == (Raised(TimedOut), items[1..]);
    SessionAtTimeout(items, items[1..]);
  }

  lemma SessionAtEnd()
    ensures Session([]) == Outcome([], 0, Eof)
  {
    assert ReceiveN([], 1) == (Raised(Eof), []);
  }

  lemma JoinAtTimeout(packets: seq<SendablePacket>, k: nat, pings: nat)
    requires k <= |packets|
    ensures After(Messages(packets[..k]), 0, After([], 1, Outcome(Messages(packets[k..]), pings, Eof)))
         == Outcome(Messages(packets), pings + 1, Eof)
  {
    var b := Messages(packets[k..]);
    assert [] + b == b;
    assert After([], 1, Outcome(b, pings, Eof)) == Outcome(b, 1 + pings, Eof);
    MessagesConcat(packets[..k], packets[k..]);
    assert packets[..k] + packets[k..] == packets;
  }

  /**
   * Any published packets, mixed with PINGRESPs, cut into non-empty chunks of any size, with timeouts only
   * between packets: the subscriber yields exactly the published topics and payloads in order, sends one
   * PINGREQ per timeout, and ends at the end of the stream with nothing left over.
   */
  lemma {:induction false} StreamRoundTrip(items: seq<Item>, packets: seq<SendablePacket>)
    requires NonEmptyChunks(items)
    requires Delivers(items, packets)
    ensures Session(items) == Outcome(Messages(packets), Timeouts(items), Eof)
    decreases |items|
  {
    var k :| 0 <= k <= |packets| && DeliversFirst(items, packets, k);
    var rest := Rest(items);
    LeadEmpty(items);
    SessionOfPackets(items, packets[..k]);
    TimeoutsInRest(items);
    if rest == [] {
      assert packets[..k] == packets;
      SessionAtEnd();
      assert Messages(packets) + [] == Messages(packets);
    } else {
      StreamRoundTrip(rest[1..], packets[k..]);
      SessionSkipsTimeout(rest);
      JoinAtTimeout(packets, k, Timeouts(rest[1..]));
    }
  }
}
