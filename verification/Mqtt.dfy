/** The hand-written MQTT 3.1.1 encoder of the publishing daemon. */
module MqttEncoder {
  import opened ConveyorTypes
  import opened Powers

  type Bytes = seq<Byte>

  predicate ByteIn(b: Byte, low: int, high: int) { low <= b <= high }

  /** Well-formed UTF-8 (section 4 of RFC 3629): what `str.encode` makes and the only thing `bytes.decode` takes. */
  predicate Utf8(b: Bytes)
    decreases |b|
  {
    if b == [] then true
    else if b[0] < 0x80 then Utf8(b[1..])
    else if b[0] < 0xE0 then 0xC2 <= b[0] && |b| >= 2 && ByteIn(b[1], 0x80, 0xBF) && Utf8(b[2..])
    else if b[0] < 0xF0 then
      && |b| >= 3 && ByteIn(b[2], 0x80, 0xBF) && Utf8(b[3..])
      && ByteIn(b[1], if b[0] == 0xE0 then 0xA0 else 0x80, if b[0] == 0xED then 0x9F else 0xBF)
    else
      && b[0] <= 0xF4 && |b| >= 4 && ByteIn(b[2], 0x80, 0xBF) && ByteIn(b[3], 0x80, 0xBF) && Utf8(b[4..])
      && ByteIn(b[1], if b[0] == 0xF0 then 0x90 else 0x80, if b[0] == 0xF4 then 0x8F else 0xBF)
  }

  /** A Unicode character that has an encoding. */
  type Scalar = c: int | 0 <= c < 0xD800 || 0xE000 <= c < 0x11_0000

  function EncodeChar(c: Scalar): Bytes {
    if c < 0x80 then [c]
    else if c < 0x800 then [0xC0 + c / 0x40, 0x80 + c % 0x40]
    else if c < 0x1_0000 then [0xE0 + c / 0x1000, 0x80 + c / 0x40 % 0x40, 0x80 + c % 0x40]
    else [0xF0 + c / 0x4_0000, 0x80 + c / 0x1000 % 0x40, 0x80 + c / 0x40 % 0x40, 0x80 + c % 0x40]
  }

  function Encode(cs: seq<Scalar>): Bytes {
    if cs == [] then [] else EncodeChar(cs[0]) + Encode(cs[1..])
  }

  lemma CharIsUtf8(c: Scalar, rest: Bytes)
    ensures Utf8(EncodeChar(c) + rest) <==> Utf8(rest)
  {
    var b := EncodeChar(c) + rest;
    assert b[|EncodeChar(c)|..] == rest;
  }

  lemma {:induction false} EncodedIsUtf8(cs: seq<Scalar>)
    ensures Utf8(Encode(cs))
  {
    if cs != [] {
      EncodedIsUtf8(cs[1..]);
      CharIsUtf8(cs[0], Encode(cs[1..]));
    }
  }

  function SixMore(high: int, low: int): int { 0x40 * high + (low - 0x80) }

  lemma SixSplit(high: nat, low: int)
    requires 0x80 <= low <= 0xBF
    ensures var c := SixMore(high, low);
            && c / 0x40 == high && 0x80 + c % 0x40 == low
            && c / 0x1000 == high / 0x40 && c / 0x4_0000 == high / 0x1000
  {
  }

  lemma FrontOf(b: Bytes, front: Bytes)
    requires |front| <= |b| && forall i :: 0 <= i < |front| ==> front[i] == b[i]
    ensures front == b[..|front|]
  {
  }

  lemma ThreeBytes(b: Bytes) returns (c: Scalar)
    requires Utf8(b) && b != [] && 0xE0 <= b[0] < 0xF0
    ensures 3 <= |b| && EncodeChar(c) == b[..3] && Utf8(b[3..])
  {
    var high: int := b[0];
    var middle := SixMore(high - 0xE0, b[1]);
    SixSplit(high - 0xE0, b[1]);
    SixSplit(middle, b[2]);
    c := SixMore(middle, b[2]);
    FrontOf(b, EncodeChar(c));
  }

  lemma FourBytes(b: Bytes) returns (c: Scalar)
    requires Utf8(b) && b != [] && 0xF0 <= b[0]
    ensures 4 <= |b| && EncodeChar(c) == b[..4] && Utf8(b[4..])
  {
    var high: int := b[0];
    var second := SixMore(high - 0xF0, b[1]);
    var third := SixMore(second, b[2]);
    SixSplit(high - 0xF0, b[1]);
    SixSplit(second, b[2]);
    SixSplit(third, b[3]);
    c := SixMore(third, b[3]);
    FrontOf(b, EncodeChar(c));
  }

  /** The character at the front of well-formed bytes. */
  lemma FirstChar(b: Bytes) returns (c: Scalar)
    requires b != [] && Utf8(b)
    ensures |EncodeChar(c)| <= |b| && EncodeChar(c) == b[..|EncodeChar(c)|] && Utf8(b[|EncodeChar(c)|..])
  {
    var lead: int := b[0];
    if lead < 0x80 {
      c := lead;
    } else if lead < 0xE0 {
      SixSplit(lead - 0xC0, b[1]);
      c := SixMore(lead - 0xC0, b[1]);
    } else if lead < 0xF0 {
      c := ThreeBytes(b);
    } else {
      c := FourBytes(b);
    }
  }

  lemma {:induction false} Decoded(b: Bytes) returns (cs: seq<Scalar>)
    requires Utf8(b)
    ensures Encode(cs) == b
    decreases |b|
  {
    if b == [] {
      cs := [];
    } else {
      var c := FirstChar(b);
      var rest := Decoded(b[|EncodeChar(c)|..]);
      cs := [c] + rest;
      assert cs[1..] == rest;
    }
  }

  /** Well-formed is exactly what some string of characters encodes to. */
  lemma Utf8Iff(b: Bytes)
    ensures Utf8(b) <==> exists cs :: Encode(cs) == b
  {
    if Utf8(b) {
      var cs := Decoded(b);
    }
    if cs :| Encode(cs) == b {
      EncodedIsUtf8(cs);
    }
  }

  /** A string, as its encoding. */
  type Text = b: Bytes | Utf8(b)

  const MAX_REMLEN := 0x1000_0000 // 128 to the fourth

  /** The low 7 bits, with the top bit set when more bytes follow. */
  function FirstByte(n: nat): Byte {
    if n < 128 then n else n % 128 + 128
  }

  /** Remaining length, 7 bits a byte, least significant first (section 2.2.3 of MQTT Version 3.1.1). */
  function RemlenCode(n: nat): Bytes {
    if n < 128 then [n] else [FirstByte(n)] + RemlenCode(n / 128)
  }

  method EncRemlen(length: nat) returns (out: Bytes)
    ensures out == RemlenCode(length)
  {
    var n := length;
    out := [];
    while true
      invariant out + RemlenCode(n) == RemlenCode(length)
      decreases n
    {
      var byte := n % 128;
      n := n / 128;
      byte := byte + if n != 0 then 128 else 0;
      out := out + [byte];
      if n == 0 {
        return;
      }
    }
  }

  /** The low four bits of a PUBLISH header: retained, quality of service, duplicate. */
  type Flags = f: Byte | f < 16

  datatype Packet = Publish(topic: Text, payload: Text, flags: Flags) | PingResp

  /** Section 1.5.3: a two-byte length in front of the string. */
  function EncStr(s: Bytes): (r: Bytes)
    requires |s| < 0x1_0000
    ensures |r| == 2 + |s| && (r[0] as int) * 256 + r[1] as int == |s| && r[2..] == s
  {
    [|s| / 256, |s| % 256] + s
  }

  function Body(p: Packet): (body: Bytes)
    requires p.Publish? ==> |p.topic| < 0x1_0000
    ensures |body| == if p.Publish? then 2 + |p.topic| + |p.payload| else 0
  {
    if p.Publish? then EncStr(p.topic) + p.payload else []
  }

  predicate Sendable(p: Packet) {
    p.Publish? ==> |p.topic| < 0x1_0000 && 2 + |p.topic| + |p.payload| < MAX_REMLEN
  }

  /** The packets a broker can pass on: `publish` accepted them, and their length can be decoded. */
  type SendablePacket = p: Packet | Sendable(p) witness PingResp

  function Header(p: Packet): Byte { if p.Publish? then 0x30 + p.flags else 0xD0 }

  /** The bytes of a packet (sections 3.3 and 3.13). */
  function Wire(p: Packet): Bytes
    requires p.Publish? ==> |p.topic| < 0x1_0000
  {
    [Header(p)] + RemlenCode(|Body(p)|) + Body(p)
  }

  datatype PublishError = NotConnected | TopicTooLong | SendFailed

  /** The publisher's socket: None before `connect`, otherwise the bytes sent so far. */
  class MqttPublisher {
    var sock: Option<Bytes>

    /** `sendall` on a connection that takes `room` more bytes before it fails. */
    method SendAll(bytes: Bytes, room: nat) returns (ok: bool)
      requires sock.Some?
      modifies this
      ensures ok == (|bytes| <= room)
      ensures sock == Some(old(sock).value + if ok then bytes else bytes[..room])
    {
      ok := |bytes| <= room;
      sock := Some(sock.value + if ok then bytes else bytes[..room]);
    }

    method Publish(topic: Text, payload: Text, room: nat) returns (error: Option<PublishError>)
      modifies this
      ensures old(sock).None? ==> error == Some(NotConnected) && sock == None
      ensures old(sock).Some? && |topic| >= 0x1_0000 ==> error == Some(TopicTooLong) && sock == old(sock)
      ensures old(sock).Some? && |topic| < 0x1_0000 ==>
                var packet := Wire(Packet.Publish(topic, payload, 0));
                && error == (if |packet| <= room then None else Some(SendFailed))
                && sock == Some(old(sock).value + if |packet| <= room then packet else packet[..room])
    {
      if sock.None? {
        return Some(NotConnected);
      }
      if |topic| >= 0x1_0000 {
        return Some(TopicTooLong);
      }
      var body := EncStr(topic) + payload;
      var remlen := EncRemlen(|body|);
      var ok := SendAll([0x30] + remlen + body, room);
      error := if ok then None else Some(SendFailed);
    }
  }

  lemma ConcatAssoc<T>(a: seq<T>, b: seq<T>, c: seq<T>)
    ensures (a + b) + c == a + (b + c)
  {
  }

  lemma CodeSplit(n: nat, tail: Bytes)
    requires n >= 128
    ensures RemlenCode(n) + tail == [FirstByte(n)] + (RemlenCode(n / 128) + tail)
    ensures |RemlenCode(n)| == 1 + |RemlenCode(n / 128)|
  {
    ConcatAssoc([FirstByte(n)], RemlenCode(n / 128), tail);
  }

  lemma WireSplit(p: SendablePacket, tail: Bytes)
    ensures Wire(p) + tail == [Header(p)] + (RemlenCode(|Body(p)|) + (Body(p) + tail))
  {
    ConcatAssoc([Header(p)] + RemlenCode(|Body(p)|), Body(p), tail);
    ConcatAssoc([Header(p)], RemlenCode(|Body(p)|), Body(p) + tail);
  }

  lemma {:induction false} PowAtLeast(k: nat)
    requires 1 <= k
    ensures 128 <= Pow(128, k)
  {
    if k > 1 {
      PowAtLeast(k - 1);
    }
  }

  lemma {:induction false} CodeLength(n: nat, k: nat)
    requires 1 <= k
    ensures |RemlenCode(n)| <= k <==> n < Pow(128, k)
  {
    if n < 128 {
      PowAtLeast(k);
    } else if k > 1 {
      CodeLength(n / 128, k - 1);
      assert Pow(128, k) == 128 * Pow(128, k - 1);
      assert n / 128 < Pow(128, k - 1) <==> n < 128 * Pow(128, k - 1);
    }
  }

  /** The number a code stands for: seven bits a byte, the least significant first. */
  function CodeValue(code: Bytes): nat {
    if code == [] then 0 else code[0] % 128 + 128 * CodeValue(code[1..])
  }

  /** The code stands for its number, and its top bits say where it ends. */
  lemma {:induction false} CodeMeansNumber(n: nat)
    ensures var code := RemlenCode(n);
            && CodeValue(code) == n
            && forall i :: 0 <= i < |code| ==> (code[i] >= 128 <==> i + 1 < |code|)
  {
    if n >= 128 {
      CodeMeansNumber(n / 128);
      assert RemlenCode(n)[1..] == RemlenCode(n / 128);
    }
  }

  /** No code is a prefix of another, so a stream of codes can be cut in one way only. */
  lemma {:induction false} PrefixFree(m: nat, n: nat)
    requires RemlenCode(m) <= RemlenCode(n)
    ensures m == n
  {
    assert RemlenCode(m)[0] == RemlenCode(n)[0];
    if m >= 128 {
      assert RemlenCode(m)[1..] == RemlenCode(m / 128) && RemlenCode(n)[1..] == RemlenCode(n / 128);
      PrefixFree(m / 128, n / 128);
    }
  }
}

/** The subscriber's stream parser, over a socket that delivers chunks and timeouts. */
module MqttReader {
  import opened ConveyorTypes
  import opened Powers
  import opened MqttEncoder

  /** What `recv` will see: bytes that arrived together, or 60 seconds of silence; then the end of the stream. */
  datatype Item = Chunk(bytes: Bytes) | Timeout

  datatype Exc = Eof | TimedOut | Malformed | StructError | NotUtf8 | PingFailed

  datatype Got<+T> = Got(value: T) | Raised(exc: Exc)

  datatype Message = Message(topic: Text, payload: Text)

  function Size(items: seq<Item>): nat {
    if items == [] then 0
    else (if items[0].Chunk? then |items[0].bytes| else 0) + 1 + Size(items[1..])
  }

  /** `sock.recv(n)`: at most n bytes of the next chunk; nothing at the end of the stream. */
  function Receive(items: seq<Item>, n: nat): (r: (Got<Bytes>, seq<Item>))
    requires n > 0
    ensures Size(r.1) <= Size(items)
    ensures items != [] ==> Size(r.1) < Size(items)
    ensures r.0.Got? ==> |r.0.value| <= n
  {
    if items == [] then (Got([]), [])
    else
      match items[0]
      case Timeout => (Raised(TimedOut), items[1..])
      case Chunk(b) =>
        if |b| <= n then (Got(b), items[1..])
        else
          assert ([Chunk(b[n..])] + items[1..])[1..] == items[1..];
          (Got(b[..n]), [Chunk(b[n..])] + items[1..])
  }

  function Prepend(front: Bytes, more: Got<Bytes>): Got<Bytes> {
    if more.Got? then Got(front + more.value) else more
  }

  lemma PrependNothing(more: Got<Bytes>)
    ensures Prepend([], more) == more
  {
    if more.Got? {
      assert [] + more.value == more.value;
    }
  }

  lemma PrependTwice(a: Bytes, b: Bytes, more: Got<Bytes>)
    ensures Prepend(a, Prepend(b, more)) == Prepend(a + b, more)
  {
    if more.Got? {
      assert a + (b + more.value) == a + b + more.value;
    }
  }

  /** `_recvn`: exactly n bytes, over as many chunks as it takes. */
  function ReceiveN(items: seq<Item>, n: nat): (r: (Got<Bytes>, seq<Item>))
    ensures Size(r.1) <= Size(items)
    ensures n > 0 && (r.0.Got? || r.0.exc == TimedOut) ==> Size(r.1) < Size(items)
    ensures r.0.Got? ==> |r.0.value| == n
    decreases n
  {
    if n == 0 then (Got([]), items)
    else
      var (r, rest) := Receive(items, n);
      match r
      case Raised(e) => (Raised(e), rest)
      case Got(chunk) =>
        if chunk == [] then (Raised(Eof), rest)
        else
          var (more, last) := ReceiveN(rest, n - |chunk|);
          (Prepend(chunk, more), last)
  }

  /** n times 128 to the i. */
  function Shift(n: nat, i: nat): nat {
    if i == 0 then n else 128 * Shift(n, i - 1)
  }

  lemma {:induction false} ShiftIsProduct(n: nat, i: nat)
    ensures Shift(n, i) == n * Pow(128, i)
  {
    if i > 0 {
      ShiftIsProduct(n, i - 1);
      assert 128 * (n * Pow(128, i - 1)) == n * (128 * Pow(128, i - 1));
    }
  }

  lemma {:induction false} ShiftSum(a: nat, b: nat, i: nat)
    ensures Shift(a, i) + Shift(b, i + 1) == Shift(a + 128 * b, i)
  {
    if i > 0 {
      ShiftSum(a, b, i - 1);
    }
  }

  /** The contribution of the i-th byte of a remaining length. */
  function Septet(b: Byte, i: nat): nat {
    Shift(b % 128, i)
  }

  lemma SeptetIsProduct(b: Byte, i: nat)
    ensures Septet(b, i) == b % 128 * Pow(128, i)
  {
    ShiftIsProduct(b % 128, i);
  }

  /** The loop of `_read_remlen` from its i-th byte on. */
  function RemlenFrom(items: seq<Item>, i: nat, val: nat): (r: (Got<nat>, seq<Item>))
    ensures Size(r.1) <= Size(items)
    decreases 4 - i
  {
    if i >= 4 then (Raised(Malformed), items)
    else
      var (b, rest) := ReceiveN(items, 1);
      match b
      case Raised(e) => (Raised(e), rest)
      case Got(bs) =>
        var v := val + Septet(bs[0], i);
        if bs[0] < 128 then (Got(v), rest) else RemlenFrom(rest, i + 1, v)
  }

  /** `struct.unpack('!H', ...)`. */
  function BigEndian(hi: Byte, lo: Byte): nat {
    var h: int := hi;
    h * 256 + lo
  }

  /** What a packet of this type with this body yields; `data[a:b]` clamps its bounds. */
  function Decode(header: Byte, data: Bytes): Got<Option<Message>> {
    if header - header % 16 != 0x30 then Got(None)
    else if |data| < 2 then Raised(StructError)
    else
      var end := 2 + BigEndian(data[0], data[1]);
      var cut := if end <= |data| then end else |data|;
      if Utf8(data[2..cut]) && Utf8(data[cut..]) then Got(Some(Message(data[2..cut], data[cut..])))
      else Raised(NotUtf8)
  }

  /**
   * What a body yields: nothing unless the upper half of the header says PUBLISH, the topic by its two-byte length
   * (cut short at the end of the body) and then the payload, if both are UTF-8.
   */
  lemma DecodeMeans(header: Byte, topic: Bytes, payload: Bytes)
    requires |topic| < 0x1_0000
    ensures header / 16 != 3 ==> Decode(header, EncStr(topic) + payload) == Got(None)
    ensures header / 16 == 3 && Utf8(topic) && Utf8(payload) ==>
              Decode(header, EncStr(topic) + payload) == Got(Some(Message(topic, payload)))
    ensures header / 16 == 3 && !(Utf8(topic) && Utf8(payload)) ==>
              Decode(header, EncStr(topic) + payload) == Raised(NotUtf8)
  {
    var data := EncStr(topic) + payload;
    assert BigEndian(data[0], data[1]) == |topic|;
    assert data[2..2 + |topic|] == topic && data[2 + |topic|..] == payload;
  }

  /** The body ends before the topic it announces. */
  predicate Overlong(data: Bytes) {
    |data| >= 2 && (data[0] as int) * 256 + data[1] as int > |data| - 2
  }

  /** Bodies that no publisher sends. */
  lemma DecodeMalformed(header: Byte, data: Bytes)
    ensures header / 16 == 3 && |data| < 2 ==> Decode(header, data) == Raised(StructError)
    ensures header / 16 == 3 && Overlong(data) && Utf8(data[2..]) ==>
              Decode(header, data) == Got(Some(Message(data[2..], [])))
  {
    if header / 16 == 3 && Overlong(data) {
      assert data[2..|data|] == data[2..] && data[|data|..] == [];
    }
  }

  function PacketFrom(items: seq<Item>): (r: (Got<Option<Message>>, seq<Item>))
    ensures Size(r.1) <= Size(items)
    ensures r.0.Got? || r.0.exc == TimedOut ==> Size(r.1) < Size(items)
  {
    var (h, afterHeader) := ReceiveN(items, 1);
    if h.Raised? then (Raised(h.exc), afterHeader)
    else
      var (rem, afterLength) := RemlenFrom(afterHeader, 0, 0);
      if rem.Raised? then (Raised(rem.exc), afterLength)
      else
        var (data, afterData) := ReceiveN(afterLength, rem.value);
        if data.Raised? then (Raised(data.exc), afterData) else (Decode(h.value[0], data.value), afterData)
  }

  /** What one connection yields, how many PINGREQs it sends, and the exception that ends it. */
  datatype Outcome = Outcome(messages: seq<Message>, pings: nat, end: Exc)

  function Session(items: seq<Item>): Outcome
    decreases Size(items)
  {
    var (r, rest) := PacketFrom(items);
    match r
    case Raised(e) =>
      if e == TimedOut then Session(rest).(pings := Session(rest).pings + 1) else Outcome([], 0, e)
    case Got(m) =>
      if m.None? then Session(rest) else Session(rest).(messages := [m.value] + Session(rest).messages)
  }

  /** An outcome with messages and pings that came before it. */
  function After(front: seq<Message>, pings: nat, s: Outcome): Outcome {
    Outcome(front + s.messages, pings + s.pings, s.end)
  }

  /** The same on a connection that breaks after `room` more PINGREQs. */
  function SessionWith(items: seq<Item>, room: nat): Outcome
    decreases Size(items)
  {
    var (r, rest) := PacketFrom(items);
    match r
    case Raised(TimedOut) => if room == 0 then Outcome([], 0, PingFailed) else After([], 1, SessionWith(rest, room - 1))
    case Raised(e) => Outcome([], 0, e)
    case Got(m) => After(if m.Some? then [m.value] else [], 0, SessionWith(rest, room))
  }

  lemma AfterNothing(s: Outcome)
    ensures After([], 0, s) == s
  {
    assert [] + s.messages == s.messages;
  }

  lemma AfterTwice(a: seq<Message>, i: nat, b: seq<Message>, j: nat, s: Outcome)
    ensures After(a, i, After(b, j, s)) == After(a + b, i + j, s)
  {
    assert a + (b + s.messages) == a + b + s.messages;
  }

  lemma SessionAtPacket(items: seq<Item>, m: Option<Message>, rest: seq<Item>)
    requires PacketFrom(items) == (Got(m), rest)
    ensures Session(items) == After(if m.Some? then [m.value] else [], 0, Session(rest))
  {
    AfterNothing(Session(rest));
  }

  lemma SessionAtTimeout(items: seq<Item>, rest: seq<Item>)
    requires PacketFrom(items) == (Raised(TimedOut), rest)
    ensures Session(items) == After([], 1, Session(rest))
  {
    AfterNothing(Session(rest));
  }

  lemma CutAtPacket(items: seq<Item>, m: Option<Message>, rest: seq<Item>, room: nat)
    requires PacketFrom(items) == (Got(m), rest)
    ensures SessionWith(items, room) == After(if m.Some? then [m.value] else [], 0, SessionWith(rest, room))
  {
  }

  lemma CutAtTimeout(items: seq<Item>, rest: seq<Item>, room: nat, left: nat)
    requires PacketFrom(items) == (Raised(TimedOut), rest)
    ensures SessionWith(items, 0) == Outcome([], 0, PingFailed)
    ensures room == left + 1 ==> SessionWith(items, room) == After([], 1, SessionWith(rest, left))
  {
  }

  lemma CutAtEnd(items: seq<Item>, room: nat)
    requires PacketFrom(items).0.Raised? && PacketFrom(items).0.exc != TimedOut
    ensures SessionWith(items, room) == Outcome([], 0, PacketFrom(items).0.exc) == Session(items)
  {
  }

  /** The second outcome is the first, or stops where the PINGREQ after `room` others cannot be sent. */
  predicate CutBy(whole: Outcome, cut: Outcome, room: nat) {
    if whole.pings <= room then cut == whole
    else cut.messages <= whole.messages && cut.pings == room && cut.end == PingFailed
  }

  lemma CutAfter(whole: Outcome, cut: Outcome, room: nat, front: seq<Message>, pings: nat)
    requires CutBy(whole, cut, room)
    ensures CutBy(After(front, pings, whole), After(front, pings, cut), room + pings)
  {
  }

  lemma CutStepsOverPacket(items: seq<Item>, m: Option<Message>, rest: seq<Item>, room: nat)
    requires PacketFrom(items) == (Got(m), rest)
    requires CutBy(Session(rest), SessionWith(rest, room), room)
    ensures CutBy(Session(items), SessionWith(items, room), room)
  {
    SessionAtPacket(items, m, rest);
    CutAtPacket(items, m, rest, room);
    CutAfter(Session(rest), SessionWith(rest, room), room, if m.Some? then [m.value] else [], 0);
  }

  lemma CutStepsOverTimeout(items: seq<Item>, rest: seq<Item>, room: nat, left: nat)
    requires PacketFrom(items) == (Raised(TimedOut), rest) && room == left + 1
    requires CutBy(Session(rest), SessionWith(rest, left), left)
    ensures CutBy(Session(items), SessionWith(items, room), room)
  {
    SessionAtTimeout(items, rest);
    CutAtTimeout(items, rest, room, left);
    CutAfter(Session(rest), SessionWith(rest, left), left, [], 1);
  }

  lemma CutByFirstTimeout(items: seq<Item>, rest: seq<Item>)
    requires PacketFrom(items) == (Raised(TimedOut), rest)
    ensures CutBy(Session(items), SessionWith(items, 0), 0)
  {
    SessionAtTimeout(items, rest);
    CutAtTimeout(items, rest, 1, 0);
  }

  /** A PINGREQ that cannot be sent cuts the session short, and spoils nothing that came before. */
  lemma {:induction false} SessionUntilPingFails(items: seq<Item>, room: nat)
    ensures CutBy(Session(items), SessionWith(items, room), room)
    decreases Size(items), 1
  {
    var (r, rest) := PacketFrom(items);
    if r.Got? {
      CutAfterPacket(items, r.value, rest, room);
    } else if r.exc != TimedOut {
      CutAtEnd(items, room);
    } else if room == 0 {
      CutByFirstTimeout(items, rest);
    } else {
      CutAfterTimeout(items, rest, room, room - 1);
    }
  }

  lemma {:induction false} CutAfterPacket(items: seq<Item>, m: Option<Message>, rest: seq<Item>, room: nat)
    requires PacketFrom(items) == (Got(m), rest)
    ensures CutBy(Session(items), SessionWith(items, room), room)
    decreases Size(items), 0
  {
    SessionUntilPingFails(rest, room);
    CutStepsOverPacket(items, m, rest, room);
  }

  lemma {:induction false} CutAfterTimeout(items: seq<Item>, rest: seq<Item>, room: nat, left: nat)
    requires PacketFrom(items) == (Raised(TimedOut), rest) && room == left + 1
    ensures CutBy(Session(items), SessionWith(items, room), room)
    decreases Size(items), 0
  {
    SessionUntilPingFails(rest, left);
    CutStepsOverTimeout(items, rest, room, left);
  }

  lemma PacketJoins(out: seq<Message>, pings: nat, items: seq<Item>, m: Option<Message>, rest: seq<Item>, room: nat)
    requires PacketFrom(items) == (Got(m), rest)
    ensures After(out, pings, SessionWith(items, room))
         == After(out + if m.Some? then [m.value] else [], pings, SessionWith(rest, room))
  {
    CutAtPacket(items, m, rest, room);
    AfterTwice(out, pings, if m.Some? then [m.value] else [], 0, SessionWith(rest, room));
  }

  lemma TimeoutJoins(out: seq<Message>, pings: nat, items: seq<Item>, rest: seq<Item>, room: nat, left: nat)
    requires PacketFrom(items) == (Raised(TimedOut), rest) && room == left + 1
    ensures After(out, pings, SessionWith(items, room)) == After(out, pings + 1, SessionWith(rest, left))
  {
    CutAtTimeout(items, rest, room, left);
    AfterTwice(out, pings, [], 1, SessionWith(rest, left));
    assert out + [] == out;
  }

  class Socket {
    var incoming: seq<Item>

    method Recv(n: nat) returns (r: Got<Bytes>)
      requires n > 0
      modifies this
      ensures (r, incoming) == Receive(old(incoming), n)
    {
      if incoming == [] {
        return Got([]);
      }
      match incoming[0]
      case Timeout =>
        incoming := incoming[1..];
        return Raised(TimedOut);
      case Chunk(b) =>
        if |b| <= n {
          incoming := incoming[1..];
          return Got(b);
        }
        incoming := [Chunk(b[n..])] + incoming[1..];
        return Got(b[..n]);
    }

    method RecvN(n: nat) returns (r: Got<Bytes>)
      modifies this
      ensures (r, incoming) == ReceiveN(old(incoming), n)
    {
      var buf: Bytes := [];
      PrependNothing(ReceiveN(incoming, n).0);
      while |buf| < n
        invariant |buf| <= n
        invariant var (more, last) := ReceiveN(incoming, n - |buf|);
                  ReceiveN(old(incoming), n) == (Prepend(buf, more), last)
      {
        ghost var before := incoming;
        var chunk := Recv(n - |buf|);
        if chunk.Raised? {
          return chunk;
        }
        if chunk.value == [] {
          return Raised(Eof);
        }
        PrependTwice(buf, chunk.value, ReceiveN(incoming, n - |buf| - |chunk.value|).0);
        buf := buf + chunk.value;
      }
      assert buf + [] == buf;
      return Got(buf);
    }

    method ReadRemlen() returns (r: Got<nat>)
      modifies this
      ensures (r, incoming) == RemlenFrom(old(incoming), 0, 0)
    {
      var val, mul := 0, 0;
      for i := 0 to 4
        invariant mul == i && val >= 0
        invariant RemlenFrom(old(incoming), 0, 0) == RemlenFrom(incoming, i, val)
      {
        var b := RecvN(1);
        if b.Raised? {
          return Raised(b.exc);
        }
        var septet := b.value[0] % 128 * Pow(128, mul);
        SeptetIsProduct(b.value[0], mul);
        val := val + septet;
        mul := mul + 1;
        if b.value[0] < 128 {
          return Got(val);
        }
      }
      return Raised(Malformed);
    }

    method ReadPacket() returns (r: Got<Option<Message>>)
      modifies this
      ensures (r, incoming) == PacketFrom(old(incoming))
    {
      var header := RecvN(1);
      if header.Raised? {
        return Raised(header.exc);
      }
      var rem := ReadRemlen();
      if rem.Raised? {
        return Raised(rem.exc);
      }
      var data := RecvN(rem.value);
      if data.Raised? {
        return Raised(data.exc);
      }
      r := Decode(header.value[0], data.value);
    }

    /**
     * The inner loop of `mqtt_messages`, from SUBACK to the exception that makes it reconnect. `room` PINGREQs
     * can still be sent.
     */
    method Messages(room: nat) returns (out: seq<Message>, pings: nat, end: Exc)
      modifies this
      ensures Outcome(out, pings, end) == SessionWith(old(incoming), room)
    {
      out, pings := [], 0;
      var left := room;
      AfterNothing(SessionWith(incoming, room));
      while true
        invariant SessionWith(old(incoming), room) == After(out, pings, SessionWith(incoming, left))
        decreases Size(incoming)
      {
        ghost var before := incoming;
        var r := ReadPacket();
        if r.Got? {
          PacketJoins(out, pings, before, r.value, incoming, left);
          out := out + if r.value.Some? then [r.value.value] else [];
        } else if r.exc != TimedOut {
          CutAtEnd(before, left);
          assert out + [] == out;
          return out, pings, r.exc;
        } else if left == 0 {
          CutAtTimeout(before, incoming, 1, 0);
          assert out + [] == out;
          return out, pings, PingFailed;
        } else {
          TimeoutJoins(out, pings, before, incoming, left, left - 1);
          pings, left := pings + 1, left - 1;
        }
      }
    }
  }
}
