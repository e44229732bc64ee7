/** The dashboard's event fan-out: one reader thread, any number of SSE clients with bounded queues. */
module SseHub {
  import opened ConveyorTypes

  type Msg = string

  const MAX_HISTORY := 200
  const QUEUE_SIZE := 64

  ghost predicate Distinct<T>(cs: seq<T>) {
    forall i, j :: 0 <= i < j < |cs| ==> cs[i] != cs[j]
  }

  /** The list without the members of a set, order kept. */
  function Without<T(==)>(cs: seq<T>, gone: set<T>): seq<T> {
    if cs == [] then []
    else (if cs[0] in gone then [] else [cs[0]]) + Without(cs[1..], gone)
  }

  /** `list.remove`: the first occurrence goes, if there is one. */
  function Remove<T(==)>(cs: seq<T>, c: T): seq<T> {
    if cs == [] then [] else if cs[0] == c then cs[1..] else [cs[0]] + Remove(cs[1..], c)
  }

  function Members<T(==)>(cs: seq<T>): set<T> {
    set c | c in cs
  }

  lemma MembersSnoc<T>(cs: seq<T>, i: nat)
    requires i < |cs|
    ensures Members(cs[..i + 1]) == Members(cs[..i]) + {cs[i]}
  {
  }

  lemma {:induction false} WithoutMembers<T>(cs: seq<T>, gone: set<T>)
    ensures forall c :: c in Without(cs, gone) <==> c in cs && c !in gone
    ensures Distinct(cs) ==> Distinct(Without(cs, gone))
  {
    if cs != [] {
      WithoutMembers(cs[1..], gone);
      var rest := Without(cs[1..], gone);
      assert Distinct(cs) ==> Distinct(cs[1..]) && cs[0] !in cs[1..];
      if cs[0] !in gone {
        assert Without(cs, gone) == [cs[0]] + rest;
      }
    }
  }

  lemma {:induction false} RemoveAbsent<T>(cs: seq<T>, gone: set<T>, c: T)
    requires c !in cs
    ensures Without(cs, gone + {c}) == Without(cs, gone)
  {
    if cs != [] {
      RemoveAbsent(cs[1..], gone, c);
    }
  }

  /** Dropping the dead clients one by one with `remove` is dropping them all, and keeps the others in order. */
  lemma {:induction false} RemoveOneMore<T>(cs: seq<T>, gone: set<T>, c: T)
    requires Distinct(cs)
    ensures Remove(Without(cs, gone), c) == Without(cs, gone + {c})
  {
    if cs != [] {
      var rest := Without(cs[1..], gone);
      RemoveOneMore(cs[1..], gone, c);
      WithoutMembers(cs[1..], gone);
      if cs[0] in gone {
        assert Without(cs, gone) == rest;
      } else {
        assert Without(cs, gone) == [cs[0]] + rest && ([cs[0]] + rest)[1..] == rest;
        if cs[0] == c {
          RemoveAbsent(cs[1..], gone, c);
        }
      }
    }
  }

  lemma {:induction false} WithoutNone<T>(cs: seq<T>)
    ensures Without(cs, {}) == cs
  {
    if cs != [] {
      WithoutNone(cs[1..]);
    }
  }

  lemma RemoveMembers<T>(cs: seq<T>, c: T)
    requires Distinct(cs)
    ensures forall x :: x in Remove(cs, c) <==> x in cs && x != c
    ensures Distinct(Remove(cs, c))
  {
    WithoutNone(cs);
    RemoveOneMore(cs, {}, c);
    WithoutMembers(cs, {} + {c});
  }

  lemma {:induction false} RemovesFirst<T>(cs: seq<T>, c: T) returns (i: nat)
    requires c in cs
    ensures i < |cs| && cs[i] == c && c !in cs[..i]
    ensures Remove(cs, c) == cs[..i] + cs[i + 1..]
  {
    if cs[0] == c {
      i := 0;
    } else {
      var rest := cs[1..];
      i := RemovesFirst(rest, c);
      assert cs[..i + 1] == [cs[0]] + rest[..i] && cs[i + 2..] == rest[i + 1..];
      i := i + 1;
    }
  }

  lemma {:induction false} RemovesNothing<T>(cs: seq<T>, c: T)
    requires c !in cs
    ensures Remove(cs, c) == cs
  {
    if cs != [] {
      RemovesNothing(cs[1..], c);
    }
  }

  class ClientQueue {
    var items: seq<Msg>

    constructor ()
      ensures items == []
    {
      items := [];
    }

    method PutNowait(msg: Msg) returns (ok: bool)
      modifies this
      ensures ok == (|old(items)| < 64)
      ensures items == if ok then old(items) + [msg] else old(items)
    {
      ok := |items| < QUEUE_SIZE;
      if ok {
        items := items + [msg];
      }
    }

    method Get() returns (msg: Option<Msg>)
      modifies this
      ensures old(items) == [] ==> msg == None && items == []
      ensures old(items) != [] ==> msg == Some(old(items)[0]) && items == old(items)[1..]
    {
      if items == [] {
        return None;
      }
      msg := Some(items[0]);
      items := items[1..];
    }
  }

  /** `deque(maxlen=200).appendleft`. */
  function Prepended(ev: Msg, history: seq<Msg>): seq<Msg> {
    if 1 + |history| > MAX_HISTORY then ([ev] + history)[..MAX_HISTORY] else [ev] + history
  }

  class Hub {
    var clients: seq<ClientQueue>
    var current: Option<Msg>
    var history: seq<Msg>

    constructor ()
      ensures clients == [] && current == None && history == []
    {
      clients, current, history := [], None, [];
    }

    method Record(ev: Msg)
      modifies this`current, this`history
      ensures current == Some(ev)
      ensures history == Prepended(ev, old(history))
      ensures history == ([ev] + old(history))[..if |old(history)| < 200 then |old(history)| + 1 else 200]
    {
      current := Some(ev);
      history := [ev] + history;
      if |history| > MAX_HISTORY {
        history := history[..MAX_HISTORY];
      }
    }

    method Register() returns (q: ClientQueue)
      modifies this`clients
      ensures fresh(q) && q.items == [] && clients == old(clients) + [q]
    {
      q := new ClientQueue();
      clients := clients + [q];
    }

    /** Exactly the first registration of the client goes; as the list has no duplicates, the client is gone. */
    method Unregister(q: ClientQueue)
      modifies this`clients
      ensures q !in old(clients) ==> clients == old(clients)
      ensures q in old(clients) ==>
                exists i :: 0 <= i < |old(clients)| && old(clients)[i] == q && q !in old(clients)[..i]
                            && clients == old(clients)[..i] + old(clients)[i + 1..]
      ensures Distinct(old(clients)) ==>
                Distinct(clients) && forall c :: c in clients <==> c in old(clients) && c != q
    {
      if q in clients {
        ghost var i := RemovesFirst(clients, q);
      } else {
        RemovesNothing(clients, q);
      }
      if Distinct(clients) {
        RemoveMembers(clients, q);
      }
      clients := Remove(clients, q);
    }

    /** The puts of one broadcast, and the clients whose queues were full. */
    method PutAll(msg: Msg) returns (dead: seq<ClientQueue>)
      requires Distinct(clients)
      modifies clients
      ensures forall q :: q in clients ==>
                q.items == if |old(q.items)| < QUEUE_SIZE then old(q.items) + [msg] else old(q.items)
      ensures Members(dead) == set q | q in clients && |old(q.items)| >= QUEUE_SIZE
    {
      dead := [];
      for i := 0 to |clients|
        invariant forall k :: 0 <= k < i ==>
                    clients[k].items == if |old(clients[k].items)| < QUEUE_SIZE
                                        then old(clients[k].items) + [msg] else old(clients[k].items)
        invariant forall k :: i <= k < |clients| ==> clients[k].items == old(clients[k].items)
        invariant forall q :: q in dead <==> exists k :: 0 <= k < i && clients[k] == q && |old(q.items)| >= QUEUE_SIZE
      {
        var q := clients[i];
        var ok := q.PutNowait(msg);
        if !ok {
          dead := dead + [q];
        }
      }
    }

    method DropDead(dead: seq<ClientQueue>)
      requires Distinct(clients)
      modifies this`clients
      ensures clients == Without(old(clients), Members(dead)) && Distinct(clients)
    {
      WithoutNone(clients);
      assert Members(dead[..0]) == {};
      for i := 0 to |dead|
        invariant clients == Without(old(clients), Members(dead[..i]))
      {
        RemoveOneMore(old(clients), Members(dead[..i]), dead[i]);
        MembersSnoc(dead, i);
        clients := Remove(clients, dead[i]);
      }
      assert dead[..|dead|] == dead;
      WithoutMembers(old(clients), Members(dead));
    }

    /** Every client with room gets the message; those without are dropped, and the others keep their order. */
    method Broadcast(msg: Msg)
      requires Distinct(clients)
      modifies this`clients, clients
      ensures forall q :: q in old(clients) ==>
                q.items == if |old(q.items)| < QUEUE_SIZE then old(q.items) + [msg] else old(q.items)
      ensures clients == Without(old(clients), set q | q in old(clients) && |old(q.items)| >= QUEUE_SIZE)
      ensures Distinct(clients)
    {
      var dead := PutAll(msg);
      DropDead(dead);
    }
  }
}

/** The reader thread and the client threads interleaved; each step is one locked section or queue operation. */
module SseFanout {
  import opened ConveyorTypes
  import opened SseHub

  /** One client connection: its queue, what it already took, and the part of the broadcasts it was given. */
  datatype Client = Client(start: nat, end: nat, delivered: seq<Msg>, queue: seq<Msg>)
  {
    function Given(): seq<Msg> { delivered + queue }
  }

  /** The reader thread: `Casting` holds the clients lock, with the puts done so far and the full queues met. */
  datatype Reader = Waiting | Recorded(msg: Msg) | Casting(msg: Msg, next: nat, dead: seq<nat>)

  /** Clients are numbered in order of connection; `clients` lists the registered ones. */
  datatype Fanout = Fanout(clients: seq<nat>, all: seq<Client>, reader: Reader, sent: seq<Msg>, recorded: seq<Msg>,
                           current: Option<Msg>, history: seq<Msg>)

  datatype Step = Record(ev: Msg) | BeginCast | PutNext | EndCast | Register | Unregister(id: nat) | Get(id: nat)

  const EMPTY := Fanout([], [], Waiting, [], [], None, [])

  function Next(h: Fanout, step: Step): Option<Fanout> {
    match step
    case Record(ev) =>
      if h.reader.Waiting? then
        Some(h.(reader := Recorded(ev), recorded := h.recorded + [ev],
                current := Some(ev), history := Prepended(ev, h.history)))
      else None
    case BeginCast =>
      if h.reader.Recorded?
      then Some(h.(reader := Casting(h.reader.msg, 0, []), sent := h.sent + [h.reader.msg]))
      else None
    case PutNext =>
      if h.reader.Casting? && h.reader.next < |h.clients| && h.clients[h.reader.next] < |h.all| then
        var id := h.clients[h.reader.next];
        var c := h.all[id];
        if |c.queue| < QUEUE_SIZE then
          Some(h.(all := h.all[id := c.(queue := c.queue + [h.reader.msg], end := c.end + 1)],
                  reader := h.reader.(next := h.reader.next + 1)))
        else
          Some(h.(reader := h.reader.(next := h.reader.next + 1, dead := h.reader.dead + [id])))
      else None
    case EndCast =>
      if h.reader.Casting? && h.reader.next == |h.clients| then
        Some(h.(clients := Without(h.clients, Members(h.reader.dead)), reader := Waiting))
      else None
    case Register =>
      if h.reader.Casting? then None
      else Some(h.(clients := h.clients + [|h.all|], all := h.all + [Client(|h.sent|, |h.sent|, [], [])]))
    case Unregister(id) =>
      if h.reader.Casting? then None else Some(h.(clients := Remove(h.clients, id)))
    case Get(id) =>
      if id < |h.all| && h.all[id].queue != [] then
        var c := h.all[id];
        Some(h.(all := h.all[id := c.(delivered := c.delivered + [c.queue[0]], queue := c.queue[1..])]))
      else None
  }

  function Exec(h: Fanout, steps: seq<Step>): Option<Fanout>
    decreases |steps|
  {
    if steps == [] then Some(h)
    else match Next(h, steps[0]) case None => None case Some(t) => Exec(t, steps[1..])
  }

  /** A registered client was given everything up to now, but for the cast in progress. */
  ghost predicate UpToDate(h: Fanout, k: nat)
    requires k < |h.clients| && h.clients[k] < |h.all|
  {
    var c := h.all[h.clients[k]];
    if h.reader.Casting? && (k >= h.reader.next || h.clients[k] in h.reader.dead) then c.end + 1 == |h.sent|
    else c.end == |h.sent|
  }

  ghost predicate ClientOk(h: Fanout, c: Client) {
    c.start <= c.end <= |h.sent| && c.Given() == h.sent[c.start..c.end] && |c.queue| <= QUEUE_SIZE
  }

  ghost predicate CastOk(h: Fanout) {
    h.reader.Casting? ==>
      && h.reader.next <= |h.clients| && h.sent != [] && h.sent[|h.sent| - 1] == h.reader.msg
      && forall id :: id in h.reader.dead ==> exists k :: 0 <= k < h.reader.next && h.clients[k] == id
  }

  ghost predicate HubInv(h: Fanout) {
    && Distinct(h.clients)
    && (forall k :: 0 <= k < |h.clients| ==> h.clients[k] < |h.all|)
    && (forall id :: 0 <= id < |h.all| ==> ClientOk(h, h.all[id]))
    && CastOk(h)
    && (forall k :: 0 <= k < |h.clients| ==> UpToDate(h, k))
  }

  lemma BeginKeeps(h: Fanout)
    requires HubInv(h) && h.reader.Recorded?
    ensures HubInv(Next(h, BeginCast).value)
  {
    var t := Next(h, BeginCast).value;
    forall id | 0 <= id < |t.all| ensures ClientOk(t, t.all[id]) {
      assert ClientOk(h, h.all[id]);
      assert t.sent[t.all[id].start..t.all[id].end] == h.sent[t.all[id].start..t.all[id].end];
    }
    forall k | 0 <= k < |t.clients| ensures UpToDate(t, k) {
      assert UpToDate(h, k);
    }
  }

  /** The message of the cast in progress is the next one of the client's segment. */
  lemma PutExtends(h: Fanout, c: Client, msg: Msg)
    requires ClientOk(h, c) && c.end + 1 == |h.sent| && h.sent[|h.sent| - 1] == msg && |c.queue| < QUEUE_SIZE
    ensures ClientOk(h, c.(queue := c.queue + [msg], end := c.end + 1))
  {
    assert c.delivered + (c.queue + [msg]) == c.Given() + [msg];
    assert h.sent[c.start..c.end + 1] == h.sent[c.start..c.end] + [h.sent[c.end]];
  }

  lemma PutKeeps(h: Fanout)
    requires HubInv(h) && Next(h, PutNext).Some?
    ensures HubInv(Next(h, PutNext).value)
  {
    var t := Next(h, PutNext).value;
    var i := h.reader.next;
    var id := h.clients[i];
    assert UpToDate(h, i) && ClientOk(h, h.all[id]);
    if |h.all[id].queue| < QUEUE_SIZE {
      PutExtends(h, h.all[id], h.reader.msg);
    }
    forall j | 0 <= j < |t.all| ensures ClientOk(t, t.all[j]) {
      assert ClientOk(h, h.all[j]);
    }
    forall k | 0 <= k < |t.clients| ensures UpToDate(t, k) {
      assert UpToDate(h, k);
    }
    forall d | d in t.reader.dead ensures exists k :: 0 <= k < t.reader.next && t.clients[k] == d {
      if d == id { assert t.clients[i] == d; }
    }
  }

  lemma EndKeeps(h: Fanout)
    requires HubInv(h) && Next(h, EndCast).Some?
    ensures HubInv(Next(h, EndCast).value)
  {
    var t := Next(h, EndCast).value;
    WithoutMembers(h.clients, Members(h.reader.dead));
    forall k | 0 <= k < |t.clients| ensures t.clients[k] < |t.all| && UpToDate(t, k) {
      assert t.clients[k] in t.clients;
      var j :| 0 <= j < |h.clients| && h.clients[j] == t.clients[k];
      assert UpToDate(h, j);
    }
    forall j | 0 <= j < |t.all| ensures ClientOk(t, t.all[j]) {
      assert ClientOk(h, h.all[j]);
    }
  }

  lemma RegisterKeeps(h: Fanout)
    requires HubInv(h) && Next(h, Register).Some?
    ensures HubInv(Next(h, Register).value)
  {
    var t := Next(h, Register).value;
    forall j | 0 <= j < |t.all| ensures ClientOk(t, t.all[j]) {
      if j < |h.all| { assert ClientOk(h, h.all[j]); }
    }
    forall k | 0 <= k < |t.clients| ensures UpToDate(t, k) {
      if k < |h.clients| { assert UpToDate(h, k); }
    }
  }

  lemma UnregisterKeeps(h: Fanout, id: nat)
    requires HubInv(h) && Next(h, Unregister(id)).Some?
    ensures HubInv(Next(h, Unregister(id)).value)
  {
    var t := Next(h, Unregister(id)).value;
    RemoveMembers(h.clients, id);
    forall k | 0 <= k < |t.clients| ensures t.clients[k] < |t.all| && UpToDate(t, k) {
      assert t.clients[k] in t.clients;
      var j :| 0 <= j < |h.clients| && h.clients[j] == t.clients[k];
      assert UpToDate(h, j);
    }
    forall j | 0 <= j < |t.all| ensures ClientOk(t, t.all[j]) {
      assert ClientOk(h, h.all[j]);
    }
  }

  lemma GetKeeps(h: Fanout, id: nat)
    requires HubInv(h) && Next(h, Get(id)).Some?
    ensures HubInv(Next(h, Get(id)).value)
  {
    var t := Next(h, Get(id)).value;
    forall j | 0 <= j < |t.all| ensures ClientOk(t, t.all[j]) {
      assert ClientOk(h, h.all[j]);
      if j == id { assert t.all[id].Given() == h.all[id].Given(); }
    }
    forall k | 0 <= k < |t.clients| ensures UpToDate(t, k) {
      assert UpToDate(h, k);
    }
  }

  lemma RecordKeeps(h: Fanout, ev: Msg)
    requires HubInv(h) && Next(h, Record(ev)).Some?
    ensures HubInv(Next(h, Record(ev)).value)
  {
    var t := Next(h, Record(ev)).value;
    forall j | 0 <= j < |t.all| ensures ClientOk(t, t.all[j]) {
      assert ClientOk(h, h.all[j]);
    }
    forall k | 0 <= k < |t.clients| ensures UpToDate(t, k) {
      assert UpToDate(h, k);
    }
  }

  lemma HubInvKept(h: Fanout, step: Step)
    requires HubInv(h) && Next(h, step).Some?
    ensures HubInv(Next(h, step).value)
  {
    match step
    case Record(ev) => RecordKeeps(h, ev);
    case BeginCast => BeginKeeps(h);
    case PutNext => PutKeeps(h);
    case EndCast => EndKeeps(h);
    case Register => RegisterKeeps(h);
    case Unregister(id) => UnregisterKeeps(h, id);
    case Get(id) => GetKeeps(h, id);
  }

  // --------------------------------------------------------------- history

  function Min(a: nat, b: nat): nat { if a < b then a else b }

  /** `_history` holds the newest events first, `_current` the newest; the casts lag by at most one event. */
  ghost predicate HistoryOk(h: Fanout) {
    && |h.history| == Min(MAX_HISTORY, |h.recorded|)
    && (forall i :: 0 <= i < |h.history| ==> h.history[i] == h.recorded[|h.recorded| - 1 - i])
    && h.current == (if h.recorded == [] then None else Some(h.recorded[|h.recorded| - 1]))
    && (if h.reader.Recorded? then h.recorded == h.sent + [h.reader.msg] else h.recorded == h.sent)
  }

  lemma HistoryRecorded(h: Fanout, ev: Msg)
    requires HistoryOk(h) && h.reader.Waiting?
    ensures HistoryOk(Next(h, Record(ev)).value)
  {
    var t := Next(h, Record(ev)).value;
    forall i | 0 <= i < |t.history| ensures t.history[i] == t.recorded[|t.recorded| - 1 - i] {
      if i > 0 { assert t.history[i] == h.history[i - 1]; }
    }
  }

  lemma HistoryKept(h: Fanout, step: Step)
    requires HistoryOk(h) && Next(h, step).Some?
    ensures HistoryOk(Next(h, step).value)
  {
    var t := Next(h, step).value;
    if step.Record? {
      HistoryRecorded(h, step.ev);
    } else {
      assert t.history == h.history && t.current == h.current && t.recorded == h.recorded;
      assert if t.reader.Recorded? then t.recorded == t.sent + [t.reader.msg] else t.recorded == t.sent;
    }
  }

  // ---------------------------------------------------------- main results

  lemma {:induction false} RunKeeps(h: Fanout, steps: seq<Step>)
    requires HubInv(h) && HistoryOk(h) && Exec(h, steps).Some?
    ensures HubInv(Exec(h, steps).value) && HistoryOk(Exec(h, steps).value)
    decreases |steps|
  {
    if steps != [] {
      HubInvKept(h, steps[0]);
      HistoryKept(h, steps[0]);
      RunKeeps(Next(h, steps[0]).value, steps[1..]);
    }
  }

  /**
   * In every interleaving, what a client took plus what waits in its queue is one gapless stretch of the
   * broadcasts from its registration on; it reaches the newest one while the client is registered and no
   * cast is running; the queue never exceeds 64; and history and current show the newest events.
   */
  lemma NoGaps(steps: seq<Step>)
    requires Exec(EMPTY, steps).Some?
    ensures var h := Exec(EMPTY, steps).value;
            && (forall id :: 0 <= id < |h.all| ==>
                  var c := h.all[id];
                  && c.start <= c.end <= |h.sent| && c.delivered + c.queue == h.sent[c.start..c.end]
                  && |c.queue| <= QUEUE_SIZE
                  && (id in h.clients && !h.reader.Casting? ==> c.end == |h.sent|))
            && HistoryOk(h)
  {
    var h := Exec(EMPTY, steps).value;
    RunKeeps(EMPTY, steps);
    forall id | 0 <= id < |h.all|
      ensures ClientOk(h, h.all[id]) && h.all[id].Given() == h.all[id].delivered + h.all[id].queue
      ensures id in h.clients && !h.reader.Casting? ==> h.all[id].end == |h.sent|
    {
      if id in h.clients {
        var k :| 0 <= k < |h.clients| && h.clients[k] == id;
        assert UpToDate(h, k);
      }
    }
  }

  lemma SilentStep(h: Fanout, step: Step, id: nat)
    requires HubInv(h) && id < |h.all| && id !in h.clients && Next(h, step).Some?
    ensures var t := Next(h, step).value;
            id < |t.all| && id !in t.clients && t.all[id].Given() == h.all[id].Given()
  {
    var t := Next(h, step).value;
    match step
    case EndCast => WithoutMembers(h.clients, Members(h.reader.dead));
    case Unregister(d) => RemoveMembers(h.clients, d);
    case Get(d) => assert d == id ==> t.all[id].Given() == h.all[id].Given();
    case PutNext => assert h.clients[h.reader.next] in h.clients;
    case _ =>
  }

  lemma {:induction false} GoneIsSilent(h: Fanout, steps: seq<Step>, id: nat)
    requires HubInv(h) && id < |h.all| && id !in h.clients && Exec(h, steps).Some?
    ensures var t := Exec(h, steps).value;
            id < |t.all| && id !in t.clients && t.all[id].Given() == h.all[id].Given()
    decreases |steps|
  {
    if steps != [] {
      HubInvKept(h, steps[0]);
      SilentStep(h, steps[0], id);
      GoneIsSilent(Next(h, steps[0]).value, steps[1..], id);
    }
  }

  /** A client that was dropped or left is given nothing more, ever. */
  lemma DroppedStaysSilent(before: seq<Step>, steps: seq<Step>, id: nat)
    requires Exec(EMPTY, before).Some? && Exec(Exec(EMPTY, before).value, steps).Some?
    requires id < |Exec(EMPTY, before).value.all| && id !in Exec(EMPTY, before).value.clients
    ensures var h := Exec(EMPTY, before).value;
            var t := Exec(h, steps).value;
            && id < |t.all| && id !in t.clients
            && t.all[id].delivered + t.all[id].queue == h.all[id].delivered + h.all[id].queue
  {
    RunKeeps(EMPTY, before);
    GoneIsSilent(Exec(EMPTY, before).value, steps, id);
    assert Exec(EMPTY, before).value.all[id].Given() == Exec(Exec(EMPTY, before).value, steps).value.all[id].Given();
  }

  /** The end of a cast drops exactly the clients that missed its message. */
  lemma DroppedIffMissed(before: seq<Step>, id: nat)
    requires Exec(EMPTY, before).Some? && Next(Exec(EMPTY, before).value, EndCast).Some?
    requires id in Exec(EMPTY, before).value.clients
    ensures var h := Exec(EMPTY, before).value;
            id < |h.all| && (id in Next(h, EndCast).value.clients <==> h.all[id].end == |h.sent|)
  {
    RunKeeps(EMPTY, before);
    var h := Exec(EMPTY, before).value;
    var k :| 0 <= k < |h.clients| && h.clients[k] == id;
    assert UpToDate(h, k);
    WithoutMembers(h.clients, Members(h.reader.dead));
  }

  // ------------------------------------------------ exactly who is registered

  /** The clients that left by themselves in the course of a run. */
  function Left(h: Fanout, steps: seq<Step>): set<nat>
    decreases |steps|
  {
    if steps == [] || Next(h, steps[0]).None? then {}
    else
      (if steps[0].Unregister? && steps[0].id < |h.all| then {steps[0].id} else {})
      + Left(Next(h, steps[0]).value, steps[1..])
  }

  /** The client was given all messages, but perhaps for the one whose cast is running. */
  predicate Current(h: Fanout, id: nat)
    requires id < |h.all|
  {
    |h.sent| <= h.all[id].end + if h.reader.Casting? then 1 else 0
  }

  ghost predicate MembersOk(h: Fanout, gone: set<nat>) {
    forall id: nat :: id in h.clients <==> id < |h.all| && id !in gone && Current(h, id)
  }

  lemma MembersAfterEnd(h: Fanout, gone: set<nat>)
    requires HubInv(h) && MembersOk(h, gone) && Next(h, EndCast).Some?
    ensures MembersOk(Next(h, EndCast).value, gone)
  {
    var t := Next(h, EndCast).value;
    WithoutMembers(h.clients, Members(h.reader.dead));
    forall id: nat | id < |t.all| && id in h.clients ensures id in h.reader.dead <==> !Current(t, id) {
      var k :| 0 <= k < |h.clients| && h.clients[k] == id;
      assert UpToDate(h, k);
    }
  }

  lemma MembersAfterPut(h: Fanout, gone: set<nat>)
    requires HubInv(h) && MembersOk(h, gone) && Next(h, PutNext).Some?
    ensures MembersOk(Next(h, PutNext).value, gone)
  {
    var t := Next(h, PutNext).value;
    var c := h.clients[h.reader.next];
    assert c in h.clients;
    assert forall id: nat :: id < |h.all| && id != c ==> t.all[id] == h.all[id];
  }

  lemma MembersAfter(h: Fanout, gone: set<nat>, step: Step)
    requires HubInv(h) && MembersOk(h, gone) && Next(h, step).Some? && forall id :: id in gone ==> id < |h.all|
    ensures MembersOk(Next(h, step).value, gone + if step.Unregister? && step.id < |h.all| then {step.id} else {})
  {
    var t := Next(h, step).value;
    match step
    case EndCast => MembersAfterEnd(h, gone);
    case PutNext => MembersAfterPut(h, gone);
    case Unregister(d) => RemoveMembers(h.clients, d);
    case BeginCast => assert forall id: nat :: id < |h.all| ==> h.all[id].end <= |h.sent| by {
        assert forall id: nat :: id < |h.all| ==> ClientOk(h, h.all[id]);
      }
    case _ =>
  }

  lemma {:induction false} MembersRun(h: Fanout, gone: set<nat>, steps: seq<Step>)
    requires HubInv(h) && MembersOk(h, gone) && (forall id :: id in gone ==> id < |h.all|) && Exec(h, steps).Some?
    ensures MembersOk(Exec(h, steps).value, gone + Left(h, steps))
    decreases |steps|
  {
    if steps == [] {
      assert gone + Left(h, steps) == gone;
    } else {
      var one := if steps[0].Unregister? && steps[0].id < |h.all| then {steps[0].id} else {};
      HubInvKept(h, steps[0]);
      MembersAfter(h, gone, steps[0]);
      MembersRun(Next(h, steps[0]).value, gone + one, steps[1..]);
      assert gone + Left(h, steps) == gone + one + Left(Next(h, steps[0]).value, steps[1..]);
    }
  }

  /** A client is in the list exactly when it registered, did not leave, and missed no finished cast. */
  lemma RegisteredIff(steps: seq<Step>, id: nat)
    requires Exec(EMPTY, steps).Some?
    ensures var h := Exec(EMPTY, steps).value;
            id in h.clients <==> id < |h.all| && id !in Left(EMPTY, steps) && Current(h, id)
  {
    MembersRun(EMPTY, {}, steps);
    assert {} + Left(EMPTY, steps) == Left(EMPTY, steps);
  }

  // ------------------------------------------- one whole cast is one broadcast

  lemma {:induction false} ExecConcat(h: Fanout, a: seq<Step>, b: seq<Step>)
    ensures Exec(h, a + b) == match Exec(h, a) case None => None case Some(t) => Exec(t, b)
    decreases |a|
  {
    if a == [] {
      assert a + b == b;
    } else if Next(h, a[0]).Some? {
      assert (a + b)[1..] == a[1..] + b;
      ExecConcat(Next(h, a[0]).value, a[1..], b);
    }
  }

  lemma ExecOne(h: Fanout, step: Step)
    ensures Exec(h, [step]) == Next(h, step)
  {
    if Next(h, step).Some? {
      assert Exec(Next(h, step).value, []) == Next(h, step);
    }
  }

  predicate Full(h: Fanout, id: nat) { id < |h.all| && |h.all[id].queue| >= QUEUE_SIZE }

  /** After n puts of the cast begun at b: the first n clients were given the message, or were met full. */
  ghost predicate AfterPuts(b: Fanout, n: nat, s: Fanout)
    requires b.reader.Casting? && n <= |b.clients|
  {
    && s.reader.Casting? && s.reader.msg == b.reader.msg && s.reader.next == n
    && s == b.(all := s.all, reader := s.reader)
    && |s.all| == |b.all|
    && (forall id: nat :: id < |b.all| ==>
          && s.all[id].delivered == b.all[id].delivered
          && s.all[id].queue == b.all[id].queue
                                + if id in b.clients[..n] && !Full(b, id) then [b.reader.msg] else [])
    && (forall id :: id in s.reader.dead <==> id in b.clients[..n] && Full(b, id))
  }

  lemma PutOne(b: Fanout, n: nat, s: Fanout)
    requires HubInv(b) && b.reader.Casting? && n < |b.clients| && AfterPuts(b, n, s)
    ensures Next(s, PutNext).Some? && AfterPuts(b, n + 1, Next(s, PutNext).value)
  {
    var c := b.clients[n];
    assert b.clients[..n + 1] == b.clients[..n] + [c];
    assert c !in b.clients[..n];
    assert s.all[c].queue == b.all[c].queue;
  }

  function Puts(n: nat): seq<Step> { seq(n, _ => PutNext) }

  lemma {:induction false} PutsRun(b: Fanout, n: nat) returns (s: Fanout)
    requires HubInv(b) && b.reader.Casting? && b.reader.next == 0 && b.reader.dead == [] && n <= |b.clients|
    ensures Exec(b, Puts(n)) == Some(s) && AfterPuts(b, n, s)
  {
    if n == 0 {
      s := b;
    } else {
      var r := PutsRun(b, n - 1);
      PutOne(b, n - 1, r);
      assert Puts(n) == Puts(n - 1) + [PutNext];
      ExecConcat(b, Puts(n - 1), [PutNext]);
      ExecOne(r, PutNext);
      s := Next(r, PutNext).value;
    }
  }

  /**
   * In every reachable hub, a cast whose steps run through is one `Broadcast`: clients with room get the message,
   * those without are dropped, the others keep their order, and nobody else is touched.
   */
  lemma CastIsBroadcast(before: seq<Step>, h: Fanout) returns (t: Fanout)
    requires Exec(EMPTY, before) == Some(h) && h.reader.Recorded?
    ensures Exec(h, [BeginCast] + Puts(|h.clients|) + [EndCast]) == Some(t)
    ensures t.clients == Without(h.clients, set id | id in h.clients && Full(h, id))
    ensures |t.all| == |h.all|
    ensures forall id: nat :: id < |h.all| ==>
              && t.all[id].delivered == h.all[id].delivered
              && t.all[id].queue == h.all[id].queue
                                    + if id in h.clients && !Full(h, id) then [h.reader.msg] else []
  {
    var b := Next(h, BeginCast).value;
    RunKeeps(EMPTY, before);
    BeginKeeps(h);
    ExecOne(h, BeginCast);
    var s := PutsRun(b, |b.clients|);
    assert b.clients[..|b.clients|] == b.clients;
    ExecConcat(h, [BeginCast], Puts(|h.clients|));
    ExecConcat(h, [BeginCast] + Puts(|h.clients|), [EndCast]);
    ExecOne(s, EndCast);
    t := Next(s, EndCast).value;
    assert Members(s.reader.dead) == set id | id in h.clients && Full(h, id);
  }
}
