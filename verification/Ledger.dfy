/** Pushes and any number of readers interleaved on the event ring: where every event ends up. */
module ReaderLedger {
  import opened ConveyorTypes
  import opened EventRing
  import opened EventLine

  type Recorded = e: Event | e.Fits() witness Event(0, RunningOk, Level, Clear, 0, 0, 0)

  /** Events are named by their position in `pushed`; a read holds its event from the pop until it finishes. */
  datatype Ledger = Ledger(pushed: seq<Recorded>, queue: seq<Recorded>, dropped: seq<nat>, popped: seq<nat>,
                           inFlight: multiset<nat>, returned: multiset<nat>, failed: multiset<nat>)

  const EMPTY := Ledger([], [], [], [], multiset{}, multiset{}, multiset{})

  /** A pop is the locked section of one `node_read` call; Finish is the rest of that call. */
  datatype Op = Push(ev: Recorded) | Pop | Finish(index: nat, count: nat, copied: bool)

  /** Events that have left the queue. */
  function Gone(l: Ledger): nat { if |l.queue| <= |l.pushed| then |l.pushed| - |l.queue| else 0 }

  function Apply(l: Ledger, op: Op): Ledger {
    match op
    case Push(ev) =>
      l.(pushed := l.pushed + [ev], queue := DropOldest(l.queue, ev),
         dropped := if |l.queue| == CAPACITY then l.dropped + [Gone(l)] else l.dropped)
    case Pop =>
      if l.queue == [] then l
      else l.(queue := l.queue[1..], popped := l.popped + [Gone(l)], inFlight := l.inFlight + multiset{Gone(l)})
    case Finish(index, count, copied) =>
      if index !in l.inFlight || index >= |l.pushed| then l
      else if |FormatLine(l.pushed[index])| <= count && copied
      then l.(inFlight := l.inFlight - multiset{index}, returned := l.returned + multiset{index})
      else l.(inFlight := l.inFlight - multiset{index}, failed := l.failed + multiset{index})
  }

  function Run(ops: seq<Op>): Ledger {
    if ops == [] then EMPTY else Apply(Run(ops[..|ops| - 1]), ops[|ops| - 1])
  }

  ghost predicate Increasing(s: seq<nat>) {
    forall i, j :: 0 <= i < j < |s| ==> s[i] < s[j]
  }

  /** Each event that left the queue was either popped once or dropped once. */
  ghost predicate Partition(l: Ledger) {
    && Increasing(l.popped) && Increasing(l.dropped)
    && (forall i :: 0 <= i < |l.popped| ==> l.popped[i] < Gone(l))
    && (forall i :: 0 <= i < |l.dropped| ==> l.dropped[i] < Gone(l))
    && (forall i: nat :: i < Gone(l) ==> (i in l.popped) != (i in l.dropped))
    && |l.popped| + |l.dropped| == Gone(l)
  }

  ghost predicate LedgerInv(l: Ledger) {
    && |l.queue| <= CAPACITY && |l.queue| <= |l.pushed|
    && l.queue == l.pushed[|l.pushed| - |l.queue|..]
    && Partition(l)
    && multiset(l.popped) == l.inFlight + l.returned + l.failed
  }

  lemma Leaves(s: seq<nat>, n: nat)
    requires Increasing(s) && forall i :: 0 <= i < |s| ==> s[i] < n
    ensures Increasing(s + [n]) && multiset(s + [n]) == multiset(s) + multiset{n}
  {
  }

  lemma PushKeeps(l: Ledger, ev: Recorded)
    requires LedgerInv(l)
    ensures LedgerInv(Apply(l, Push(ev)))
  {
    var m := Apply(l, Push(ev));
    if |l.queue| == CAPACITY {
      Leaves(l.dropped, Gone(l));
      assert forall i: nat :: i in m.dropped <==> i in l.dropped || i == Gone(l);
    }
  }

  lemma PopKeeps(l: Ledger)
    requires LedgerInv(l)
    ensures LedgerInv(Apply(l, Pop))
  {
    if l.queue != [] {
      var m := Apply(l, Pop);
      Leaves(l.popped, Gone(l));
      assert forall i: nat :: i in m.popped <==> i in l.popped || i == Gone(l);
    }
  }

  lemma FinishKeeps(l: Ledger, op: Op)
    requires LedgerInv(l) && op.Finish?
    ensures LedgerInv(Apply(l, op))
  {
  }

  lemma {:induction false} RunKeeps(ops: seq<Op>)
    ensures LedgerInv(Run(ops))
  {
    if ops != [] {
      var l, op := Run(ops[..|ops| - 1]), ops[|ops| - 1];
      RunKeeps(ops[..|ops| - 1]);
      match op
      case Push(ev) => PushKeeps(l, ev);
      case Pop => PopKeeps(l);
      case Finish(_, _, _) => FinishKeeps(l, op);
    }
  }

  lemma {:induction false} IncreasingOnce(s: seq<nat>, x: nat)
    requires Increasing(s)
    ensures multiset(s)[x] <= 1
  {
    if s != [] {
      var init, last := s[..|s| - 1], s[|s| - 1];
      IncreasingOnce(init, x);
      assert s == init + [last];
      assert last !in init;
    }
  }

  /**
   * In every interleaving: the queue holds the newest events in order; reads pop events in order and none
   * twice; and every pushed event is returned, dropped on overflow, lost by a failed read, being read, or queued.
   */
  lemma EveryEventAccounted(ops: seq<Op>)
    ensures var l := Run(ops);
            && |l.queue| <= CAPACITY && |l.queue| <= |l.pushed| && l.queue == l.pushed[|l.pushed| - |l.queue|..]
            && Increasing(l.popped) && Increasing(l.dropped)
            && (forall i: nat :: i < Gone(l) ==> (i in l.popped) != (i in l.dropped))
            && (forall i: nat :: (l.inFlight + l.returned + l.failed)[i] <= 1)
            && |l.pushed| == |l.returned| + |l.dropped| + |l.failed| + |l.inFlight| + |l.queue|
  {
    RunKeeps(ops);
    var l := Run(ops);
    forall i: nat ensures (l.inFlight + l.returned + l.failed)[i] <= 1 {
      IncreasingOnce(l.popped, i);
    }
    assert |multiset(l.popped)| == |l.popped|;
  }

  /** A reader with the monitor's 255 bytes whose copies succeed never loses an event it popped. */
  lemma {:induction false} MonitorLosesNothing(ops: seq<Op>)
    requires forall i :: 0 <= i < |ops| && ops[i].Finish? ==> ops[i].count >= MONITOR_COUNT && ops[i].copied
    ensures Run(ops).failed == multiset{}
  {
    if ops != [] {
      var l, op := Run(ops[..|ops| - 1]), ops[|ops| - 1];
      MonitorLosesNothing(ops[..|ops| - 1]);
      if op.Finish? && op.index < |l.pushed| {
        LineFits(l.pushed[op.index]);
      }
    }
  }

  lemma RunSnoc(ops: seq<Op>, op: Op)
    ensures Run(ops + [op]) == Apply(Run(ops), op)
  {
    assert (ops + [op])[..|ops|] == ops;
  }

  /** A push is recorded and queued last; it drops the oldest queued event exactly when 31 are waiting. */
  lemma OnePush(ops: seq<Op>, ev: Recorded)
    ensures var l, m := Run(ops), Run(ops + [Push(ev)]);
            && m.pushed == l.pushed + [ev] && m.returned == l.returned && m.failed == l.failed
            && Gone(l) <= |l.pushed|
            && (|l.queue| < 31 ==> m.queue == l.queue + [ev] && m.dropped == l.dropped)
            && (|l.queue| >= 31 ==> m.queue == l.queue[1..] + [ev] && m.dropped == l.dropped + [Gone(l)]
                                    && l.pushed[Gone(l)..] == l.queue)
  {
    RunSnoc(ops, Push(ev));
    RunKeeps(ops);
  }

  /** A whole read takes the oldest event: returned if its line fits and the copy succeeds, lost otherwise. */
  lemma OneRead(ops: seq<Op>, count: nat, copied: bool)
    requires Run(ops).queue != []
    ensures var l := Run(ops);
            var m := Run(ops + [Pop] + [Finish(Gone(l), count, copied)]);
            && m.queue == l.queue[1..] && Gone(l) <= |l.pushed| && l.pushed[Gone(l)..] == l.queue
            && (if |FormatLine(l.queue[0])| <= count && copied
                then m.returned == l.returned + multiset{Gone(l)} && m.failed == l.failed
                else m.failed == l.failed + multiset{Gone(l)} && m.returned == l.returned)
  {
    RunKeeps(ops);
    RunSnoc(ops, Pop);
    RunSnoc(ops + [Pop], Finish(Gone(Run(ops)), count, copied));
  }
}
