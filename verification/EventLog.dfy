/** The driver at the serial grain: every work function and interrupt handler runs to its end. */
module EventLog {
  import opened ConveyorTypes
  import opened DriverSections

  /** The device, every event pushed so far, and the LED. */
  datatype Node = Node(dev: Device, log: seq<Event>, led: bool)

  datatype Work = FusionRun(spi: Spi, at: int) | TiltRun(level: int, at: int) | EchoRun(edge: int, at: int)

  function PushEvent(n: Node, reason: int, now: int): Node {
    var ev := n.dev.Snap(now, reason);
    n.(log := n.log + [ev], led := ev.state == CriticalFault)
  }

  function ProbeNode(p: Params, level: int, now: int): Node {
    PushEvent(Node(ProbeDevice(p, level), [], false), ReasonWord(true, true, false, false), now)
  }

  function Sense(p: Params, d: Device, spi: Spi): (Device, Verdict) {
    var (seen, loc) := SnapshotSection(d, AdcReadValue(p, spi));
    CountSection(p, seen, loc)
  }

  function SetFusedState(n: Node, verdict: Verdict, now: int): Node {
    var (d, changed, reason) := CommitSection(n.dev, verdict);
    if changed then PushEvent(n.(dev := d), reason, now) else n.(dev := d)
  }

  function Trigger(n: Node): Node {
    n.(dev := TriggerSection(n.dev).0)
  }

  function FusionWork(p: Params, n: Node, spi: Spi, now: int): Node {
    var (d, verdict) := Sense(p, n.dev, spi);
    var m := SetFusedState(n.(dev := d), verdict, now);
    Trigger(m)
  }

  lemma FusionWorkParts(p: Params, n: Node, spi: Spi, now: int, d: Device, verdict: Verdict, fused: Node)
    requires Sense(p, n.dev, spi) == (d, verdict)
    requires fused == SetFusedState(n.(dev := d), verdict, now)
    ensures FusionWork(p, n, spi, now) == Trigger(fused)
  {
  }

  function TiltWork(p: Params, n: Node, level: int, now: int): Node {
    var (d, changed) := TiltSection(n.dev, p.JudgeTilt(level));
    if changed then PushEvent(n.(dev := d), TILT_REASON, now) else n.(dev := d)
  }

  function EchoWork(n: Node, edge: int, at: int): Node {
    var (d, distance) := EdgeSection(n.dev, edge, at);
    n.(dev := if distance >= 0 then StoreSection(d, distance) else d)
  }

  function RunWork(p: Params, n: Node, w: Work): Node {
    match w
    case FusionRun(spi, at) => FusionWork(p, n, spi, at)
    case TiltRun(level, at) => TiltWork(p, n, level, at)
    case EchoRun(edge, at) => EchoWork(n, edge, at)
  }

  /** A work pushes one event at most. */
  lemma LogGrows(p: Params, n: Node, w: Work)
    ensures var log := RunWork(p, n, w).log;
            log == n.log || (|log| == |n.log| + 1 && log[..|n.log|] == n.log)
  {
  }

  function Serial(p: Params, n: Node, works: seq<Work>): Node {
    if works == [] then n else RunWork(p, Serial(p, n, works[..|works| - 1]), works[|works| - 1])
  }

  /** What one event says about the change since the event before it. */
  predicate Follows(before: Event, e: Event) {
    && 0 <= e.reason < 16
    && (Bit(e.reason, 0) <==> e.tilt != before.tilt)
    && (Bit(e.reason, 1) <==> e.blockage != before.blockage)
    && Bit(e.reason, 0) != Bit(e.reason, 1)
    && (Bit(e.reason, 2) || Bit(e.reason, 3) <==> before.blockage == Clear && e.blockage == Blocked)
    && e.state != before.state
    && e.state == EvaluateState(e.tilt, e.blockage)
  }

  ghost predicate LogInv(p: Params, n: Node) {
    && n.log != []
    && n.log[0].reason == 3 && n.log[0].state == EvaluateState(n.log[0].tilt, n.log[0].blockage)
    && (forall k :: 1 <= k < |n.log| ==> Follows(n.log[k - 1], n.log[k]))
    && n.dev.Matches(n.log[|n.log| - 1]) && n.dev.Consistent()
    && n.led == (n.dev.state == CriticalFault)
    && (n.dev.Blockage() == Clear ==> n.dev.filter.hyst.streak.block < p.confirmCount)
    && (n.dev.Blockage() == Blocked ==> n.dev.filter.hyst.streak.clear < p.clearCount)
  }

  /** The state always changes with one of tilt and blockage, and never returns within one change. */
  lemma PushKeepsLog(p: Params, before: Node, d: Device, reason: int, now: int)
    requires LogInv(p, before)
    requires Follows(before.dev.Snap(now, 0), d.Snap(now, reason)) && d.Consistent()
    requires d.Blockage() == Clear ==> d.filter.hyst.streak.block < p.confirmCount
    requires d.Blockage() == Blocked ==> d.filter.hyst.streak.clear < p.clearCount
    ensures LogInv(p, PushEvent(before.(dev := d), reason, now))
  {
  }

  /** With sensible thresholds the verdict changes only in the direction of this run's raw sample. */
  lemma CountFacts(p: Params, d: Device, loc: Locals)
    requires p.Sensible()
    requires d.Blockage() == Clear ==> d.filter.hyst.streak.block < p.confirmCount
    requires d.Blockage() == Blocked ==> d.filter.hyst.streak.clear < p.clearCount
    ensures var (e, v) := CountSection(p, d, loc);
            && (v.blockage == Clear ==> e.filter.hyst.streak.block < p.confirmCount)
            && (v.blockage == Blocked ==> e.filter.hyst.streak.clear < p.clearCount)
            && (d.Blockage() == Clear && v.blockage == Blocked ==> v.lightBlocked || v.distanceStable)
            && (d.Blockage() == Blocked && v.blockage == Clear ==> !v.lightBlocked && !v.distanceStable)
            && (d.Blockage() == v.blockage && e.Blockage() == d.Blockage() && d.tilt == loc.tilt && d.Consistent()
                ==> d.state == v.state)
  {
  }

  lemma FusionKeepsLog(p: Params, n: Node, spi: Spi, now: int)
    requires p.Sensible() && LogInv(p, n)
    ensures LogInv(p, FusionWork(p, n, spi, now))
  {
    var (d1, loc) := SnapshotSection(n.dev, AdcReadValue(p, spi));
    var (d2, verdict) := CountSection(p, d1, loc);
    var (d3, changed, reason) := CommitSection(d2, verdict);
    CountFacts(p, d1, loc);
    if changed {
      assert Follows(n.dev.Snap(now, 0), d3.Snap(now, reason));
      PushKeepsLog(p, n, d3, reason, now);
    }
  }

  lemma TiltKeepsLog(p: Params, n: Node, level: int, now: int)
    requires LogInv(p, n)
    ensures LogInv(p, TiltWork(p, n, level, now))
  {
    var (d, changed) := TiltSection(n.dev, p.JudgeTilt(level));
    if changed {
      PushKeepsLog(p, n, d, TILT_REASON, now);
    }
  }

  lemma {:induction false} SerialKeepsLog(p: Params, level: int, now: int, works: seq<Work>)
    requires p.Sensible()
    ensures LogInv(p, Serial(p, ProbeNode(p, level, now), works))
  {
    if works != [] {
      var n, w := Serial(p, ProbeNode(p, level, now), works[..|works| - 1]), works[|works| - 1];
      SerialKeepsLog(p, level, now, works[..|works| - 1]);
      match w
      case FusionRun(spi, at) => FusionKeepsLog(p, n, spi, at);
      case TiltRun(l, at) => TiltKeepsLog(p, n, l, at);
      case EchoRun(_, _) =>
    }
  }

  // ---------------------------------------------------------------- replay

  function FlipTilt(t: Tilt): Tilt { if t == Level then Tilted else Level }

  function FlipBlockage(b: Blockage): Blockage { if b == Clear then Blocked else Clear }

  /** Rebuilds tilt and blockage after event k from the first event and the reason flags alone. */
  function Replay(log: seq<Event>, k: nat): (Tilt, Blockage)
    requires k < |log|
  {
    if k == 0 then (log[0].tilt, log[0].blockage)
    else
      var (t, b) := Replay(log, k - 1);
      (if Bit(log[k].reason, 0) then FlipTilt(t) else t, if Bit(log[k].reason, 1) then FlipBlockage(b) else b)
  }

  lemma {:induction false} ReplayIsLog(log: seq<Event>, k: nat)
    requires k < |log| && forall i :: 1 <= i < |log| ==> Follows(log[i - 1], log[i])
    ensures Replay(log, k) == (log[k].tilt, log[k].blockage)
  {
    if k > 0 {
      ReplayIsLog(log, k - 1);
      assert Follows(log[k - 1], log[k]);
    }
  }

  /**
   * In serial runs the event stream is complete: every event toggles exactly one of tilt and blockage and
   * its flags say which, so the first event and the flags rebuild every later state; and the newest event
   * and the LED show the device as it is.
   */
  lemma EventStreamReplays(p: Params, level: int, now: int, works: seq<Work>)
    requires p.Sensible()
    ensures var n := Serial(p, ProbeNode(p, level, now), works);
            && n.log != [] && n.log[0].reason == 3
            && (forall k :: 1 <= k < |n.log| ==> Follows(n.log[k - 1], n.log[k]))
            && (forall k :: 0 <= k < |n.log| ==>
                  && Replay(n.log, k) == (n.log[k].tilt, n.log[k].blockage)
                  && n.log[k].state == EvaluateState(Replay(n.log, k).0, Replay(n.log, k).1))
            && n.dev.Matches(n.log[|n.log| - 1]) && n.led == (n.dev.state == CriticalFault)
  {
    SerialKeepsLog(p, level, now, works);
    var n := Serial(p, ProbeNode(p, level, now), works);
    forall k | 0 <= k < |n.log|
      ensures Replay(n.log, k) == (n.log[k].tilt, n.log[k].blockage)
      ensures n.log[k].state == EvaluateState(Replay(n.log, k).0, Replay(n.log, k).1)
    {
      ReplayIsLog(n.log, k);
      assert k > 0 ==> Follows(n.log[k - 1], n.log[k]);
    }
  }
}
