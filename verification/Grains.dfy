/** The serial grain is one schedule of the interleaved one. */
module Grains {
  import opened ConveyorTypes
  import opened DriverSections
  import opened DriverSystem
  import opened EventLog

  function NodeOf(s: System): Node { Node(s.dev, s.out.pushed, s.out.led) }

  lemma FusionPushRuns(p: Params, start: System, before: seq<Step>, s: System) returns (steps: seq<Step>, t: System)
    requires Exec(p, start, before) == Some(s)
    requires s.works.fusion.FusionPush? && s.works.fusion.push.PushOwed?
    ensures Exec(p, start, steps) == Some(t)
    ensures t.works == s.works.(fusion := FusionTrigger) && t.now == s.now && t.pin == s.pin
    ensures NodeOf(t) == PushEvent(NodeOf(s), s.works.fusion.push.reason, s.now)
  {
    steps, t := Do(p, start, before, s, FusionPushes);
    steps, t := Do(p, start, steps, t, FusionPushes);
    steps, t := Do(p, start, steps, t, FusionPushes);
  }

  lemma TiltPushRuns(p: Params, start: System, before: seq<Step>, s: System) returns (steps: seq<Step>, t: System)
    requires Exec(p, start, before) == Some(s)
    requires s.works.tilt.TiltPush? && s.works.tilt.push.PushOwed?
    ensures Exec(p, start, steps) == Some(t)
    ensures t.works == s.works.(tilt := TiltOwesFusion) && t.now == s.now && t.pin == s.pin
    ensures NodeOf(t) == PushEvent(NodeOf(s), s.works.tilt.push.reason, s.now)
  {
    steps, t := Do(p, start, before, s, TiltPushes);
    steps, t := Do(p, start, steps, t, TiltPushes);
    steps, t := Do(p, start, steps, t, TiltPushes);
  }

  /** Running the sections of a queued fusion run back to back is the serial `FusionWork`. */
  lemma FusionWorkIsSchedule(p: Params, s: System, spi: Spi) returns (steps: seq<Step>, t: System)
    requires s.works.fusion == FusionIdle && s.works.fusionPending
    ensures Exec(p, s, steps) == Some(t)
    ensures NodeOf(t) == FusionWork(p, NodeOf(s), spi, s.now)
    ensures t.works == s.works.(fusionPending := false) && t.pin == s.pin && t.now == s.now
  {
    steps, t := Do(p, s, [], s, FusionStarts);
    steps, t := Do(p, s, steps, t, FusionSnapshots(spi));
    steps, t := Do(p, s, steps, t, FusionCounts);
    steps, t := Do(p, s, steps, t, FusionCommits);
    if t.works.fusion.FusionPush? {
      steps, t := FusionPushRuns(p, s, steps, t);
    }
    steps, t := Do(p, s, steps, t, FusionTriggers);
  }

  lemma TiltCommitRuns(p: Params, s: System) returns (steps: seq<Step>, t: System)
    requires s.works.tilt == TiltIdle && s.works.tiltPending && s.works.deadline <= s.now
    ensures Exec(p, s, steps) == Some(t)
    ensures var (d, changed) := TiltSection(s.dev, p.JudgeTilt(s.pin.level));
            t == s.(dev := d, works := s.works.(tiltPending := false,
                      tilt := if changed then TiltPush(PushOwed(TILT_REASON)) else TiltOwesFusion))
  {
    steps, t := Do(p, s, [], s, TiltStarts);
    steps, t := Do(p, s, steps, t, TiltReads);
    steps, t := Do(p, s, steps, t, TiltCommits);
  }

  /** Running a due evaluation back to back is the serial `TiltWork`, and leaves a fusion run queued. */
  lemma TiltWorkIsSchedule(p: Params, s: System) returns (steps: seq<Step>, t: System)
    requires s.works.tilt == TiltIdle && s.works.tiltPending && s.works.deadline <= s.now
    ensures Exec(p, s, steps) == Some(t)
    ensures NodeOf(t) == TiltWork(p, NodeOf(s), s.pin.level, s.now)
    ensures t.works == s.works.(tiltPending := false, fusionPending := true) && t.pin == s.pin && t.now == s.now
  {
    steps, t := TiltCommitRuns(p, s);
    if t.works.tilt.TiltPush? {
      steps, t := TiltPushRuns(p, s, steps, t);
    }
    steps, t := Do(p, s, steps, t, TiltSchedules);
  }

  lemma EchoWorkIsSchedule(p: Params, start: System, before: seq<Step>, s: System, edge: int, at: int)
    returns (steps: seq<Step>, t: System)
    requires Exec(p, start, before) == Some(s) && s.works.echo == EchoIdle
    ensures Exec(p, start, steps) == Some(t)
    ensures NodeOf(t) == EchoWork(NodeOf(s), edge, at)
    ensures t.works == s.works && t.pin == s.pin && t.now == s.now
  {
    steps, t := Do(p, start, before, s, EchoEdge(edge, at));
    if t.works.echo.EchoStore? {
      steps, t := Do(p, start, steps, t, EchoStores);
    }
  }

  /** Probe's own push back to back leaves the serial start. */
  lemma ProbeRuns(p: Params, level: int, now: int) returns (steps: seq<Step>, t: System)
    ensures Exec(p, Probe(p, level, now), steps) == Some(t)
    ensures NodeOf(t) == ProbeNode(p, level, now)
    ensures t.works == Probe(p, level, now).works.(probe := ProbeDone)
    ensures t.pin == Probe(p, level, now).pin && t.now == now
  {
    var start := Probe(p, level, now);
    steps, t := Do(p, start, [], start, ProbePushes);
    steps, t := Do(p, start, steps, t, ProbePushes);
    steps, t := Do(p, start, steps, t, ProbePushes);
  }

  // ------------------------------------------------------ whole serial runs

  /** The clock after the works: echo edges carry their own time stamp. */
  function Clock(now: int, works: seq<Work>): int {
    if works == [] then now
    else
      match works[|works| - 1]
      case FusionRun(_, at) => at
      case TiltRun(_, at) => at
      case EchoRun(_, _) => Clock(now, works[..|works| - 1])
  }

  /** When the latest evaluation ran, or else probe. */
  function LastTilt(now: int, works: seq<Work>): int {
    if works == [] then now
    else
      match works[|works| - 1]
      case TiltRun(_, at) => at
      case _ => LastTilt(now, works[..|works| - 1])
  }

  /** The clock never runs back, and evaluations are at least the debounce delay apart. */
  predicate Timely(p: Params, now: int, works: seq<Work>) {
    works != [] ==>
      var init := works[..|works| - 1];
      && Timely(p, now, init)
      && match works[|works| - 1]
         case FusionRun(_, at) => Clock(now, init) <= at
         case TiltRun(_, at) => Clock(now, init) <= at && LastTilt(now, init) + p.tiltDebounce <= at
         case EchoRun(_, _) => true
  }

  /** Between two works: nothing runs, and an evaluation is armed for the debounce delay after the last one. */
  predicate Between(p: Params, s: System, now: int, works: seq<Work>) {
    && s.works.fusion == FusionIdle && s.works.tilt == TiltIdle && s.works.echo == EchoIdle
    && s.works.probe == ProbeDone && !s.pin.irqEntered
    && s.works.tiltPending && s.works.deadline == LastTilt(now, works) + p.tiltDebounce
    && s.now == Clock(now, works)
  }

  /** An edge, and its handler, at this very moment. */
  lemma Arms(p: Params, start: System, before: seq<Step>, s: System) returns (steps: seq<Step>, t: System)
    requires Exec(p, start, before) == Some(s) && !s.pin.irqEntered
    ensures Exec(p, start, steps) == Some(t)
    ensures NodeOf(t) == NodeOf(s) && t.now == s.now && !t.pin.irqEntered
    ensures t.works == s.works.(tiltPending := true, deadline := s.now + p.tiltDebounce)
  {
    steps, t := Do(p, start, before, s, LevelChanges(if s.pin.level == 0 then 1 else 0));
    steps, t := Do(p, start, steps, t, IrqEnters);
    steps, t := Do(p, start, steps, t, IrqArms);
  }

  lemma TimerFiresAt(p: Params, start: System, before: seq<Step>, s: System, at: int)
    returns (steps: seq<Step>, t: System)
    requires Exec(p, start, before) == Some(s) && s.now <= at && s.works.probe == ProbeDone
    ensures Exec(p, start, steps) == Some(t)
    ensures t == s.(now := at, works := s.works.(fusionPending := true))
  {
    steps, t := Do(p, start, before, s, Ticks(at - s.now));
    steps, t := Do(p, start, steps, t, TimerFires);
  }

  lemma FusionRuns(p: Params, start: System, before: seq<Step>, s: System, spi: Spi, at: int)
    returns (steps: seq<Step>, t: System)
    requires Exec(p, start, before) == Some(s) && s.now <= at
    requires s.works.fusion == FusionIdle && s.works.probe == ProbeDone
    ensures Exec(p, start, steps) == Some(t)
    ensures NodeOf(t) == FusionWork(p, NodeOf(s), spi, at)
    ensures t.works == s.works.(fusionPending := false) && t.pin == s.pin && t.now == at
  {
    var queued;
    steps, queued := TimerFiresAt(p, start, before, s, at);
    var more;
    more, t := FusionWorkIsSchedule(p, queued, spi);
    ExecConcat(p, start, steps, more);
    steps := steps + more;
  }

  lemma LevelIsAt(p: Params, start: System, before: seq<Step>, s: System, level: int, at: int)
    returns (steps: seq<Step>, t: System)
    requires Exec(p, start, before) == Some(s) && s.now <= at
    ensures Exec(p, start, steps) == Some(t)
    ensures t == s.(now := at, pin := t.pin) && t.pin.level == level && t.pin.irqEntered == s.pin.irqEntered
  {
    steps, t := Do(p, start, before, s, Ticks(at - s.now));
    if t.pin.level != level {
      steps, t := Do(p, start, steps, t, LevelChanges(level));
    }
  }

  lemma TiltRuns(p: Params, start: System, before: seq<Step>, s: System, level: int, at: int)
    returns (steps: seq<Step>, t: System)
    requires Exec(p, start, before) == Some(s) && s.now <= at && !s.pin.irqEntered
    requires s.works.tilt == TiltIdle && s.works.tiltPending && s.works.deadline <= at
    ensures Exec(p, start, steps) == Some(t)
    ensures NodeOf(t) == TiltWork(p, NodeOf(s), level, at)
    ensures t.works == s.works.(fusionPending := true, deadline := at + p.tiltDebounce)
    ensures t.now == at && !t.pin.irqEntered
  {
    var due, more;
    steps, due := LevelIsAt(p, start, before, s, level, at);
    more, t := TiltWorkIsSchedule(p, due);
    ExecConcat(p, start, steps, more);
    steps, t := Arms(p, start, steps + more, t);
  }

  /**
   * Every timely serial run is a run of the interleaved machine, so whatever serial runs can do the driver
   * can do, and what holds of every interleaving holds of them.
   */
  lemma {:induction false} SerialRunIsSchedule(p: Params, level: int, now: int, works: seq<Work>)
    returns (steps: seq<Step>, t: System)
    requires Timely(p, now, works)
    ensures Reachable(p, level, now, steps) && t == After(p, level, now, steps)
    ensures NodeOf(t) == Serial(p, ProbeNode(p, level, now), works)
    ensures Between(p, t, now, works)
    decreases |works|
  {
    var start := Probe(p, level, now);
    if works == [] {
      steps, t := ProbeRuns(p, level, now);
      steps, t := Arms(p, start, steps, t);
    } else {
      steps, t := SerialRunIsSchedule(p, level, now, works[..|works| - 1]);
      match works[|works| - 1]
      case FusionRun(spi, at) => steps, t := FusionRuns(p, start, steps, t, spi, at);
      case TiltRun(l, at) => steps, t := TiltRuns(p, start, steps, t, l, at);
      case EchoRun(edge, at) => steps, t := EchoWorkIsSchedule(p, start, steps, t, edge, at);
    }
  }
}
