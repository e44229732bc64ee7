/** Runs of the driver in which the event stream, the LED or `state` is wrong. */
module Overlaps {
  import opened ConveyorTypes
  import opened LightFilter
  import opened DriverSections
  import opened DriverSystem
  import opened Pushes

  const P := Params(1, 0, 50, 2, 1, 1, 12, 1800, true)
  const START_SYS := Probe(P, 0, 0)
  const ALERT := Event(0, BlockageAlert, Level, Blocked, 0, 0, 6)

  /** The belt stays as it is: the pin rests and every light sample reads 0. */
  ghost predicate BeltRests(steps: seq<Step>) {
    forall i :: 0 <= i < |steps| ==>
      !steps[i].LevelChanges? && (steps[i].FusionSnapshots? ==> steps[i].spi == SpiData(0, 0))
  }

  /** A critical fault that neither the LED nor the newest event shows. */
  predicate Hidden(s: System) {
    && s.dev.state == CriticalFault && !s.out.led
    && s.out.pushed != [] && Last(s.out.pushed).state == BlockageAlert
  }

  /** Every fusion run on a resting belt agrees with the state as it is. */
  predicate StuckInv(s: System) {
    && Hidden(s)
    && s.works.tilt == TiltIdle && !s.works.tiltPending && !s.pin.edgePending && !s.pin.irqEntered
    && s.works.probe == ProbeDone
    && s.dev.tilt == Tilted && s.dev.Blockage() == Blocked && s.dev.filter.light.ema == 0
    && match s.works.fusion
       case FusionSnapped(loc) => loc.tilt == Tilted && loc.light == 0
       case FusionDecided(_, v) => v.state == CriticalFault && v.blockage == Blocked
       case FusionPush(_) => false
       case _ => true
  }

  lemma StuckThroughFusion(s: System, step: Step)
    requires StuckInv(s) && Next(P, s, step).Some? && ByFusion(step)
    requires step.FusionSnapshots? ==> step.spi == SpiData(0, 0)
    ensures StuckInv(Next(P, s, step).value)
  {
  }

  lemma StuckStays(s: System, step: Step)
    requires StuckInv(s) && Next(P, s, step).Some? && BeltRests([step])
    ensures StuckInv(Next(P, s, step).value)
  {
    assert [step][0] == step;
    if ByFusion(step) {
      StuckThroughFusion(s, step);
    }
  }

  lemma {:induction false} StuckForGood(s: System, steps: seq<Step>)
    requires StuckInv(s) && BeltRests(steps) && Exec(P, s, steps).Some?
    ensures StuckInv(Exec(P, s, steps).value)
    decreases |steps|
  {
    if steps != [] {
      assert [steps[0]][0] == steps[0];
      StuckStays(s, steps[0]);
      StuckForGood(Next(P, s, steps[0]).value, steps[1..]);
    }
  }

  /** Probe's own push is over. */
  lemma ProbeFinished() returns (steps: seq<Step>, s: System)
    ensures Exec(P, START_SYS, steps) == Some(s)
    ensures s.dev == START_SYS.dev && s.works == START_SYS.works.(probe := ProbeDone)
    ensures s.pin == START_SYS.pin && s.now == 0
  {
    steps, s := [], START_SYS;
    steps, s := Do(P, START_SYS, steps, s, ProbePushes);
    steps, s := Do(P, START_SYS, steps, s, ProbePushes);
    steps, s := Do(P, START_SYS, steps, s, ProbePushes);
  }

  /** A fusion run has decided from a level belt, and not committed yet. */
  lemma DecidedOnLevel() returns (steps: seq<Step>, s: System)
    ensures Exec(P, START_SYS, steps) == Some(s)
    ensures s.works.fusion == FusionDecided(Level, Verdict(BlockageAlert, Blocked, true, false))
    ensures s.works.tilt == TiltIdle
    ensures !s.pin.edgePending && !s.pin.irqEntered && s.pin.level == 0 && s.now == 0
    ensures !s.works.fusionPending && !s.works.tiltPending
    ensures s.works.echo == EchoIdle && s.works.probe == ProbeDone
    ensures s.dev.tilt == Level && s.dev.state == RunningOk && s.dev.Blockage() == Clear
    ensures s.dev.filter.light == Light(0, 0) && s.dev.distanceCm == 0 && !s.dev.distanceFresh
  {
    steps, s := ProbeFinished();
    steps, s := Do(P, START_SYS, steps, s, TimerFires);
    steps, s := Do(P, START_SYS, steps, s, FusionStarts);
    steps, s := Do(P, START_SYS, steps, s, FusionSnapshots(SpiData(0, 0)));
    steps, s := Do(P, START_SYS, steps, s, FusionCounts);
  }

  /** A fusion run has taken the snapshot of its alert and is about to enqueue it. */
  lemma AlertSnapped() returns (steps: seq<Step>, s: System)
    ensures Exec(P, START_SYS, steps) == Some(s)
    ensures s.works.fusion == FusionPush(PushSnapped(ALERT)) && s.works.tilt == TiltIdle
    ensures s.works.echo == EchoIdle && s.works.probe == ProbeDone
    ensures !s.works.fusionPending && !s.works.tiltPending && !s.pin.edgePending && !s.pin.irqEntered
    ensures s.pin.level == 0 && s.now == 0
    ensures s.dev.tilt == Level && s.dev.state == BlockageAlert && s.dev.Blockage() == Blocked
    ensures s.dev.filter.light.ema == 0 && !s.dev.distanceFresh
  {
    steps, s := DecidedOnLevel();
    steps, s := Do(P, START_SYS, steps, s, FusionCommits);
    steps, s := Do(P, START_SYS, steps, s, FusionPushes);
  }

  lemma TiltIsArmed(before: seq<Step>, s: System) returns (steps: seq<Step>, t: System)
    requires Exec(P, START_SYS, before) == Some(s)
    requires s.pin.level == 0 && !s.pin.edgePending && !s.pin.irqEntered && s.now == 0
    ensures Exec(P, START_SYS, steps) == Some(t)
    ensures t == s.(pin := s.pin.(level := 1, lastEdge := 0), works := s.works.(tiltPending := true, deadline := 0))
  {
    steps, t := Do(P, START_SYS, before, s, LevelChanges(1));
    steps, t := Do(P, START_SYS, steps, t, IrqEnters);
    steps, t := Do(P, START_SYS, steps, t, IrqArms);
  }

  /** The pin goes high, its interrupt is served, and the evaluation starts and reads it. */
  lemma TiltIsRead(before: seq<Step>, s: System) returns (steps: seq<Step>, t: System)
    requires Exec(P, START_SYS, before) == Some(s)
    requires s.pin.level == 0 && s.works.tilt == TiltIdle && !s.pin.edgePending && !s.pin.irqEntered && s.now == 0
    ensures Exec(P, START_SYS, steps) == Some(t)
    ensures t == s.(pin := s.pin.(level := 1, lastEdge := 0),
                    works := s.works.(tilt := TiltRead(1), tiltPending := false, deadline := 0))
  {
    var armed;
    steps, armed := TiltIsArmed(before, s);
    steps, t := Do(P, START_SYS, steps, armed, TiltStarts);
    steps, t := Do(P, START_SYS, steps, t, TiltReads);
  }

  /** The belt tilts; the evaluation commits the critical fault and owes its event. */
  lemma FaultCommitted() returns (steps: seq<Step>, s: System)
    ensures Exec(P, START_SYS, steps) == Some(s)
    ensures s.works.fusion == FusionPush(PushSnapped(ALERT)) && s.works.tilt == TiltPush(PushOwed(1))
    ensures !s.works.fusionPending && !s.works.tiltPending && !s.pin.edgePending && !s.pin.irqEntered
    ensures s.works.echo == EchoIdle && s.works.probe == ProbeDone && s.pin.level == 1 && s.now == 0
    ensures s.dev.tilt == Tilted && s.dev.state == CriticalFault && s.dev.Blockage() == Blocked
    ensures s.dev.filter.light.ema == 0 && !s.dev.distanceFresh
  {
    steps, s := AlertSnapped();
    steps, s := TiltIsRead(steps, s);
    steps, s := Do(P, START_SYS, steps, s, TiltCommits);
  }

  /** The fault's push runs to its end inside the alert's push, which then finishes after it. */
  lemma AlertOvertaken() returns (steps: seq<Step>, s: System)
    ensures Exec(P, START_SYS, steps) == Some(s)
    ensures s.works.fusion == FusionTrigger && s.works.tilt == TiltOwesFusion
    ensures s.works.echo == EchoIdle && s.works.probe == ProbeDone
    ensures !s.works.fusionPending && !s.works.tiltPending && !s.pin.edgePending && !s.pin.irqEntered
    ensures s.dev.tilt == Tilted && s.dev.state == CriticalFault && s.dev.Blockage() == Blocked
    ensures s.dev.filter.light.ema == 0 && !s.dev.distanceFresh
    ensures s.out.pushed != [] && Last(s.out.pushed) == ALERT && !s.out.led
  {
    steps, s := FaultCommitted();
    steps, s := Do(P, START_SYS, steps, s, TiltPushes);
    steps, s := Do(P, START_SYS, steps, s, TiltPushes);
    steps, s := Do(P, START_SYS, steps, s, TiltPushes);
    steps, s := Do(P, START_SYS, steps, s, FusionPushes);
    steps, s := Do(P, START_SYS, steps, s, FusionPushes);
  }

  /** The overtaken push is over, and the fusion run that the evaluation requested starts. */
  lemma NextRunStarts() returns (steps: seq<Step>, s: System)
    ensures Exec(P, START_SYS, steps) == Some(s)
    ensures s.works.fusion == FusionStarted && s.works.tilt == TiltIdle
    ensures s.works.echo == EchoIdle && s.works.probe == ProbeDone
    ensures !s.works.fusionPending && !s.works.tiltPending && !s.pin.edgePending && !s.pin.irqEntered
    ensures s.dev.tilt == Tilted && s.dev.state == CriticalFault && s.dev.Blockage() == Blocked
    ensures s.dev.filter.light.ema == 0 && !s.dev.distanceFresh
    ensures s.out.pushed != [] && Last(s.out.pushed) == ALERT && !s.out.led
  {
    steps, s := AlertOvertaken();
    steps, s := Do(P, START_SYS, steps, s, FusionTriggers);
    steps, s := Do(P, START_SYS, steps, s, TiltSchedules);
    steps, s := Do(P, START_SYS, steps, s, FusionStarts);
  }

  /** That run finds nothing to change, and the driver falls quiet. */
  lemma OvertakenAndQuiet() returns (steps: seq<Step>, s: System)
    ensures Exec(P, START_SYS, steps) == Some(s)
    ensures Quiescent(s) && NoPush(s) && StuckInv(s)
  {
    steps, s := NextRunStarts();
    steps, s := Do(P, START_SYS, steps, s, FusionSnapshots(SpiData(0, 0)));
    steps, s := Do(P, START_SYS, steps, s, FusionCounts);
    steps, s := Do(P, START_SYS, steps, s, FusionCommits);
    steps, s := Do(P, START_SYS, steps, s, FusionTriggers);
  }

  ghost predicate HiddenForGood(p: Params, s: System) {
    forall more: seq<Step> :: BeltRests(more) && Exec(p, s, more).Some? ==> Hidden(Exec(p, s, more).value)
  }

  /**
   * Overlapping pushes can break the claim for good: a reachable quiescent driver in a critical fault whose
   * LED is off and whose newest event says BLOCKAGE_ALERT, now and as long as the belt stays as it is.
   */
  lemma OverlapHidesFault()
    ensures exists p: Params, steps: seq<Step> ::
              && p.Sensible() && Reachable(p, 0, 0, steps)
              && Quiescent(After(p, 0, 0, steps)) && NoPush(After(p, 0, 0, steps))
              && HiddenForGood(p, After(p, 0, 0, steps))
              && !NonOverlapping(p, Probe(p, 0, 0), steps) && !NeverOvertakes(p, Probe(p, 0, 0), steps)
  {
    var steps, s := OvertakenAndQuiet();
    assert P.Sensible() && Reachable(P, 0, 0, steps) && After(P, 0, 0, steps) == s;
    forall more: seq<Step> | BeltRests(more) && Exec(P, s, more).Some? ensures Hidden(Exec(P, s, more).value) {
      StuckForGood(s, more);
    }
    if NonOverlapping(P, START_SYS, steps) {
      LastEventAndLed(P, 0, 0, steps);
    }
    AlwaysComesRightIff(P, 0, 0, steps);
  }

  /** The step invariant "`state` agrees with tilt and blockage" is false too; see ConsistentAfterStepIff for when. */
  lemma StateCanBeStale()
    ensures exists p: Params, steps: seq<Step> ::
              p.Sensible() && Reachable(p, 0, 0, steps) && !After(p, 0, 0, steps).dev.Consistent()
  {
    var steps, s := DecidedOnLevel();
    steps, s := TiltIsRead(steps, s);
    steps, s := Do(P, START_SYS, steps, s, TiltCommits);
    steps, s := Do(P, START_SYS, steps, s, FusionCommits);
    assert P.Sensible() && Reachable(P, 0, 0, steps) && After(P, 0, 0, steps) == s;
  }

  /** An evaluation commits a tilt while probe holds the snapshot of its initial event. */
  lemma TiltInsideProbe() returns (steps: seq<Step>, s: System)
    ensures Exec(P, START_SYS, steps) == Some(s)
    ensures s.works.probe.ProbePush? && s.works.probe.push.PushSnapped? && s.works.probe.push.ev.state == RunningOk
    ensures s.works.tilt == TiltPush(PushOwed(TILT_REASON)) && s.works.fusion == FusionIdle
    ensures s.dev.state == StructuralFault && s.out.pushed == []
  {
    steps, s := [], START_SYS;
    steps, s := Do(P, START_SYS, steps, s, ProbePushes);
    steps, s := TiltIsRead(steps, s);
    steps, s := Do(P, START_SYS, steps, s, TiltCommits);
  }

  /** It pushes its event, and then probe pushes its own. */
  lemma ProbeOvertaken() returns (steps: seq<Step>, s: System)
    ensures Exec(P, START_SYS, steps) == Some(s)
    ensures NoPush(s) && s.dev.state == StructuralFault && |s.out.pushed| == 2
    ensures s.out.pushed[0].reason == TILT_REASON && s.out.pushed[1].state == RunningOk
  {
    steps, s := TiltInsideProbe();
    steps, s := Do(P, START_SYS, steps, s, TiltPushes);
    steps, s := Do(P, START_SYS, steps, s, TiltPushes);
    steps, s := Do(P, START_SYS, steps, s, TiltPushes);
    steps, s := Do(P, START_SYS, steps, s, ProbePushes);
    steps, s := Do(P, START_SYS, steps, s, ProbePushes);
  }

  /** Probe's event need not be the first, and can hide a fault that was reported before it. */
  lemma ProbeEventCanComeLast()
    ensures exists p: Params, steps: seq<Step> ::
              && p.Sensible() && Reachable(p, 0, 0, steps)
              && var s := After(p, 0, 0, steps);
              && NoPush(s) && s.dev.state == StructuralFault
              && |s.out.pushed| == 2 && s.out.pushed[0].reason == TILT_REASON && s.out.pushed[1].state == RunningOk
  {
    var steps, s := ProbeOvertaken();
    assert P.Sensible() && Reachable(P, 0, 0, steps) && After(P, 0, 0, steps) == s;
  }
}
