/** Eventual consistency of `state`, for every interleaving of the critical sections. */
module Consistency {
  import opened ConveyorTypes
  import opened DriverSystem

  /** Some fusion run that has not taken its snapshot yet is certain to come. */
  predicate SnapshotAhead(s: System) {
    s.works.fusionPending || s.works.fusion.FusionStarted? || s.works.tilt.TiltPush? || s.works.tilt.TiltOwesFusion?
  }

  /** A fusion run between snapshot and commit, and the tilt it saw. */
  predicate InFlight(s: System) { s.works.fusion.FusionSnapped? || s.works.fusion.FusionDecided? }

  function SeenTilt(s: System): Tilt
    requires InFlight(s)
  {
    if s.works.fusion.FusionSnapped? then s.works.fusion.loc.tilt else s.works.fusion.tilt
  }

  ghost predicate StateInv(s: System) {
    && (s.works.fusion.FusionDecided? ==>
          s.works.fusion.verdict.state == EvaluateState(s.works.fusion.tilt, s.works.fusion.verdict.blockage))
    && (!s.dev.Consistent() || (InFlight(s) && SeenTilt(s) != s.dev.tilt) ==>
          SnapshotAhead(s) || (InFlight(s) && SeenTilt(s) == s.dev.tilt))
  }

  lemma StateInvKept(p: Params, s: System, step: Step)
    requires StateInv(s) && Next(p, s, step).Some?
    ensures StateInv(Next(p, s, step).value)
  {
  }

  /** An edge not served yet, or an evaluation that has not read the pin yet. */
  predicate EvaluationAhead(s: System) {
    s.pin.edgePending || s.pin.irqEntered || s.works.tiltPending || s.works.tilt.TiltStarted?
  }

  /** The judged pin level reached `tilt`, or an evaluation that will see it is still to come. */
  ghost predicate PinInv(p: Params, s: System) {
    && (s.dev.tilt != p.JudgeTilt(s.pin.level) ==>
          EvaluationAhead(s) || (s.works.tilt.TiltRead? && s.works.tilt.level == s.pin.level))
    && (s.works.tilt.TiltRead? && s.works.tilt.level != s.pin.level ==> EvaluationAhead(s))
  }

  lemma PinInvKept(p: Params, s: System, step: Step)
    requires PinInv(p, s) && Next(p, s, step).Some?
    ensures PinInv(p, Next(p, s, step).value)
  {
  }

  ghost predicate DebounceInv(p: Params, s: System) {
    && s.pin.lastEdge <= s.now
    && (s.works.tiltPending && !s.pin.irqEntered ==> s.pin.lastEdge + p.tiltDebounce <= s.works.deadline)
  }

  lemma DebounceInvKept(p: Params, s: System, step: Step)
    requires DebounceInv(p, s) && Next(p, s, step).Some?
    ensures DebounceInv(p, Next(p, s, step).value)
  {
  }

  ghost predicate Inv(p: Params, s: System) {
    StateInv(s) && PinInv(p, s) && DebounceInv(p, s)
  }

  lemma {:induction false} InvKept(p: Params, s: System, steps: seq<Step>)
    requires Inv(p, s) && Exec(p, s, steps).Some?
    ensures Inv(p, Exec(p, s, steps).value)
    decreases |steps|
  {
    if steps != [] {
      StateInvKept(p, s, steps[0]);
      PinInvKept(p, s, steps[0]);
      DebounceInvKept(p, s, steps[0]);
      InvKept(p, Next(p, s, steps[0]).value, steps[1..]);
    }
  }

  lemma Invariants(p: Params, level: int, now: int, steps: seq<Step>)
    requires Reachable(p, level, now, steps)
    ensures Inv(p, After(p, level, now, steps))
  {
    InvKept(p, Probe(p, level, now), steps);
  }

  // -------------------------------------------------------------- debounce

  lemma {:induction false} DeadlineStands(p: Params, s: System, steps: seq<Step>, due: int)
    requires Exec(p, s, steps).Some? && due <= s.works.deadline && due <= s.now + p.tiltDebounce
    ensures due <= Exec(p, s, steps).value.works.deadline
    decreases |steps|
  {
    if steps != [] {
      DeadlineStands(p, Next(p, s, steps[0]).value, steps[1..], due);
    }
  }

  /**
   * Whatever happens in between, no evaluation starts before the debounce delay has passed since each
   * earlier edge whose handler is finished, whether another handler is open or not.
   */
  lemma DebounceHolds(p: Params, level: int, now: int, served: seq<Step>, later: seq<Step>)
    requires Reachable(p, level, now, served) && Next(p, After(p, level, now, served), IrqArms).Some?
    requires Reachable(p, level, now, served + [IrqArms] + later)
    requires Next(p, After(p, level, now, served + [IrqArms] + later), TiltStarts).Some?
    ensures var s, t := After(p, level, now, served), After(p, level, now, served + [IrqArms] + later);
            s.pin.lastEdge <= s.now && s.now + p.tiltDebounce <= t.now
  {
    var start, s := Probe(p, level, now), After(p, level, now, served);
    Invariants(p, level, now, served);
    ExecSnoc(p, start, served, IrqArms);
    ExecConcat(p, start, served + [IrqArms], later);
    DeadlineStands(p, Next(p, s, IrqArms).value, later, s.now + p.tiltDebounce);
  }

  /** The run can go on with an evaluation, before the debounce delay has passed since the latest edge was stamped. */
  predicate CanStartEarly(p: Params, level: int, now: int, steps: seq<Step>)
    requires Reachable(p, level, now, steps)
  {
    var s := After(p, level, now, steps);
    Next(p, s, TiltStarts).Some? && s.now < s.pin.lastEdge + p.tiltDebounce
  }

  /** That happens only between the handler's time stamp and its arming of the work. */
  lemma EarlyOnlyInsideHandler(p: Params, level: int, now: int, steps: seq<Step>)
    requires Reachable(p, level, now, steps) && CanStartEarly(p, level, now, steps)
    ensures After(p, level, now, steps).pin.irqEntered
  {
    Invariants(p, level, now, steps);
  }

  /** A second edge is stamped just when the evaluation armed by the first falls due. */
  lemma DueInsideHandler(p: Params) returns (steps: seq<Step>, s: System)
    ensures Exec(p, Probe(p, 0, 0), steps) == Some(s)
    ensures Next(p, s, TiltStarts).Some? && s.pin.irqEntered && s.pin.lastEdge == s.now
  {
    var start := Probe(p, 0, 0);
    steps, s := [], start;
    steps, s := Do(p, start, steps, s, LevelChanges(1));
    steps, s := Do(p, start, steps, s, IrqEnters);
    steps, s := Do(p, start, steps, s, IrqArms);
    steps, s := Do(p, start, steps, s, LevelChanges(0));
    steps, s := Do(p, start, steps, s, Ticks(p.tiltDebounce));
    steps, s := Do(p, start, steps, s, IrqEnters);
  }

  /** And there it can happen, for every debounce delay but zero. */
  lemma EarlyStartIff(p: Params)
    ensures (exists level, now, steps :: Reachable(p, level, now, steps) && CanStartEarly(p, level, now, steps))
       <==> p.tiltDebounce > 0
  {
    if p.tiltDebounce > 0 {
      var steps, s := DueInsideHandler(p);
      assert Reachable(p, 0, 0, steps) && CanStartEarly(p, 0, 0, steps);
    } else {
      forall level, now, steps | Reachable(p, level, now, steps) ensures !CanStartEarly(p, level, now, steps) {
        Invariants(p, level, now, steps);
      }
    }
  }

  // ------------------------------------------------------- main results

  /** Both works idle and none pending: `state` belongs to the current tilt and blockage. */
  lemma ConsistentWhenIdle(p: Params, level: int, now: int, steps: seq<Step>)
    requires Reachable(p, level, now, steps)
    ensures var s := After(p, level, now, steps);
            s.works.fusion.FusionIdle? && s.works.tilt.TiltIdle? && !s.works.fusionPending ==> s.dev.Consistent()
  {
    Invariants(p, level, now, steps);
  }

  /** Full quiescence: `state` belongs to the physical pin level and the blockage. */
  lemma QuiescentMatchesPin(p: Params, level: int, now: int, steps: seq<Step>)
    requires Reachable(p, level, now, steps)
    ensures var s := After(p, level, now, steps);
            Quiescent(s) ==>
              && (s.dev.tilt == Tilted <==> s.pin.level == p.tiltActiveLevel)
              && s.dev.state == match (s.pin.level == p.tiltActiveLevel, s.dev.Blockage())
                                case (false, Clear) => RunningOk
                                case (false, Blocked) => BlockageAlert
                                case (true, Clear) => StructuralFault
                                case (true, Blocked) => CriticalFault
  {
    Invariants(p, level, now, steps);
  }

  /** Fusion commits a verdict on a tilt that an evaluation has replaced since the snapshot. */
  predicate OutdatedCommit(s: System, step: Step) {
    step.FusionCommits? && s.works.fusion.FusionDecided? && s.works.fusion.tilt != s.dev.tilt
  }

  /** The evaluation commits a new tilt. */
  predicate TiltChange(p: Params, s: System, step: Step) {
    step.TiltCommits? && s.works.tilt.TiltRead? && p.JudgeTilt(s.works.tilt.level) != s.dev.tilt
  }

  lemma StepConsistency(p: Params, s: System, step: Step)
    requires StateInv(s) && Next(p, s, step).Some?
    ensures Next(p, s, step).value.dev.Consistent() <==>
              !OutdatedCommit(s, step) && (step.FusionCommits? || TiltChange(p, s, step) || s.dev.Consistent())
  {
    if !ByFusion(step) && !ByTilt(step) {
      assert Next(p, s, step).value.dev.Consistent() <==> s.dev.Consistent();
    }
  }

  /**
   * What every single step does to `state`: a commit leaves it right exactly when it saw the current tilt, a
   * tilt change always makes it right, and no other step changes whether it is right.
   */
  lemma ConsistentAfterStepIff(p: Params, level: int, now: int, steps: seq<Step>, step: Step)
    requires Reachable(p, level, now, steps) && Next(p, After(p, level, now, steps), step).Some?
    ensures Reachable(p, level, now, steps + [step])
    ensures var s, t := After(p, level, now, steps), After(p, level, now, steps + [step]);
            && (step.FusionCommits? ==> (t.dev.Consistent() <==> s.works.fusion.tilt == s.dev.tilt))
            && (!step.FusionCommits? ==> (t.dev.Consistent() <==> TiltChange(p, s, step) || s.dev.Consistent()))
            && (s.dev.Consistent() ==> (t.dev.Consistent() <==> !OutdatedCommit(s, step)))
  {
    ExecSnoc(p, Probe(p, level, now), steps, step);
    Invariants(p, level, now, steps);
    StepConsistency(p, After(p, level, now, steps), step);
  }

  predicate AlwaysConsistent(p: Params, s: System, steps: seq<Step>)
    decreases |steps|
  {
    && s.dev.Consistent()
    && (steps != [] && Next(p, s, steps[0]).Some? ==> AlwaysConsistent(p, Next(p, s, steps[0]).value, steps[1..]))
  }

  predicate NoOutdatedCommit(p: Params, s: System, steps: seq<Step>)
    decreases |steps|
  {
    steps != [] ==>
      && !OutdatedCommit(s, steps[0])
      && (Next(p, s, steps[0]).Some? ==> NoOutdatedCommit(p, Next(p, s, steps[0]).value, steps[1..]))
  }

  lemma {:induction false} AlwaysConsistentFrom(p: Params, s: System, steps: seq<Step>)
    requires StateInv(s) && s.dev.Consistent() && Exec(p, s, steps).Some?
    ensures AlwaysConsistent(p, s, steps) <==> NoOutdatedCommit(p, s, steps)
    decreases |steps|
  {
    if steps != [] {
      StateInvKept(p, s, steps[0]);
      StepConsistency(p, s, steps[0]);
      if !OutdatedCommit(s, steps[0]) {
        AlwaysConsistentFrom(p, Next(p, s, steps[0]).value, steps[1..]);
      }
    }
  }

  /** `state` is right at every moment of a run exactly when no fusion run commits on an outdated tilt. */
  lemma AlwaysConsistentIff(p: Params, level: int, now: int, steps: seq<Step>)
    requires Reachable(p, level, now, steps)
    ensures AlwaysConsistent(p, Probe(p, level, now), steps) <==> NoOutdatedCommit(p, Probe(p, level, now), steps)
  {
    AlwaysConsistentFrom(p, Probe(p, level, now), steps);
  }

  /** A commit repairs an inconsistent state exactly when it saw the current tilt, and then always owes an event. */
  lemma RepairIsNeverSuppressed(p: Params, level: int, now: int, steps: seq<Step>)
    requires Reachable(p, level, now, steps) && Reachable(p, level, now, steps + [FusionCommits])
    ensures var s, t := After(p, level, now, steps), After(p, level, now, steps + [FusionCommits]);
            && s.works.fusion.FusionDecided?
            && (s.works.fusion.tilt == s.dev.tilt <==> t.dev.Consistent())
            && (s.works.fusion.tilt == s.dev.tilt && !s.dev.Consistent() ==>
                  t.works.fusion.FusionPush? && t.works.fusion.push.PushOwed?)
  {
    ExecSnoc(p, Probe(p, level, now), steps, FusionCommits);
    ConsistentAfterStepIff(p, level, now, steps, FusionCommits);
  }

  /** The driver after a probe that read the pin as `read` before it requested the interrupt, at `level`. */
  function ProbeAt(p: Params, read: int, level: int, now: int): System {
    var s := Probe(p, read, now);
    s.(pin := s.pin.(level := level))
  }

  ghost predicate AlwaysSettlesOnPin(p: Params, s: System) {
    forall steps: seq<Step> ::
      Exec(p, s, steps).Some? && Quiescent(Exec(p, s, steps).value)
      ==> Exec(p, s, steps).value.dev.tilt == p.JudgeTilt(Exec(p, s, steps).value.pin.level)
  }

  /**
   * A level change between probe's read of the pin and its request of the interrupt is lost: the driver is
   * right about the pin at every quiescent moment exactly when the read was still right at the request.
   */
  lemma PinTrackedIffProbeReadHolds(p: Params, read: int, level: int, now: int)
    ensures AlwaysSettlesOnPin(p, ProbeAt(p, read, level, now)) <==> p.JudgeTilt(read) == p.JudgeTilt(level)
  {
    var s := ProbeAt(p, read, level, now);
    if p.JudgeTilt(read) == p.JudgeTilt(level) {
      forall steps: seq<Step> | Exec(p, s, steps).Some? && Quiescent(Exec(p, s, steps).value)
        ensures Exec(p, s, steps).value.dev.tilt == p.JudgeTilt(Exec(p, s, steps).value.pin.level)
      {
        InvKept(p, s, steps);
      }
    } else {
      assert Exec(p, s, []) == Some(s) && Quiescent(s);
    }
  }

  lemma {:induction false} NoRunYet(p: Params, s: System, steps: seq<Step>)
    requires Exec(p, s, steps).Some? && forall i :: 0 <= i < |steps| ==> !steps[i].TiltSchedules?
    requires s.works.probe.ProbePush? ==> s.works.fusion == FusionIdle && !s.works.fusionPending
    ensures var t := Exec(p, s, steps).value;
            t.works.probe.ProbePush? ==> t.works.fusion == FusionIdle && !t.works.fusionPending
    decreases |steps|
  {
    if steps != [] {
      NoRunYet(p, Next(p, s, steps[0]).value, steps[1..]);
    }
  }

  /** Until probe's own event is out the timer does not run: a fusion run needs an evaluation that requested it. */
  lemma TimerStartsAfterProbe(p: Params, level: int, now: int, steps: seq<Step>)
    requires Reachable(p, level, now, steps) && After(p, level, now, steps).works.probe.ProbePush?
    requires forall i :: 0 <= i < |steps| ==> !steps[i].TiltSchedules?
    ensures After(p, level, now, steps).works.fusion.FusionIdle? && !After(p, level, now, steps).works.fusionPending
  {
    NoRunYet(p, Probe(p, level, now), steps);
  }
}
