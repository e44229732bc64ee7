/** Left alone, the driver always settles: bounded work, and nothing can block it but the debounce clock. */
module Settling {
  import opened ConveyorTypes
  import opened DriverSystem
  import opened Consistency

  /** Steps the driver takes by itself; the rest is the timer, the pins and the clock. */
  predicate Internal(step: Step) {
    ByFusion(step) || ByTilt(step) || step.IrqEnters? || step.IrqArms? || step.EchoStores? || step.ProbePushes?
  }

  function PushWork(push: PushPc): nat {
    match push case PushOwed(_) => 3 case PushSnapped(_) => 2 case PushQueued(_) => 1
  }

  function FusionBudget(pc: FusionPc): nat {
    match pc
    case FusionIdle => 0
    case FusionTrigger => 1
    case FusionPush(push) => 1 + PushWork(push)
    case FusionDecided(_, _) => 5
    case FusionSnapped(_) => 6
    case FusionStarted => 7
  }

  /** A running evaluation still owes a fusion run, worth 8. */
  function TiltBudget(pc: TiltPc): nat {
    match pc
    case TiltIdle => 0
    case TiltOwesFusion => 9
    case TiltPush(push) => 9 + PushWork(push)
    case TiltRead(_) => 13
    case TiltStarted => 14
  }

  /** An upper bound on the steps the driver can still take by itself. */
  function Work(s: System): nat {
    FusionBudget(s.works.fusion) + (if s.works.fusionPending then 8 else 0)
    + TiltBudget(s.works.tilt) + (if s.works.tiltPending then 15 else 0)
    + (if s.pin.irqEntered then 16 else 0) + (if s.pin.edgePending then 17 else 0)
    + (if s.works.echo.EchoStore? then 1 else 0)
    + (if s.works.probe.ProbePush? then PushWork(s.works.probe.push) else 0)
  }

  lemma WorkByFusion(p: Params, s: System, step: Step)
    requires Next(p, s, step).Some? && ByFusion(step)
    ensures Work(Next(p, s, step).value) < Work(s)
  {
  }

  lemma WorkByOthers(p: Params, s: System, step: Step)
    requires Next(p, s, step).Some? && !ByFusion(step)
    ensures Internal(step) ==> Work(Next(p, s, step).value) < Work(s)
    ensures step.Ticks? ==> Work(Next(p, s, step).value) == Work(s)
  {
  }

  function InternalSteps(steps: seq<Step>): nat {
    if steps == [] then 0 else (if Internal(steps[0]) then 1 else 0) + InternalSteps(steps[1..])
  }

  lemma {:induction false} WorkRunsOut(p: Params, s: System, steps: seq<Step>)
    requires Exec(p, s, steps).Some?
    requires forall i :: 0 <= i < |steps| ==> Internal(steps[i]) || steps[i].Ticks?
    ensures Work(Exec(p, s, steps).value) + InternalSteps(steps) <= Work(s)
    decreases |steps|
  {
    if steps != [] {
      if ByFusion(steps[0]) {
        WorkByFusion(p, s, steps[0]);
      } else {
        WorkByOthers(p, s, steps[0]);
      }
      WorkRunsOut(p, Next(p, s, steps[0]).value, steps[1..]);
    }
  }

  function FusionsTurn(s: System): Step {
    match s.works.fusion
    case FusionIdle => FusionStarts
    case FusionStarted => FusionSnapshots(SpiData(0, 0))
    case FusionSnapped(_) => FusionCounts
    case FusionDecided(_, _) => FusionCommits
    case FusionPush(_) => FusionPushes
    case FusionTrigger => FusionTriggers
  }

  /** While work is left, some step of the driver is enabled, if need be once the debounce time has passed. */
  lemma NeverStuck(p: Params, s: System) returns (dt: nat, step: Step)
    requires Work(s) > 0
    ensures Internal(step) && Next(p, Next(p, s, Ticks(dt)).value, step).Some?
  {
    dt := if s.works.deadline > s.now then s.works.deadline - s.now else 0;
    step :=
      if s.works.echo.EchoStore? then EchoStores
      else if s.works.probe.ProbePush? then ProbePushes
      else if s.pin.irqEntered then IrqArms
      else if s.pin.edgePending then IrqEnters
      else match s.works.tilt {
        case TiltStarted => TiltReads
        case TiltRead(_) => TiltCommits
        case TiltPush(_) => TiltPushes
        case TiltOwesFusion => TiltSchedules
        case TiltIdle => if s.works.tiltPending then TiltStarts else FusionsTurn(s)
      };
  }

  /** No step of the driver is enabled, now or after any wait. */
  ghost predicate Exhausted(p: Params, s: System) {
    forall dt: nat, step :: Internal(step) ==> Next(p, Next(p, s, Ticks(dt)).value, step).None?
  }

  lemma ExhaustedHasNoWork(p: Params, s: System)
    requires Exhausted(p, s)
    ensures Work(s) == 0
  {
    if Work(s) > 0 {
      var dt, step := NeverStuck(p, s);
    }
  }

  lemma WorkBounds(s: System)
    ensures Work(s) <= 81
    ensures Work(s) == 0 ==> Quiescent(s) && s.works.probe == ProbeDone
  {
  }

  /**
   * From every reachable state, once the pins and the timer rest, the driver takes at most 81 steps;
   * when it can take no more, `state` belongs to the physical pin level and the blockage.
   */
  lemma SettlesWithin81(p: Params, level: int, now: int, before: seq<Step>, rest: seq<Step>)
    requires Reachable(p, level, now, before + rest)
    requires forall i :: 0 <= i < |rest| ==> Internal(rest[i]) || rest[i].Ticks?
    ensures InternalSteps(rest) <= 81
    ensures var t := After(p, level, now, before + rest);
            InternalSteps(rest) == 81 || Exhausted(p, t)
            ==> Quiescent(t) && t.dev.state == EvaluateState(p.JudgeTilt(t.pin.level), t.dev.Blockage())
  {
    var start, t := Probe(p, level, now), After(p, level, now, before + rest);
    ExecConcat(p, start, before, rest);
    var s := After(p, level, now, before);
    WorkRunsOut(p, s, rest);
    WorkBounds(s);
    WorkBounds(t);
    QuiescentMatchesPin(p, level, now, before + rest);
    if Exhausted(p, t) {
      ExhaustedHasNoWork(p, t);
    }
  }
}
