/** The driver's critical sections, each as a function on the fields it reads and writes under its lock. */
module DriverSections {
  import opened ConveyorTypes
  import opened LightFilter
  import opened StreakFilter
  import opened FusionFilter

  /** The shared fields of `struct conveyor_node_dev`; those only fusion writes are grouped in `filter`. */
  datatype Device = Device(tilt: Tilt, state: ConvState, filter: Filter,
                           distanceCm: int, distanceFresh: bool, echoPhase: int, echoStart: int)
  {
    function Blockage(): ConveyorTypes.Blockage { filter.hyst.blockage }

    /** `state` is the one that belongs to the current tilt and blockage. */
    predicate Consistent() { state == EvaluateState(tilt, Blockage()) }

    function Snap(now: int, reason: int): Event {
      Event(now % U64, state, tilt, Blockage(), distanceCm, filter.light.value, reason)
    }

    predicate Matches(e: Event) { e.state == state && e.tilt == tilt && e.blockage == Blockage() }
  }

  /** The fields as `conveyor_probe` leaves them when the tilt pin reads `level`. */
  function ProbeDevice(p: Params, level: int): Device {
    Device(p.JudgeTilt(level), EvaluateState(p.JudgeTilt(level), Clear), INITIAL, 0, false, 3, 0)
  }

  /** The locals of `fusion_work_fn` after its first section. */
  datatype Locals = Locals(tilt: Tilt, distance: int, prev: int, isFresh: bool, light: int)

  function SnapshotSection(d: Device, adc: int): (Device, Locals) {
    var light := LightStep(d.filter.light, adc);
    (d.(distanceFresh := false, filter := d.filter.(light := light)),
     Locals(d.tilt, d.distanceCm, d.filter.prevDistance, d.distanceFresh, LocalLight(light, adc)))
  }

  /** The arguments `fusion_work_fn` hands to `set_fused_state`. */
  datatype Verdict = Verdict(state: ConvState, blockage: Blockage, lightBlocked: bool, distanceStable: bool)

  function CountSection(p: Params, d: Device, loc: Locals): (Device, Verdict) {
    var stable := DistanceStable(p, loc.isFresh, loc.distance, loc.prev);
    var dark := p.LightIsBlocked(loc.light);
    var streak := Count(d.filter.hyst.streak, stable || dark);
    var blockage := Judge(p.confirmCount, p.clearCount, streak, d.Blockage());
    (d.(filter := d.filter.(prevDistance := loc.distance, hyst := d.filter.hyst.(streak := streak))),
     Verdict(EvaluateState(loc.tilt, blockage), blockage, dark, stable))
  }

  /** `set_fused_state`: the new fields, whether anything changed, and the final reason flags. */
  function CommitSection(d: Device, v: Verdict): (Device, bool, int) {
    (d.(state := v.state, filter := d.filter.(hyst := d.filter.hyst.(blockage := v.blockage))),
     d.Blockage() != v.blockage || d.state != v.state,
     ReasonWord(false, d.Blockage() != v.blockage, v.lightBlocked, v.distanceStable))
  }

  function TiltSection(d: Device, tilt: Tilt): (Device, bool) {
    if d.tilt != tilt then (d.(tilt := tilt, state := EvaluateState(tilt, d.Blockage())), true) else (d, false)
  }

  const TILT_REASON := 1

  function TriggerSection(d: Device): (Device, bool) {
    if d.echoPhase != 0 && d.echoPhase != 3 then (d, false) else (d.(echoPhase := 1), true)
  }

  /** `ktime_to_us` truncates toward zero. */
  function ToMicros(ns: int): int {
    if ns < 0 then -(-ns / 1000) else ns / 1000
  }

  /** First section of `ultra_irq_handler`; the result is the distance, or -1. */
  function EdgeSection(d: Device, level: int, at: int): (Device, int) {
    if level != 0 && d.echoPhase == 1 then (d.(echoStart := at, echoPhase := 2), -1)
    else if level == 0 && d.echoPhase == 2 then
      var us := ToMicros(at - d.echoStart);
      (d.(echoPhase := 3), if us > 0 && us < 40000 then us / 58 else -1)
    else (d, -1)
  }

  function StoreSection(d: Device, distance: int): Device {
    d.(distanceCm := distance, distanceFresh := true)
  }
}

/** The driver as interleaved steps, one step per critical section. */
module DriverSystem {
  import opened ConveyorTypes
  import opened FusionFilter
  import opened DriverSections

  /** `push_event`: about to snapshot, about to enqueue, about to write the LED. */
  datatype PushPc = PushOwed(reason: int) | PushSnapped(ev: Event) | PushQueued(ev: Event)

  datatype FusionPc =
    | FusionIdle
    | FusionStarted
    | FusionSnapped(loc: Locals)
    | FusionDecided(tilt: Tilt, verdict: Verdict)
    | FusionPush(push: PushPc)
    | FusionTrigger

  datatype TiltPc =
    | TiltIdle
    | TiltStarted
    | TiltRead(level: int)
    | TiltPush(push: PushPc)
    | TiltOwesFusion

  /** The last part of `conveyor_probe`: its own `push_event`, after the interrupts were requested. */
  datatype ProbePc = ProbePush(push: PushPc) | ProbeDone

  datatype EchoPc = EchoIdle | EchoStore(distance: int)

  /** What happened so far; read by the claims only, never by a step's guard or by a driver field. */
  datatype History = History(inputs: seq<Input>, stores: seq<int>, triggers: nat, completed: nat, valid: nat,
                             lastSnap: Event)

  /** The two work items, the echo interrupt handler, and probe. */
  datatype Works = Works(
    fusion: FusionPc, fusionPending: bool,               // fusion_work: where it runs, and whether it is queued
    tilt: TiltPc, tiltPending: bool, deadline: int,      // tilt_eval_work: armed, not before `deadline`
    echo: EchoPc,
    probe: ProbePc)

  /** The physical tilt pin and its interrupt: raised, and inside its handler; `last_tilt_edge_ns`. */
  datatype Pin = Pin(level: int, edgePending: bool, irqEntered: bool, lastEdge: int)

  /** The LED, and every event ever enqueued. */
  datatype Output = Output(led: bool, pushed: seq<Event>)

  datatype System = System(dev: Device, works: Works, pin: Pin, out: Output, now: int, hist: History)

  datatype Step =
    | FusionStarts | FusionSnapshots(spi: Spi) | FusionCounts | FusionCommits | FusionPushes | FusionTriggers
    | ProbePushes | TimerFires | LevelChanges(level: int) | IrqEnters | IrqArms | Ticks(dt: nat)
    | TiltStarts | TiltReads | TiltCommits | TiltPushes | TiltSchedules
    | EchoEdge(edge: int, at: int) | EchoStores

  predicate ByFusion(step: Step) {
    || step.FusionStarts? || step.FusionSnapshots? || step.FusionCounts?
    || step.FusionCommits? || step.FusionPushes? || step.FusionTriggers?
  }

  predicate ByTilt(step: Step) {
    step.TiltStarts? || step.TiltReads? || step.TiltCommits? || step.TiltPushes? || step.TiltSchedules?
  }

  /** Probe has read the pin and requested the interrupts, and still owes its initial event; the LED is off. */
  function Probe(p: Params, level: int, now: int): System {
    var dev := ProbeDevice(p, level);
    var first := ProbePush(PushOwed(ReasonWord(true, true, false, false)));
    System(dev, Works(FusionIdle, false, TiltIdle, false, now, EchoIdle, first), Pin(level, false, false, now),
           Output(false, []), now, History([], [], 0, 0, 0, dev.Snap(now, 0)))
  }

  /** One step of `push_event`, for any caller: the output after it... */
  function PushOutput(o: Output, push: PushPc): Output {
    match push
    case PushOwed(_) => o
    case PushSnapped(ev) => o.(pushed := o.pushed + [ev])
    case PushQueued(ev) => o.(led := ev.state == CriticalFault)
  }

  /** ...the latest snapshot taken... */
  function PushSnapshot(s: System, push: PushPc): Event {
    if push.PushOwed? then s.dev.Snap(s.now, push.reason) else s.hist.lastSnap
  }

  /** ...and the position; the last step returns to the caller. */
  function PushNext(s: System, push: PushPc): PushPc
    requires !push.PushQueued?
  {
    match push
    case PushOwed(reason) => PushSnapped(s.dev.Snap(s.now, reason))
    case PushSnapped(ev) => PushQueued(ev)
  }

  /** The steps of `fusion_work_fn`. */
  function FusionNext(p: Params, s: System, step: Step): Option<System> {
    match step
    case FusionStarts =>
      if s.works.fusionPending && s.works.fusion.FusionIdle?
      then Some(s.(works := s.works.(fusionPending := false, fusion := FusionStarted)))
      else None
    case FusionSnapshots(spi) =>
      if s.works.fusion.FusionStarted? then
        var adc := AdcReadValue(p, spi);
        var (dev, loc) := SnapshotSection(s.dev, adc);
        var input := Input(adc, loc.isFresh, loc.distance, |s.hist.stores|);
        Some(s.(dev := dev, works := s.works.(fusion := FusionSnapped(loc)),
                hist := s.hist.(inputs := s.hist.inputs + [input])))
      else None
    case FusionCounts =>
      if s.works.fusion.FusionSnapped? then
        var (dev, v) := CountSection(p, s.dev, s.works.fusion.loc);
        Some(s.(dev := dev, works := s.works.(fusion := FusionDecided(s.works.fusion.loc.tilt, v))))
      else None
    case FusionCommits =>
      if s.works.fusion.FusionDecided? then
        var (dev, changed, reason) := CommitSection(s.dev, s.works.fusion.verdict);
        Some(s.(dev := dev, works := s.works.(fusion :=
                  if changed then FusionPush(PushOwed(reason)) else FusionTrigger)))
      else None
    case FusionPushes =>
      if s.works.fusion.FusionPush? then
        var push := s.works.fusion.push;
        Some(s.(works := s.works.(fusion := if push.PushQueued? then FusionTrigger else FusionPush(PushNext(s, push))),
                out := PushOutput(s.out, push), hist := s.hist.(lastSnap := PushSnapshot(s, push))))
      else None
    case FusionTriggers =>
      if s.works.fusion.FusionTrigger? then
        var (dev, fired) := TriggerSection(s.dev);
        Some(s.(dev := dev, works := s.works.(fusion := FusionIdle),
                hist := s.hist.(triggers := s.hist.triggers + if fired then 1 else 0)))
      else None
    case _ => None
  }

  /** The steps of `tilt_eval_work_fn`. */
  function TiltNext(p: Params, s: System, step: Step): Option<System> {
    match step
    case TiltStarts =>
      if s.works.tiltPending && s.works.deadline <= s.now && s.works.tilt.TiltIdle?
      then Some(s.(works := s.works.(tiltPending := false, tilt := TiltStarted)))
      else None
    case TiltReads =>
      if s.works.tilt.TiltStarted? then Some(s.(works := s.works.(tilt := TiltRead(s.pin.level)))) else None
    case TiltCommits =>
      if s.works.tilt.TiltRead? then
        var (dev, changed) := TiltSection(s.dev, p.JudgeTilt(s.works.tilt.level));
        Some(s.(dev := dev, works := s.works.(tilt :=
                  if changed then TiltPush(PushOwed(TILT_REASON)) else TiltOwesFusion)))
      else None
    case TiltPushes =>
      if s.works.tilt.TiltPush? then
        var push := s.works.tilt.push;
        Some(s.(works := s.works.(tilt := if push.PushQueued? then TiltOwesFusion else TiltPush(PushNext(s, push))),
                out := PushOutput(s.out, push), hist := s.hist.(lastSnap := PushSnapshot(s, push))))
      else None
    case TiltSchedules =>
      if s.works.tilt.TiltOwesFusion?
      then Some(s.(works := s.works.(tilt := TiltIdle, fusionPending := true)))
      else None
    case _ => None
  }

  /** Probe's own event, the timer, the clock, the pins and the two interrupt handlers. */
  function WorldNext(p: Params, s: System, step: Step): Option<System> {
    match step
    case ProbePushes =>
      if s.works.probe.ProbePush? then
        var push := s.works.probe.push;
        Some(s.(works := s.works.(probe := if push.PushQueued? then ProbeDone else ProbePush(PushNext(s, push))),
                out := PushOutput(s.out, push), hist := s.hist.(lastSnap := PushSnapshot(s, push))))
      else None
    case TimerFires => // probe starts the timer last
      if s.works.probe.ProbeDone? then Some(s.(works := s.works.(fusionPending := true))) else None
    case LevelChanges(level) =>
      if level != s.pin.level then Some(s.(pin := s.pin.(level := level, edgePending := true))) else None
    case IrqEnters =>
      if s.pin.edgePending && !s.pin.irqEntered
      then Some(s.(pin := s.pin.(edgePending := false, irqEntered := true, lastEdge := s.now)))
      else None
    case IrqArms =>
      if s.pin.irqEntered
      then Some(s.(pin := s.pin.(irqEntered := false),
                   works := s.works.(tiltPending := true, deadline := s.now + p.tiltDebounce)))
      else None
    case Ticks(dt) =>
      Some(s.(now := s.now + dt))
    case EchoEdge(edge, at) =>
      if s.works.echo.EchoIdle? then
        var (dev, distance) := EdgeSection(s.dev, edge, at);
        var done := s.dev.echoPhase == 2 && dev.echoPhase == 3;
        Some(s.(dev := dev,
                works := s.works.(echo := if distance >= 0 then EchoStore(distance) else EchoIdle),
                hist := s.hist.(completed := s.hist.completed + (if done then 1 else 0),
                                valid := s.hist.valid + if distance >= 0 then 1 else 0)))
      else None
    case EchoStores =>
      if s.works.echo.EchoStore? then
        Some(s.(dev := StoreSection(s.dev, s.works.echo.distance), works := s.works.(echo := EchoIdle),
                hist := s.hist.(stores := s.hist.stores + [s.works.echo.distance])))
      else None
    case _ => None
  }

  /** The step relation: None when the step is not enabled. */
  function Next(p: Params, s: System, step: Step): Option<System> {
    if ByFusion(step) then FusionNext(p, s, step)
    else if ByTilt(step) then TiltNext(p, s, step)
    else WorldNext(p, s, step)
  }

  /** The steps in order; None when one of them is not enabled. */
  function Exec(p: Params, s: System, steps: seq<Step>): Option<System>
    decreases |steps|
  {
    if steps == [] then Some(s)
    else
      match Next(p, s, steps[0])
      case None => None
      case Some(t) => Exec(p, t, steps[1..])
  }

  lemma {:induction false} ExecSnoc(p: Params, s: System, steps: seq<Step>, step: Step)
    ensures Exec(p, s, steps + [step]) == match Exec(p, s, steps) case None => None case Some(t) => Next(p, t, step)
    decreases |steps|
  {
    if steps == [] {
      assert (steps + [step])[1..] == [];
      if Next(p, s, step).Some? {
        assert Exec(p, Next(p, s, step).value, []) == Next(p, s, step);
      }
    } else if Next(p, s, steps[0]).Some? {
      assert (steps + [step])[1..] == steps[1..] + [step];
      ExecSnoc(p, Next(p, s, steps[0]).value, steps[1..], step);
    }
  }

  lemma {:induction false} ExecConcat(p: Params, s: System, a: seq<Step>, b: seq<Step>)
    ensures Exec(p, s, a + b) == match Exec(p, s, a) case None => None case Some(t) => Exec(p, t, b)
    decreases |a|
  {
    if a == [] {
      assert a + b == b;
    } else if Next(p, s, a[0]).Some? {
      assert (a + b)[1..] == a[1..] + b;
      ExecConcat(p, Next(p, s, a[0]).value, a[1..], b);
    }
  }

  /** Extends a concrete run by one step. */
  lemma Do(p: Params, start: System, steps: seq<Step>, s: System, step: Step) returns (longer: seq<Step>, t: System)
    requires Exec(p, start, steps) == Some(s) && Next(p, s, step).Some?
    ensures longer == steps + [step] && Some(t) == Next(p, s, step) && Exec(p, start, longer) == Some(t)
  {
    ExecSnoc(p, start, steps, step);
    longer, t := steps + [step], Next(p, s, step).value;
  }

  predicate Reachable(p: Params, level: int, now: int, steps: seq<Step>) {
    Exec(p, Probe(p, level, now), steps).Some?
  }

  function After(p: Params, level: int, now: int, steps: seq<Step>): System
    requires Reachable(p, level, now, steps)
  {
    Exec(p, Probe(p, level, now), steps).value
  }

  /** No work runs or is queued, no interrupt is raised or being served. */
  predicate Quiescent(s: System) {
    && s.works.fusion.FusionIdle? && s.works.tilt.TiltIdle?
    && !s.works.fusionPending && !s.works.tiltPending && !s.pin.edgePending && !s.pin.irqEntered
  }
}
