/** Every event that any interleaving pushes fits its C fields, so its printed line reads back in full. */
module PushedEvents {
  import opened ConveyorTypes
  import opened DriverSections
  import opened DriverSystem
  import opened EventLine
  import opened EventParser

  predicate Tight(e: Event) {
    && 0 <= e.tsNs < U64 && 0 <= e.distanceCm <= 689 && 0 <= e.lightValue <= 4095 && 0 <= e.reason < 16
  }

  predicate PushTight(push: PushPc) {
    match push
    case PushOwed(reason) => 0 <= reason < 16
    case PushSnapped(ev) => Tight(ev)
    case PushQueued(ev) => Tight(ev)
  }

  ghost predicate DeviceTight(d: Device) {
    0 <= d.distanceCm <= 689 && 0 <= d.filter.light.ema <= 32760 && 0 <= d.filter.light.value <= 4095
  }

  ghost predicate TightInv(s: System) {
    && DeviceTight(s.dev)
    && (s.works.echo.EchoStore? ==> 0 <= s.works.echo.distance <= 689)
    && (s.works.fusion.FusionPush? ==> PushTight(s.works.fusion.push))
    && (s.works.tilt.TiltPush? ==> PushTight(s.works.tilt.push))
    && (s.works.probe.ProbePush? ==> PushTight(s.works.probe.push))
    && forall i :: 0 <= i < |s.out.pushed| ==> Tight(s.out.pushed[i])
  }

  lemma SnapTight(d: Device, now: int, reason: int)
    requires DeviceTight(d) && 0 <= reason < 16
    ensures Tight(d.Snap(now, reason))
  {
  }

  lemma PushKeepsTight(s: System, push: PushPc)
    requires TightInv(s) && PushTight(push)
    ensures !push.PushQueued? ==> PushTight(PushNext(s, push))
    ensures forall i :: 0 <= i < |PushOutput(s.out, push).pushed| ==> Tight(PushOutput(s.out, push).pushed[i])
  {
    if push.PushOwed? {
      SnapTight(s.dev, s.now, push.reason);
    }
  }

  lemma SectionTight(d: Device, adc: int)
    requires DeviceTight(d) && adc <= 4095
    ensures DeviceTight(SnapshotSection(d, adc).0)
  {
  }

  lemma CommitTight(d: Device, v: Verdict)
    ensures 0 <= CommitSection(d, v).2 < 16
  {
  }

  lemma TightByFusion(p: Params, s: System, step: Step)
    requires TightInv(s) && Next(p, s, step).Some? && ByFusion(step)
    ensures TightInv(Next(p, s, step).value)
  {
    match step
    case FusionSnapshots(spi) => SectionTight(s.dev, AdcReadValue(p, spi));
    case FusionPushes => PushKeepsTight(s, s.works.fusion.push);
    case FusionCommits => CommitTight(s.dev, s.works.fusion.verdict);
    case _ =>
  }

  lemma TightByTilt(p: Params, s: System, step: Step)
    requires TightInv(s) && Next(p, s, step).Some? && ByTilt(step)
    ensures TightInv(Next(p, s, step).value)
  {
    if step.TiltPushes? {
      PushKeepsTight(s, s.works.tilt.push);
    }
  }

  lemma TightByOthers(p: Params, s: System, step: Step)
    requires TightInv(s) && Next(p, s, step).Some? && !ByFusion(step) && !ByTilt(step)
    ensures TightInv(Next(p, s, step).value)
  {
    if step.ProbePushes? {
      PushKeepsTight(s, s.works.probe.push);
    }
  }

  lemma {:induction false} TightRun(p: Params, s: System, steps: seq<Step>)
    requires TightInv(s) && Exec(p, s, steps).Some?
    ensures TightInv(Exec(p, s, steps).value)
    decreases |steps|
  {
    if steps != [] {
      if ByFusion(steps[0]) {
        TightByFusion(p, s, steps[0]);
      } else if ByTilt(steps[0]) {
        TightByTilt(p, s, steps[0]);
      } else {
        TightByOthers(p, s, steps[0]);
      }
      TightRun(p, Next(p, s, steps[0]).value, steps[1..]);
    }
  }

  /** From sensor to dictionary: the daemon recovers each event of every run from the line printed for it. */
  lemma EveryEventReadsBack(p: Params, level: int, now: int, steps: seq<Step>, k: nat, createdAt: real)
    requires Reachable(p, level, now, steps) && k < |After(p, level, now, steps).out.pushed|
    ensures var e := After(p, level, now, steps).out.pushed[k];
            && Tight(e) && e.Fits()
            && WithSource(ParseTokens(Split(Strip(Scnprintf(LINE_SIZE, FormatLine(e)))), map[]), createdAt)
               == Ok(Dictionary(e)["source" := StrV("conveyor_node")]["created_at" := TimeV(createdAt)])
  {
    TightRun(p, Probe(p, level, now), steps);
    LineRoundTrip(After(p, level, now, steps).out.pushed[k], createdAt);
  }
}
