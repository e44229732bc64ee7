/**
 * However its sections interleave with the rest, fusion computes the sequential filter of the samples it
 * consumed; so the theorems about FilterRun hold of `blockage` in every interleaving.
 */
module Refinement {
  import opened ConveyorTypes
  import opened LightFilter
  import opened StreakFilter
  import opened FusionFilter
  import opened DriverSystem

  function Inputs(s: System): seq<Input> { s.hist.inputs }

  /** The filter after all inputs, and before the newest one. */
  function Full(p: Params, s: System): Filter { FilterRun(p, INITIAL, Inputs(s)) }

  function Prior(p: Params, s: System): Filter
    requires Inputs(s) != []
  {
    FilterRun(p, INITIAL, Inputs(s)[..|Inputs(s)| - 1])
  }

  ghost predicate Tracks(p: Params, s: System) {
    match s.works.fusion
    case FusionSnapped(loc) =>
      && Inputs(s) != []
      && var i, f := Inputs(s)[|Inputs(s)| - 1], Prior(p, s);
      && s.dev.filter == f.(light := LightStep(f.light, i.adc))
      && loc.distance == i.distance && loc.isFresh == i.isFresh && loc.prev == f.prevDistance
      && loc.light == LocalLight(s.dev.filter.light, i.adc)
    case FusionDecided(_, v) =>
      && Inputs(s) != []
      && s.dev.filter == Full(p, s).(hyst := Full(p, s).hyst.(blockage := Prior(p, s).hyst.blockage))
      && v.blockage == Full(p, s).hyst.blockage
    case _ => s.dev.filter == Full(p, s)
  }

  lemma TracksSnapshot(p: Params, s: System, spi: Spi)
    requires Tracks(p, s) && s.works.fusion.FusionStarted?
    ensures Tracks(p, Next(p, s, FusionSnapshots(spi)).value)
  {
    var t := Next(p, s, FusionSnapshots(spi)).value;
    assert Inputs(t)[..|Inputs(t)| - 1] == Inputs(s);
  }

  lemma TracksFusion(p: Params, s: System, step: Step)
    requires Tracks(p, s) && Next(p, s, step).Some? && ByFusion(step) && !step.FusionSnapshots?
    ensures Tracks(p, Next(p, s, step).value)
  {
  }

  lemma TracksOthers(p: Params, s: System, step: Step)
    requires Tracks(p, s) && Next(p, s, step).Some? && !ByFusion(step)
    ensures Tracks(p, Next(p, s, step).value)
  {
    var t := Next(p, s, step).value;
    assert t.dev.filter == s.dev.filter && t.works.fusion == s.works.fusion && t.hist.inputs == s.hist.inputs;
  }

  lemma TracksKept(p: Params, s: System, step: Step)
    requires Tracks(p, s) && Next(p, s, step).Some?
    ensures Tracks(p, Next(p, s, step).value)
  {
    if step.FusionSnapshots? {
      TracksSnapshot(p, s, step.spi);
    } else if ByFusion(step) {
      TracksFusion(p, s, step);
    } else {
      TracksOthers(p, s, step);
    }
  }

  lemma {:induction false} TracksRun(p: Params, s: System, steps: seq<Step>)
    requires Tracks(p, s) && Exec(p, s, steps).Some?
    ensures Tracks(p, Exec(p, s, steps).value)
    decreases |steps|
  {
    if steps != [] {
      TracksKept(p, s, steps[0]);
      TracksRun(p, Next(p, s, steps[0]).value, steps[1..]);
    }
  }

  /** `blockage` is the filter's verdict on everything consumed, except between a run's snapshot and its commit. */
  lemma BlockageIsFiltered(p: Params, level: int, now: int, steps: seq<Step>)
    requires Reachable(p, level, now, steps)
    ensures var s := After(p, level, now, steps);
            if s.works.fusion.FusionSnapped? || s.works.fusion.FusionDecided?
            then Inputs(s) != [] && s.dev.Blockage() == Prior(p, s).hyst.blockage
            else s.dev.filter == Full(p, s)
  {
    TracksRun(p, Probe(p, level, now), steps);
  }

  /** The runs that have sampled but not committed: none or one. */
  function Uncommitted(s: System): nat {
    if s.works.fusion.FusionSnapped? || s.works.fusion.FusionDecided? then 1 else 0
  }

  /** The samples of the committed runs, whose filter has the blockage of the device. */
  lemma CommittedFilter(p: Params, level: int, now: int, steps: seq<Step>)
    requires Reachable(p, level, now, steps)
    ensures var s := After(p, level, now, steps);
            && Uncommitted(s) <= |Inputs(s)|
            && s.dev.Blockage()
               == FilterRun(p, INITIAL, Inputs(s)[..|Inputs(s)| - Uncommitted(s)]).hyst.blockage
  {
    var s := After(p, level, now, steps);
    BlockageIsFiltered(p, level, now, steps);
    assert Inputs(s)[..|Inputs(s)|] == Inputs(s);
  }

  /** At every moment `blockage` is the kind of the latest confirmed window of what the committed runs sensed. */
  lemma BlockageIsLastConfirmed(p: Params, level: int, now: int, steps: seq<Step>)
    requires p.Sensible() && Reachable(p, level, now, steps)
    ensures var s := After(p, level, now, steps);
            && Uncommitted(s) <= |Inputs(s)|
            && var committed := Inputs(s)[..|Inputs(s)| - Uncommitted(s)];
            s.dev.Blockage() == Blocked
            <==> LastConfirmedIsBlocked(Evidence(p, committed), p.confirmCount, p.clearCount)
  {
    var s := After(p, level, now, steps);
    CommittedFilter(p, level, now, steps);
    BlockedIffEvidence(p, Inputs(s)[..|Inputs(s)| - Uncommitted(s)]);
  }

  // --------------------------------------------------- range of the samples

  ghost predicate AdcInv(p: Params, s: System) {
    forall i :: 0 <= i < |Inputs(s)| ==> Inputs(s)[i].adc <= p.AdcLimit()
  }

  lemma InputsGrow(p: Params, s: System, step: Step)
    requires Next(p, s, step).Some?
    ensures var before, after := Inputs(s), Inputs(Next(p, s, step).value);
            || after == before
            || (|after| == |before| + 1 && after[..|before|] == before && after[|before|].adc <= p.AdcLimit())
  {
  }

  lemma {:induction false} AdcInvRun(p: Params, s: System, steps: seq<Step>)
    requires AdcInv(p, s) && Exec(p, s, steps).Some?
    ensures AdcInv(p, Exec(p, s, steps).value)
    decreases |steps|
  {
    if steps != [] {
      var t := Next(p, s, steps[0]).value;
      InputsGrow(p, s, steps[0]);
      AdcInvRun(p, t, steps[1..]);
    }
  }

  /** In every interleaving the light fields stay within the ADC's range (0..4095, or 0..1023 for 10 bits). */
  lemma LightInRange(p: Params, level: int, now: int, steps: seq<Step>)
    requires Reachable(p, level, now, steps)
    ensures var l := After(p, level, now, steps).dev.filter.light;
            0 <= l.ema <= 8 * p.AdcLimit() && 0 <= l.value <= p.AdcLimit()
  {
    var s := After(p, level, now, steps);
    TracksRun(p, Probe(p, level, now), steps);
    AdcInvRun(p, Probe(p, level, now), steps);
    LightComponent(p, INITIAL, Inputs(s));
    Envelope(Adcs(Inputs(s)), 0, p.AdcLimit());
  }

  lemma SubWindow<T>(all: seq<T>, k: nat, end: nat)
    requires k <= end <= |all|
    ensures all[..k] + all[k..end] == all[..end]
    ensures all[k..][..end - k] == all[k..end]
  {
  }

  lemma DarkPart(p: Params, inputs: seq<Input>, n: nat, x: int)
    requires Dark(p, inputs, x) && n <= |inputs|
    ensures Dark(p, inputs[..n], x)
  {
  }

  lemma DarkWindow(p: Params, all: seq<Input>, runs: nat, late: nat, x: int)
    requires p.Sensible() && Adc12(all) && 66 + p.confirmCount + late <= runs <= |all|
    requires Dark(p, all[|all| - runs..], x)
    ensures FilterRun(p, INITIAL, all[..|all| - late]).hyst.blockage == Blocked
  {
    var k, end := |all| - runs, |all| - late;
    SubWindow(all, k, end);
    DarkPart(p, all[k..], end - k, x);
    DetectionLatency(p, all[..k], all[k..end], x);
  }

  lemma BrightPart(p: Params, inputs: seq<Input>, n: nat, x: int)
    requires Bright(p, inputs, x) && n <= |inputs|
    ensures Bright(p, inputs[..n], x)
  {
  }

  lemma BrightWindow(p: Params, all: seq<Input>, runs: nat, late: nat, x: int)
    requires p.Sensible() && Adc12(all) && 66 + p.clearCount + late <= runs <= |all|
    requires Bright(p, all[|all| - runs..], x)
    ensures FilterRun(p, INITIAL, all[..|all| - late]).hyst.blockage == Clear
  {
    var k, end := |all| - runs, |all| - late;
    SubWindow(all, k, end);
    BrightPart(p, all[k..], end - k, x);
    ClearLatency(p, all[..k], all[k..end], x);
  }

  /** At every moment: once 66 + confirm runs in a row sampled a dark belt and committed, `blockage` is BLOCKED. */
  lemma DarkBeltIsReported(p: Params, level: int, now: int, steps: seq<Step>, runs: nat, x: int)
    requires p.Sensible() && Reachable(p, level, now, steps)
    requires var s := After(p, level, now, steps);
             && 66 + p.confirmCount + Uncommitted(s) <= runs <= |Inputs(s)|
             && Dark(p, Inputs(s)[|Inputs(s)| - runs..], x)
    ensures After(p, level, now, steps).dev.Blockage() == Blocked
  {
    var s := After(p, level, now, steps);
    CommittedFilter(p, level, now, steps);
    AdcInvRun(p, Probe(p, level, now), steps);
    DarkWindow(p, Inputs(s), runs, Uncommitted(s), x);
  }

  /** Likewise `blockage` is CLEAR once 66 + clear runs in a row sampled a bright and empty belt and committed. */
  lemma BrightBeltIsCleared(p: Params, level: int, now: int, steps: seq<Step>, runs: nat, x: int)
    requires p.Sensible() && Reachable(p, level, now, steps)
    requires var s := After(p, level, now, steps);
             && 66 + p.clearCount + Uncommitted(s) <= runs <= |Inputs(s)|
             && Bright(p, Inputs(s)[|Inputs(s)| - runs..], x)
    ensures After(p, level, now, steps).dev.Blockage() == Clear
  {
    var s := After(p, level, now, steps);
    CommittedFilter(p, level, now, steps);
    AdcInvRun(p, Probe(p, level, now), steps);
    BrightWindow(p, Inputs(s), runs, Uncommitted(s), x);
  }

  lemma SteadyPart(p: Params, inputs: seq<Input>, from: nat, n: nat)
    requires SteadyFrom(p, inputs, from) && n <= |inputs|
    ensures SteadyFrom(p, inputs[..n], from)
  {
    forall k | from <= k < n ensures DistanceBefore(inputs[..n], k) == DistanceBefore(inputs, k) {
    }
  }

  /** At every moment: once confirm runs in a row saw the same thing in range and committed, `blockage` is BLOCKED. */
  lemma SteadyBeltIsReported(p: Params, level: int, now: int, steps: seq<Step>, runs: nat)
    requires p.Sensible() && Reachable(p, level, now, steps)
    requires var s := After(p, level, now, steps);
             && p.confirmCount + Uncommitted(s) <= runs <= |Inputs(s)|
             && SteadyFrom(p, Inputs(s), |Inputs(s)| - runs)
    ensures After(p, level, now, steps).dev.Blockage() == Blocked
  {
    var s := After(p, level, now, steps);
    var end := |Inputs(s)| - Uncommitted(s);
    CommittedFilter(p, level, now, steps);
    SteadyPart(p, Inputs(s), |Inputs(s)| - runs, end);
    SteadyDistanceBlocks(p, Inputs(s)[..end], |Inputs(s)| - runs);
  }
}
