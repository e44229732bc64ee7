/** Accounting for ultrasonic measurements, in every interleaving of triggers, edges and fusion snapshots. */
module Echo {
  import opened ConveyorTypes
  import opened FusionFilter
  import opened DriverSections
  import opened DriverSystem
  import opened Refinement

  function FreshRuns(inputs: seq<Input>): nat {
    if inputs == [] then 0
    else FreshRuns(inputs[..|inputs| - 1]) + if inputs[|inputs| - 1].isFresh then 1 else 0
  }

  /** Each started measurement is completed once, or still awaits an edge. */
  ghost predicate PhaseInv(s: System) {
    && 1 <= s.dev.echoPhase <= 3
    && s.hist.triggers == s.hist.completed + (if s.dev.echoPhase == 3 then 0 else 1)
    && s.hist.valid <= s.hist.completed
    && s.hist.valid == |s.hist.stores| + (if s.works.echo.EchoStore? then 1 else 0)
  }

  ghost predicate RangeInv(s: System) {
    && (s.works.echo.EchoStore? ==> 0 <= s.works.echo.distance <= 689)
    && 0 <= s.dev.distanceCm <= 689
    && (forall i :: 0 <= i < |s.hist.stores| ==> 0 <= s.hist.stores[i] <= 689)
    && s.dev.distanceCm == (if s.hist.stores == [] then 0 else s.hist.stores[|s.hist.stores| - 1])
  }

  /** Which store each fresh run consumed: its own, later than every store any earlier run had seen. */
  ghost predicate ConsumptionOk(inputs: seq<Input>, stores: seq<int>) {
    && (forall i :: 0 <= i < |inputs| ==> inputs[i].stores <= |stores|)
    && (forall i :: 0 <= i < |inputs| && inputs[i].isFresh ==>
          1 <= inputs[i].stores && inputs[i].distance == stores[inputs[i].stores - 1])
    && (forall i, j :: 0 <= i < j < |inputs| && inputs[j].isFresh ==> inputs[i].stores < inputs[j].stores)
  }

  ghost predicate EchoInv(s: System) {
    && PhaseInv(s) && RangeInv(s)
    && ConsumptionOk(s.hist.inputs, s.hist.stores)
    && FreshRuns(s.hist.inputs) + (if s.dev.distanceFresh then 1 else 0) <= |s.hist.stores|
    && (s.dev.distanceFresh ==>
          s.hist.stores != [] && forall i :: 0 <= i < |s.hist.inputs| ==> s.hist.inputs[i].stores < |s.hist.stores|)
  }

  /** One more run, which consumes the newest store if that is fresh. */
  lemma OneMoreInput(inputs: seq<Input>, stores: seq<int>, i: Input)
    requires ConsumptionOk(inputs, stores) && i.stores == |stores|
    requires i.isFresh ==> stores != [] && i.distance == stores[|stores| - 1]
    requires i.isFresh ==> forall k :: 0 <= k < |inputs| ==> inputs[k].stores < |stores|
    ensures ConsumptionOk(inputs + [i], stores)
  {
    var more := inputs + [i];
    forall k | 0 <= k < |more|
      ensures more[k].stores <= |stores|
      ensures more[k].isFresh ==> 1 <= more[k].stores && more[k].distance == stores[more[k].stores - 1]
    {
      assert k < |inputs| ==> more[k] == inputs[k];
    }
    forall j, k | 0 <= j < k < |more| && more[k].isFresh ensures more[j].stores < more[k].stores {
      assert more[j] == inputs[j] && (k < |inputs| ==> more[k] == inputs[k]);
    }
  }

  lemma OneMoreRun(inputs: seq<Input>, i: Input)
    ensures FreshRuns(inputs + [i]) == FreshRuns(inputs) + if i.isFresh then 1 else 0
  {
    assert (inputs + [i])[..|inputs|] == inputs;
  }

  lemma EchoSnapshot(p: Params, s: System, spi: Spi)
    requires EchoInv(s) && s.works.fusion.FusionStarted?
    ensures EchoInv(Next(p, s, FusionSnapshots(spi)).value)
  {
    var t := Next(p, s, FusionSnapshots(spi)).value;
    var i := t.hist.inputs[|s.hist.inputs|];
    OneMoreInput(s.hist.inputs, s.hist.stores, i);
    OneMoreRun(s.hist.inputs, i);
    assert t.hist.inputs == s.hist.inputs + [i] && t.hist.stores == s.hist.stores;
  }

  /** A completed echo measures 0..689 cm, or nothing. */
  lemma EdgeRange(d: Device, edge: int, at: int)
    ensures -1 <= EdgeSection(d, edge, at).1 <= 689
  {
  }

  lemma EchoByEdge(p: Params, s: System, step: Step)
    requires EchoInv(s) && step.EchoEdge? && Next(p, s, step).Some?
    ensures EchoInv(Next(p, s, step).value)
  {
    EdgeRange(s.dev, step.edge, step.at);
  }

  /** A pulse is measured iff it lasts 1 us to just under 40 ms, and its distance is its length in units of 58 us. */
  lemma PulseMeasurement(d: Device, rise: int, fall: int)
    requires d.echoPhase == 1
    ensures var (up, none) := EdgeSection(d, 1, rise);
            var (down, distance) := EdgeSection(up, 0, fall);
            && none == -1 && down.echoPhase == 3
            && (distance >= 0 <==> 1_000 <= fall - rise < 40_000_000)
            && (distance >= 0 ==> 58_000 * distance <= fall - rise < 58_000 * (distance + 1))
  {
  }

  lemma EchoByStore(p: Params, s: System)
    requires EchoInv(s) && s.works.echo.EchoStore?
    ensures EchoInv(Next(p, s, EchoStores).value)
  {
    var t := Next(p, s, EchoStores).value;
    assert t.hist.stores[..|s.hist.stores|] == s.hist.stores;
  }

  lemma EchoByFusion(p: Params, s: System, step: Step)
    requires EchoInv(s) && Next(p, s, step).Some? && ByFusion(step) && !step.FusionSnapshots?
    ensures EchoInv(Next(p, s, step).value)
  {
    var t := Next(p, s, step).value;
    assert t.hist.inputs == s.hist.inputs && t.hist.stores == s.hist.stores;
    assert t.dev.distanceCm == s.dev.distanceCm && t.dev.distanceFresh == s.dev.distanceFresh;
  }

  lemma EchoByOthers(p: Params, s: System, step: Step)
    requires EchoInv(s) && Next(p, s, step).Some? && !ByFusion(step) && !step.EchoEdge? && !step.EchoStores?
    ensures EchoInv(Next(p, s, step).value)
  {
    var t := Next(p, s, step).value;
    assert t.hist.inputs == s.hist.inputs && t.hist.stores == s.hist.stores;
    assert t.dev.distanceCm == s.dev.distanceCm && t.dev.distanceFresh == s.dev.distanceFresh;
  }

  lemma {:induction false} EchoInvRun(p: Params, s: System, steps: seq<Step>)
    requires EchoInv(s) && Exec(p, s, steps).Some?
    ensures EchoInv(Exec(p, s, steps).value)
    decreases |steps|
  {
    if steps != [] {
      var step := steps[0];
      if step.FusionSnapshots? {
        EchoSnapshot(p, s, step.spi);
      } else if step.EchoEdge? {
        EchoByEdge(p, s, step);
      } else if step.EchoStores? {
        EchoByStore(p, s);
      } else if ByFusion(step) {
        EchoByFusion(p, s, step);
      } else {
        EchoByOthers(p, s, step);
      }
      EchoInvRun(p, Next(p, s, step).value, steps[1..]);
    }
  }

  /** Triggers balance completed echoes, fresh runs never exceed valid echoes, and the fields stay in range. */
  lemma EchoAccounting(p: Params, level: int, now: int, steps: seq<Step>)
    requires Reachable(p, level, now, steps)
    ensures var s := After(p, level, now, steps);
            && s.hist.triggers == s.hist.completed + (if s.dev.echoPhase == 1 || s.dev.echoPhase == 2 then 1 else 0)
            && FreshRuns(s.hist.inputs) + (if s.dev.distanceFresh then 1 else 0) <= s.hist.valid <= s.hist.completed
            && 1 <= s.dev.echoPhase <= 3
            && 0 <= s.dev.distanceCm <= 689
  {
    EchoInvRun(p, Probe(p, level, now), steps);
  }

  /** The last `confirm` runs each consumed a valid echo of their own, in range and drifting within tolerance. */
  ghost predicate EchoEvidence(p: Params, inputs: seq<Input>, stores: seq<int>) {
    var w := |inputs| - p.confirmCount;
    && 0 <= w
    && (forall k :: w <= k < |inputs| ==>
          && 1 <= inputs[k].stores <= |stores| && inputs[k].distance == stores[inputs[k].stores - 1]
          && 0 < inputs[k].distance < p.ultraMaxDistCm)
    && (forall i, j :: w <= i < j < |inputs| ==>
          && inputs[i].stores < inputs[j].stores
          && Gap(inputs[i].distance, inputs[j].distance) <= (j - i) * p.ultraToleranceCm)
  }

  lemma EvidenceFromInputs(p: Params, inputs: seq<Input>, stores: seq<int>)
    requires p.Sensible() && ConsumptionOk(inputs, stores)
    requires BecomesBlocked(p, inputs) && NoLightIn(p, inputs, |inputs| - p.confirmCount)
    ensures EchoEvidence(p, inputs, stores)
  {
    DistanceEvidence(p, inputs);
  }

  /**
   * In every interleaving, a change to BLOCKED that light did not support rests on `blockage_confirm_count`
   * consecutive runs, each with a valid echo of its own, in range and drifting at most the tolerance per run.
   */
  lemma BlockageNeedsEchoes(p: Params, level: int, now: int, steps: seq<Step>)
    requires p.Sensible() && Reachable(p, level, now, steps)
    requires var inputs := Inputs(After(p, level, now, steps));
             BecomesBlocked(p, inputs) && NoLightIn(p, inputs, |inputs| - p.confirmCount)
    ensures EchoEvidence(p, Inputs(After(p, level, now, steps)), After(p, level, now, steps).hist.stores)
  {
    EchoInvRun(p, Probe(p, level, now), steps);
    EvidenceFromInputs(p, Inputs(After(p, level, now, steps)), After(p, level, now, steps).hist.stores);
  }

  // ------------------------------------------------- every run opens a measurement

  /** After every finished fusion run a measurement is open: the run starts one exactly when none was. */
  lemma EveryRunOpensOne(p: Params, level: int, now: int, steps: seq<Step>)
    requires Reachable(p, level, now, steps) && After(p, level, now, steps).works.fusion == FusionTrigger
    ensures var s := After(p, level, now, steps);
            var starts := s.dev.echoPhase == 3;
            Next(p, s, FusionTriggers)
            == Some(s.(dev := s.dev.(echoPhase := if starts then 1 else s.dev.echoPhase),
                       works := s.works.(fusion := FusionIdle),
                       hist := s.hist.(triggers := s.hist.triggers + if starts then 1 else 0)))
            && 1 <= Next(p, s, FusionTriggers).value.dev.echoPhase <= 2
  {
    EchoInvRun(p, Probe(p, level, now), steps);
  }

  /** The same edge of the echo pin again and again. */
  function Edges(edge: int, ats: seq<int>): (steps: seq<Step>)
    ensures |steps| == |ats|
  {
    if ats == [] then [] else [EchoEdge(edge, ats[0])] + Edges(edge, ats[1..])
  }

  /** Edges that the phase does not wait for change nothing at all. */
  lemma {:induction false} StrayEdgesChangeNothing(p: Params, s: System, edge: int, ats: seq<int>)
    requires s.works.echo == EchoIdle
    requires if edge == 0 then s.dev.echoPhase != 2 else s.dev.echoPhase != 1
    ensures Exec(p, s, Edges(edge, ats)) == Some(s)
    decreases |ats|
  {
    if ats != [] {
      assert Next(p, s, EchoEdge(edge, ats[0])) == Some(s);
      assert Edges(edge, ats)[1..] == Edges(edge, ats[1..]);
      StrayEdgesChangeNothing(p, s, edge, ats[1..]);
    }
  }

  lemma StraysThen(p: Params, start: System, before: seq<Step>, s: System, edge: int, ats: seq<int>, step: Step)
    returns (steps: seq<Step>, t: System)
    requires Exec(p, start, before) == Some(s) && s.works.echo == EchoIdle && Next(p, s, step).Some?
    requires if edge == 0 then s.dev.echoPhase != 2 else s.dev.echoPhase != 1
    ensures steps == before + Edges(edge, ats) + [step]
    ensures Exec(p, start, steps) == Some(t) == Next(p, s, step)
  {
    StrayEdgesChangeNothing(p, s, edge, ats);
    ExecConcat(p, start, before, Edges(edge, ats));
    steps, t := Do(p, start, before + Edges(edge, ats), s, step);
  }

  /** What a pulse of this length means: whole units of 58 us, or nothing. */
  ghost predicate Measures(length: int, echo: EchoPc) {
    match echo
    case EchoIdle => !(1_000 <= length < 40_000_000)
    case EchoStore(d) => 1_000 <= length < 40_000_000 && 58_000 * d <= length < 58_000 * (d + 1)
  }

  /** The trigger, stray falls, the rise, stray rises, the fall: the handler holds what the pulse measures. */
  lemma PulseIsHeld(p: Params, s: System, falls: seq<int>, up: int, rise: int, rises: seq<int>, fall: int)
    returns (steps: seq<Step>, t: System)
    requires s.works.fusion == FusionTrigger && s.works.echo == EchoIdle && s.dev.echoPhase == 3 && up != 0
    ensures steps == [FusionTriggers] + Edges(0, falls) + [EchoEdge(up, rise)] + Edges(up, rises) + [EchoEdge(0, fall)]
    ensures Exec(p, s, steps) == Some(t) && t.dev.echoPhase == 3 && Measures(fall - rise, t.works.echo)
    ensures t.dev.distanceCm == s.dev.distanceCm && t.dev.distanceFresh == s.dev.distanceFresh
  {
    steps, t := Do(p, s, [], s, FusionTriggers);
    assert steps == [FusionTriggers];
    steps, t := StraysThen(p, s, steps, t, 0, falls, EchoEdge(up, rise));
    assert t.dev.echoPhase == 2 && t.dev.echoStart == rise;
    steps, t := StraysThen(p, s, steps, t, up, rises, EchoEdge(0, fall));
  }

  /**
   * From trigger to distance: a measurement started by a fusion run stores the whole number of 58 us in the pulse,
   * freshly, if it lasts 1 us to below 40 ms, and nothing otherwise; edges it does not wait for do not disturb it.
   */
  lemma MeasurementStoresPulse(p: Params, s: System, falls: seq<int>, up: int, rise: int, rises: seq<int>, fall: int)
    returns (t: System)
    requires s.works.fusion == FusionTrigger && s.works.echo == EchoIdle && s.dev.echoPhase == 3 && up != 0
    ensures var steps :=
              [FusionTriggers] + Edges(0, falls) + [EchoEdge(up, rise)] + Edges(up, rises) + [EchoEdge(0, fall)];
            if 1_000 <= fall - rise < 40_000_000 then
              && Exec(p, s, steps + [EchoStores]) == Some(t)
              && 58_000 * t.dev.distanceCm <= fall - rise < 58_000 * (t.dev.distanceCm + 1) && t.dev.distanceFresh
            else
              && Exec(p, s, steps) == Some(t) && t.works.echo == EchoIdle
              && t.dev.distanceCm == s.dev.distanceCm && t.dev.distanceFresh == s.dev.distanceFresh
  {
    var steps;
    steps, t := PulseIsHeld(p, s, falls, up, rise, rises, fall);
    if t.works.echo.EchoStore? {
      steps, t := Do(p, s, steps, t, EchoStores);
    }
  }

  // ---------------------------------------------------------- exactly when fresh

  function StoresBefore(inputs: seq<Input>, k: nat): nat
    requires k <= |inputs|
  {
    if k == 0 then 0 else inputs[k - 1].stores
  }

  /** The newest echo stored so far, or zero. */
  function NewestStore(stores: seq<int>): int {
    if stores == [] then 0 else stores[|stores| - 1]
  }

  /** Run k found the newest store, fresh exactly if it is newer than what run k - 1 found. */
  ghost predicate FreshAt(inputs: seq<Input>, stores: seq<int>, k: nat)
    requires k < |inputs|
  {
    && StoresBefore(inputs, k) <= inputs[k].stores <= |stores|
    && (inputs[k].isFresh <==> StoresBefore(inputs, k) < inputs[k].stores)
    && inputs[k].distance == NewestStore(stores[..inputs[k].stores])
  }

  ghost predicate FreshOk(inputs: seq<Input>, stores: seq<int>) {
    && (forall k :: 0 <= k < |inputs| ==> FreshAt(inputs, stores, k))
    && StoresBefore(inputs, |inputs|) <= |stores|
  }

  ghost predicate FreshnessInv(s: System) {
    && FreshOk(s.hist.inputs, s.hist.stores)
    && s.dev.distanceCm == NewestStore(s.hist.stores)
    && (s.dev.distanceFresh <==> StoresBefore(s.hist.inputs, |s.hist.inputs|) < |s.hist.stores|)
  }

  lemma FreshAfterInput(inputs: seq<Input>, stores: seq<int>, i: Input)
    requires FreshOk(inputs, stores) && i.stores == |stores| && i.distance == NewestStore(stores)
    requires i.isFresh <==> StoresBefore(inputs, |inputs|) < |stores|
    ensures FreshOk(inputs + [i], stores)
  {
    var more := inputs + [i];
    assert stores[..|stores|] == stores;
    forall k | 0 <= k < |more| ensures FreshAt(more, stores, k) {
      if k < |inputs| {
        assert FreshAt(inputs, stores, k) && more[k] == inputs[k];
        assert StoresBefore(more, k) == StoresBefore(inputs, k);
      } else {
        assert StoresBefore(more, k) == StoresBefore(inputs, |inputs|);
      }
    }
  }

  lemma FreshAfterStore(inputs: seq<Input>, stores: seq<int>, d: int)
    requires FreshOk(inputs, stores)
    ensures FreshOk(inputs, stores + [d])
  {
    forall k | 0 <= k < |inputs| ensures FreshAt(inputs, stores + [d], k) {
      assert FreshAt(inputs, stores, k);
      assert (stores + [d])[..inputs[k].stores] == stores[..inputs[k].stores];
    }
  }

  lemma FreshnessElsewhere(p: Params, s: System, step: Step)
    requires Next(p, s, step).Some? && !step.FusionSnapshots? && !step.EchoStores?
    ensures var t := Next(p, s, step).value;
            && t.hist.inputs == s.hist.inputs && t.hist.stores == s.hist.stores
            && t.dev.distanceCm == s.dev.distanceCm && t.dev.distanceFresh == s.dev.distanceFresh
  {
  }

  lemma FreshnessKept(p: Params, s: System, step: Step)
    requires FreshnessInv(s) && Next(p, s, step).Some?
    ensures FreshnessInv(Next(p, s, step).value)
  {
    var t := Next(p, s, step).value;
    if step.FusionSnapshots? {
      var i := t.hist.inputs[|s.hist.inputs|];
      FreshAfterInput(s.hist.inputs, s.hist.stores, i);
      assert t.hist.inputs == s.hist.inputs + [i];
    } else if step.EchoStores? {
      FreshAfterStore(s.hist.inputs, s.hist.stores, s.works.echo.distance);
    } else {
      FreshnessElsewhere(p, s, step);
    }
  }

  lemma {:induction false} FreshnessRun(p: Params, s: System, steps: seq<Step>)
    requires FreshnessInv(s) && Exec(p, s, steps).Some?
    ensures FreshnessInv(Exec(p, s, steps).value)
    decreases |steps|
  {
    if steps != [] {
      FreshnessKept(p, s, steps[0]);
      FreshnessRun(p, Next(p, s, steps[0]).value, steps[1..]);
    }
  }

  /** A run finds the distance fresh exactly when an echo was stored since the run before it, and it is the newest. */
  lemma FreshIffStored(p: Params, level: int, now: int, steps: seq<Step>, k: nat)
    requires Reachable(p, level, now, steps) && k < |After(p, level, now, steps).hist.inputs|
    ensures var h := After(p, level, now, steps).hist;
            && StoresBefore(h.inputs, k) <= h.inputs[k].stores <= |h.stores|
            && (h.inputs[k].isFresh <==> StoresBefore(h.inputs, k) < h.inputs[k].stores)
            && h.inputs[k].distance == NewestStore(h.stores[..h.inputs[k].stores])
  {
    FreshnessRun(p, Probe(p, level, now), steps);
    assert FreshAt(After(p, level, now, steps).hist.inputs, After(p, level, now, steps).hist.stores, k);
  }
}
