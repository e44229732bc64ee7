/** What the fields of a pushed event say, in every interleaving of the sections. */
module EventContents {
  import opened ConveyorTypes
  import opened FusionFilter
  import opened DriverSystem
  import opened Refinement
  import opened Echo
  import opened Pushes

  // --------------------------------------------------------- the reason flags

  /** Bits 2 and 3 tell which sensor the last run heard, bit 1 whether its verdict changed `blockage`. */
  ghost predicate FlagsMean(p: Params, inputs: seq<Input>, reason: int)
    requires inputs != []
  {
    var k := |inputs| - 1;
    && 0 <= reason < 16 && !Bit(reason, 0)
    && (Bit(reason, 1) <==>
          FilterRun(p, INITIAL, inputs[..k]).hyst.blockage != FilterRun(p, INITIAL, inputs).hyst.blockage)
    && (Bit(reason, 2) <==> LightSays(p, inputs, k))
    && (Bit(reason, 3) <==> DistanceSays(p, inputs, k))
  }

  ghost predicate FlagsInv(p: Params, s: System) {
    && (s.works.fusion.FusionDecided? ==>
          && Inputs(s) != []
          && (s.works.fusion.verdict.lightBlocked <==> LightSays(p, Inputs(s), |Inputs(s)| - 1))
          && (s.works.fusion.verdict.distanceStable <==> DistanceSays(p, Inputs(s), |Inputs(s)| - 1)))
    && (Owes(FusionHand(s)) ==> Inputs(s) != [] && FlagsMean(p, Inputs(s), FusionHand(s).value.reason))
    && (Owes(TiltHand(s)) ==> TiltHand(s).value.reason == 1)
    && (Owes(ProbeHand(s)) ==> ProbeHand(s).value.reason == 3)
  }

  lemma FlagsAfterCount(p: Params, s: System)
    requires Tracks(p, s) && s.works.fusion.FusionSnapped?
    ensures FlagsInv(p, s) ==> FlagsInv(p, Next(p, s, FusionCounts).value)
  {
    RunSaysIff(p, Inputs(s), |Inputs(s)| - 1);
  }

  lemma FlagsAfterCommit(p: Params, s: System)
    requires Tracks(p, s) && FlagsInv(p, s) && s.works.fusion.FusionDecided?
    ensures FlagsInv(p, Next(p, s, FusionCommits).value)
  {
  }

  lemma FlagsAfterOthers(p: Params, s: System, step: Step)
    requires FlagsInv(p, s) && Next(p, s, step).Some? && !step.FusionCounts? && !step.FusionCommits?
    ensures FlagsInv(p, Next(p, s, step).value)
  {
    var t := Next(p, s, step).value;
    assert step.FusionSnapshots? ==> t.works.fusion.FusionSnapped?;
    assert !step.FusionSnapshots? ==> Inputs(t) == Inputs(s);
  }

  lemma {:induction false} FlagsRun(p: Params, s: System, steps: seq<Step>)
    requires Tracks(p, s) && FlagsInv(p, s) && Exec(p, s, steps).Some?
    ensures FlagsInv(p, Exec(p, s, steps).value)
    decreases |steps|
  {
    if steps != [] {
      TracksKept(p, s, steps[0]);
      if steps[0].FusionCounts? {
        FlagsAfterCount(p, s);
      } else if steps[0].FusionCommits? {
        FlagsAfterCommit(p, s);
      } else {
        FlagsAfterOthers(p, s, steps[0]);
      }
      FlagsRun(p, Next(p, s, steps[0]).value, steps[1..]);
    }
  }

  // ------------------------------------------------------- the other fields

  /** The reason belongs to a push that is owed at this moment, and means what it should. */
  ghost predicate Explains(p: Params, s: System, reason: int) {
    || (FusionHand(s) == Some(PushOwed(reason)) && Inputs(s) != [] && FlagsMean(p, Inputs(s), reason))
    || (TiltHand(s) == Some(PushOwed(1)) && reason == 1)
    || (ProbeHand(s) == Some(PushOwed(3)) && reason == 3)
  }

  /** The event shows this moment: clock, fields, the newest echo, and the light of all samples so far. */
  ghost predicate Shows(p: Params, s: System, e: Event) {
    && e.tsNs == s.now % U64 && s.dev.Matches(e)
    && e.distanceCm == NewestStore(s.hist.stores)
    && e.lightValue == LightLevel(Inputs(s))
    && Explains(p, s, e.reason)
  }

  lemma FieldsTellHistory(p: Params, level: int, now: int, steps: seq<Step>)
    requires Reachable(p, level, now, steps)
    ensures var s := After(p, level, now, steps);
            && s.dev.distanceCm == NewestStore(s.hist.stores)
            && s.dev.filter.light.value == LightLevel(Inputs(s))
            && FlagsInv(p, s)
  {
    var s := After(p, level, now, steps);
    TracksRun(p, Probe(p, level, now), steps);
    FlagsRun(p, Probe(p, level, now), steps);
    EchoInvRun(p, Probe(p, level, now), steps);
    LightComponent(p, INITIAL, Inputs(s));
  }

  function EventIn(hand: Option<PushPc>): Option<Event> {
    if Mid(hand) then Some(hand.value.ev) else None
  }

  predicate InHand(s: System, e: Event) {
    EventIn(FusionHand(s)) == Some(e) || EventIn(TiltHand(s)) == Some(e) || EventIn(ProbeHand(s)) == Some(e)
  }

  /** The event was snapshotted at this moment. */
  predicate Snapshots(s: System, step: Step, e: Event) {
    Owes(Pushed(s, step)) && e == s.dev.Snap(s.now, Pushed(s, step).value.reason)
  }

  lemma WhereEventsComeFrom(p: Params, s: System, step: Step, e: Event)
    requires Next(p, s, step).Some?
    requires InHand(Next(p, s, step).value, e) || e in Next(p, s, step).value.out.pushed
    ensures InHand(s, e) || e in s.out.pushed || Snapshots(s, step, e)
  {
  }

  ghost predicate Witnessed(p: Params, level: int, now: int, steps: seq<Step>, e: Event) {
    exists j :: 0 <= j <= |steps| && Reachable(p, level, now, steps[..j])
                && Shows(p, After(p, level, now, steps[..j]), e)
  }

  lemma WitnessedLater(p: Params, level: int, now: int, steps: seq<Step>, step: Step, e: Event)
    requires Witnessed(p, level, now, steps, e)
    ensures Witnessed(p, level, now, steps + [step], e)
  {
    var j :| 0 <= j <= |steps| && Reachable(p, level, now, steps[..j])
             && Shows(p, After(p, level, now, steps[..j]), e);
    assert (steps + [step])[..j] == steps[..j];
  }

  lemma SnapshotWitnessed(p: Params, level: int, now: int, steps: seq<Step>, step: Step, e: Event)
    requires Reachable(p, level, now, steps) && Snapshots(After(p, level, now, steps), step, e)
    ensures Witnessed(p, level, now, steps + [step], e)
  {
    FieldsTellHistory(p, level, now, steps);
    assert (steps + [step])[..|steps|] == steps;
    assert Shows(p, After(p, level, now, steps), e);
  }

  /**
   * Every event in the log, or on its way into it, shows some moment of the run so far: its time stamp, state,
   * tilt and blockage, the newest echo, the smoothed light of all samples, and why it was pushed.
   */
  lemma {:induction false} EveryEventShowsAMoment(p: Params, level: int, now: int, steps: seq<Step>, e: Event)
    requires Reachable(p, level, now, steps)
    requires InHand(After(p, level, now, steps), e) || e in After(p, level, now, steps).out.pushed
    ensures Witnessed(p, level, now, steps, e)
    decreases |steps|
  {
    if steps != [] {
      var init, step := steps[..|steps| - 1], steps[|steps| - 1];
      assert steps == init + [step];
      ExecSnoc(p, Probe(p, level, now), init, step);
      var s := After(p, level, now, init);
      WhereEventsComeFrom(p, s, step, e);
      if Snapshots(s, step, e) {
        SnapshotWitnessed(p, level, now, init, step, e);
      } else {
        EveryEventShowsAMoment(p, level, now, init, e);
        WitnessedLater(p, level, now, init, step, e);
      }
    }
  }
}
