/** What the event stream and the LED show, when `push_event` takes its sections one at a time. */
module Pushes {
  import opened ConveyorTypes
  import opened DriverSections
  import opened DriverSystem

  /** The push that each caller of `push_event` is in front of or inside, if any. */
  function FusionHand(s: System): Option<PushPc> {
    if s.works.fusion.FusionPush? then Some(s.works.fusion.push) else None
  }

  function TiltHand(s: System): Option<PushPc> {
    if s.works.tilt.TiltPush? then Some(s.works.tilt.push) else None
  }

  function ProbeHand(s: System): Option<PushPc> {
    if s.works.probe.ProbePush? then Some(s.works.probe.push) else None
  }

  predicate Owes(hand: Option<PushPc>) { hand.Some? && hand.value.PushOwed? }
  predicate Mid(hand: Option<PushPc>) { hand.Some? && !hand.value.PushOwed? }
  predicate Snapped(hand: Option<PushPc>) { hand.Some? && hand.value.PushSnapped? }
  predicate Queued(hand: Option<PushPc>) { hand.Some? && hand.value.PushQueued? }

  predicate NoPush(s: System) { FusionHand(s).None? && TiltHand(s).None? && ProbeHand(s).None? }

  predicate AnyOwes(s: System) { Owes(FusionHand(s)) || Owes(TiltHand(s)) || Owes(ProbeHand(s)) }

  predicate AnySnapped(s: System) { Snapped(FusionHand(s)) || Snapped(TiltHand(s)) || Snapped(ProbeHand(s)) }

  predicate AnyQueued(s: System) { Queued(FusionHand(s)) || Queued(TiltHand(s)) || Queued(ProbeHand(s)) }

  /** Some push in hand has its event still to enqueue. */
  predicate StillEnqueues(s: System) { AnyOwes(s) || AnySnapped(s) }

  function Last(events: seq<Event>): Event
    requires events != []
  {
    events[|events| - 1]
  }

  predicate NewestRight(s: System) { s.out.pushed != [] && s.dev.Matches(Last(s.out.pushed)) }

  predicate LedRight(s: System) { s.out.led == (s.dev.state == CriticalFault) }

  /** The newest event carries the current triple, and the LED shows a critical fault. */
  predicate Right(s: System) { NewestRight(s) && LedRight(s) }

  predicate IsPush(step: Step) { step.FusionPushes? || step.TiltPushes? || step.ProbePushes? }

  /** The push that the step takes one section further. */
  function Pushed(s: System, step: Step): Option<PushPc> {
    match step
    case FusionPushes => FusionHand(s)
    case TiltPushes => TiltHand(s)
    case ProbePushes => ProbeHand(s)
    case _ => None
  }

  // ------------------------------------------------ exactly when a run ends right

  /** Whether the newest event, and the LED, were written from a snapshot that was still current then. */
  datatype Fresh = Fresh(event: bool, led: bool)

  /** What the step writes, if it writes: the event of a snapshot just enqueued, or the LED. */
  function Written(s: System, step: Step, f: Fresh): Fresh {
    match Pushed(s, step)
    case Some(PushSnapped(ev)) => f.(event := s.dev.Matches(ev))
    case Some(PushQueued(ev)) => f.(led := (ev.state == CriticalFault) == (s.dev.state == CriticalFault))
    case _ => f
  }

  /** The freshness of the last enqueue and of the last LED write of a run. */
  function LastWrites(p: Params, s: System, steps: seq<Step>, f: Fresh): Fresh
    decreases |steps|
  {
    if steps == [] || Next(p, s, steps[0]).None? then f
    else LastWrites(p, Next(p, s, steps[0]).value, steps[1..], Written(s, steps[0], f))
  }

  ghost predicate FreshInv(s: System, f: Fresh) {
    && (!StillEnqueues(s) ==> (f.event <==> NewestRight(s)))
    && (NoPush(s) ==> (f.led <==> LedRight(s)))
  }

  lemma FreshThroughPush(p: Params, s: System, step: Step, f: Fresh)
    requires FreshInv(s, f) && Next(p, s, step).Some? && IsPush(step)
    ensures FreshInv(Next(p, s, step).value, Written(s, step, f))
  {
  }

  lemma FreshThroughOthers(p: Params, s: System, step: Step, f: Fresh)
    requires FreshInv(s, f) && Next(p, s, step).Some? && !IsPush(step)
    ensures FreshInv(Next(p, s, step).value, f)
  {
  }

  lemma {:induction false} FreshRun(p: Params, s: System, steps: seq<Step>, f: Fresh)
    requires FreshInv(s, f) && Exec(p, s, steps).Some?
    ensures FreshInv(Exec(p, s, steps).value, LastWrites(p, s, steps, f))
    decreases |steps|
  {
    if steps != [] {
      if IsPush(steps[0]) {
        FreshThroughPush(p, s, steps[0], f);
      } else {
        FreshThroughOthers(p, s, steps[0], f);
      }
      FreshRun(p, Next(p, s, steps[0]).value, steps[1..], Written(s, steps[0], f));
    }
  }

  /**
   * However pushes overlap: a run that ends with no push owed or running ends with the newest event right
   * exactly when its last enqueue, and with the LED right exactly when its last LED write, was made from a
   * snapshot still current at that moment.
   */
  lemma EndsRightIff(p: Params, level: int, now: int, steps: seq<Step>)
    requires Reachable(p, level, now, steps) && NoPush(After(p, level, now, steps))
    ensures var s, f := After(p, level, now, steps), LastWrites(p, Probe(p, level, now), steps, Fresh(false, false));
            && (NewestRight(s) <==> f.event)
            && (LedRight(s) <==> f.led)
  {
    FreshRun(p, Probe(p, level, now), steps, Fresh(false, false));
  }

  // --------------------------------------- exactly when it is bound to come right

  ghost predicate OnlyPushes(steps: seq<Step>) { forall i :: 0 <= i < |steps| ==> IsPush(steps[i]) }

  /** In whatever order the pushes in hand are finished, the newest event and the LED end up right. */
  ghost predicate ComesRight(p: Params, s: System) {
    forall steps: seq<Step> :: OnlyPushes(steps) && Exec(p, s, steps).Some? && NoPush(Exec(p, s, steps).value)
      ==> Right(Exec(p, s, steps).value)
  }

  /** What the push has still to write is what the device shows now. */
  predicate Harmless(d: Device, hand: Option<PushPc>) {
    match hand
    case Some(PushSnapped(ev)) => d.Matches(ev)
    case Some(PushQueued(ev)) => (ev.state == CriticalFault) == (d.state == CriticalFault)
    case _ => true
  }

  /** All pushes in hand are harmless, and what no push will write any more is right already. */
  predicate BoundRight(s: System) {
    && Harmless(s.dev, FusionHand(s)) && Harmless(s.dev, TiltHand(s)) && Harmless(s.dev, ProbeHand(s))
    && (!StillEnqueues(s) ==> NewestRight(s))
    && (NoPush(s) ==> LedRight(s))
  }

  /** A change from one device to the other falsifies what the push has still to write. */
  predicate Upsets(before: Device, after: Device, hand: Option<PushPc>) {
    match hand
    case Some(PushSnapped(_)) =>
      before.state != after.state || before.tilt != after.tilt || before.Blockage() != after.Blockage()
    case Some(PushQueued(_)) => (before.state == CriticalFault) != (after.state == CriticalFault)
    case _ => false
  }

  /** The step commits a change that falsifies the snapshot in another caller's hand. */
  predicate Overtakes(p: Params, s: System, step: Step) {
    match step
    case FusionCommits =>
      s.works.fusion.FusionDecided?
      && var after := CommitSection(s.dev, s.works.fusion.verdict).0;
      Upsets(s.dev, after, TiltHand(s)) || Upsets(s.dev, after, ProbeHand(s))
    case TiltCommits =>
      s.works.tilt.TiltRead?
      && var after := TiltSection(s.dev, p.JudgeTilt(s.works.tilt.level)).0;
      Upsets(s.dev, after, FusionHand(s)) || Upsets(s.dev, after, ProbeHand(s))
    case _ => false
  }

  lemma BoundAfterPush(p: Params, s: System, step: Step)
    requires BoundRight(s) && Next(p, s, step).Some? && IsPush(step)
    ensures BoundRight(Next(p, s, step).value)
  {
  }

  lemma BoundAfterFusion(p: Params, s: System, step: Step)
    requires BoundRight(s) && Next(p, s, step).Some? && ByFusion(step) && !IsPush(step)
    ensures BoundRight(Next(p, s, step).value) <==> !Overtakes(p, s, step)
  {
  }

  lemma BoundAfterTilt(p: Params, s: System, step: Step)
    requires BoundRight(s) && Next(p, s, step).Some? && ByTilt(step) && !IsPush(step)
    ensures BoundRight(Next(p, s, step).value) <==> !Overtakes(p, s, step)
  {
  }

  lemma BoundAfterOthers(p: Params, s: System, step: Step)
    requires BoundRight(s) && Next(p, s, step).Some? && !ByFusion(step) && !ByTilt(step) && !IsPush(step)
    ensures BoundRight(Next(p, s, step).value)
  {
  }

  /** The one step that spoils it, in either direction. */
  lemma BoundAfterStepIff(p: Params, s: System, step: Step)
    requires BoundRight(s) && Next(p, s, step).Some?
    ensures BoundRight(Next(p, s, step).value) <==> !Overtakes(p, s, step)
  {
    if IsPush(step) {
      BoundAfterPush(p, s, step);
    } else if ByFusion(step) {
      BoundAfterFusion(p, s, step);
    } else if ByTilt(step) {
      BoundAfterTilt(p, s, step);
    } else {
      BoundAfterOthers(p, s, step);
    }
  }

  lemma {:induction false} BoundComesRight(p: Params, s: System, steps: seq<Step>)
    requires BoundRight(s)
    requires OnlyPushes(steps) && Exec(p, s, steps).Some? && NoPush(Exec(p, s, steps).value)
    ensures Right(Exec(p, s, steps).value)
    decreases |steps|
  {
    if steps != [] {
      assert IsPush(steps[0]);
      BoundAfterPush(p, s, steps[0]);
      BoundComesRight(p, Next(p, s, steps[0]).value, steps[1..]);
    }
  }

  /** The output once a push has run to its end. */
  function Drained(s: System, hand: Option<PushPc>): Output {
    match hand
    case None => s.out
    case Some(PushQueued(ev)) => s.out.(led := ev.state == CriticalFault)
    case Some(PushSnapped(ev)) => Output(ev.state == CriticalFault, s.out.pushed + [ev])
    case Some(PushOwed(reason)) =>
      var ev := s.dev.Snap(s.now, reason);
      Output(ev.state == CriticalFault, s.out.pushed + [ev])
  }

  lemma FusionDrains(p: Params, start: System, before: seq<Step>, s: System) returns (steps: seq<Step>, t: System)
    requires Exec(p, start, before) == Some(s) && OnlyPushes(before)
    ensures Exec(p, start, steps) == Some(t) && OnlyPushes(steps)
    ensures FusionHand(t) == None && TiltHand(t) == TiltHand(s) && ProbeHand(t) == ProbeHand(s)
    ensures t.dev == s.dev && t.now == s.now && t.out == Drained(s, FusionHand(s))
  {
    steps, t := before, s;
    if Owes(FusionHand(t)) {
      steps, t := Do(p, start, steps, t, FusionPushes);
    }
    if Snapped(FusionHand(t)) {
      steps, t := Do(p, start, steps, t, FusionPushes);
    }
    if Queued(FusionHand(t)) {
      steps, t := Do(p, start, steps, t, FusionPushes);
    }
  }

  lemma TiltDrains(p: Params, start: System, before: seq<Step>, s: System) returns (steps: seq<Step>, t: System)
    requires Exec(p, start, before) == Some(s) && OnlyPushes(before)
    ensures Exec(p, start, steps) == Some(t) && OnlyPushes(steps)
    ensures TiltHand(t) == None && FusionHand(t) == FusionHand(s) && ProbeHand(t) == ProbeHand(s)
    ensures t.dev == s.dev && t.now == s.now && t.out == Drained(s, TiltHand(s))
  {
    steps, t := before, s;
    if Owes(TiltHand(t)) {
      steps, t := Do(p, start, steps, t, TiltPushes);
    }
    if Snapped(TiltHand(t)) {
      steps, t := Do(p, start, steps, t, TiltPushes);
    }
    if Queued(TiltHand(t)) {
      steps, t := Do(p, start, steps, t, TiltPushes);
    }
  }

  lemma ProbeDrains(p: Params, start: System, before: seq<Step>, s: System) returns (steps: seq<Step>, t: System)
    requires Exec(p, start, before) == Some(s) && OnlyPushes(before)
    ensures Exec(p, start, steps) == Some(t) && OnlyPushes(steps)
    ensures ProbeHand(t) == None && FusionHand(t) == FusionHand(s) && TiltHand(t) == TiltHand(s)
    ensures t.dev == s.dev && t.now == s.now && t.out == Drained(s, ProbeHand(s))
  {
    steps, t := before, s;
    if Owes(ProbeHand(t)) {
      steps, t := Do(p, start, steps, t, ProbePushes);
    }
    if Snapped(ProbeHand(t)) {
      steps, t := Do(p, start, steps, t, ProbePushes);
    }
    if Queued(ProbeHand(t)) {
      steps, t := Do(p, start, steps, t, ProbePushes);
    }
  }

  /** Otherwise some order goes wrong: one that finishes a harmful push last. */
  lemma CanEndWrong(p: Params, s: System) returns (steps: seq<Step>, t: System)
    requires !BoundRight(s)
    ensures OnlyPushes(steps) && Exec(p, s, steps) == Some(t) && NoPush(t) && !Right(t)
  {
    steps, t := [], s;
    if !Harmless(s.dev, FusionHand(s)) {
      steps, t := TiltDrains(p, s, steps, t);
      steps, t := ProbeDrains(p, s, steps, t);
      steps, t := FusionDrains(p, s, steps, t);
    } else if !Harmless(s.dev, TiltHand(s)) {
      steps, t := FusionDrains(p, s, steps, t);
      steps, t := ProbeDrains(p, s, steps, t);
      steps, t := TiltDrains(p, s, steps, t);
    } else {
      steps, t := FusionDrains(p, s, steps, t);
      steps, t := TiltDrains(p, s, steps, t);
      steps, t := ProbeDrains(p, s, steps, t);
    }
  }

  /**
   * In every state: the newest event and the LED come right in whatever order the pushes in hand are
   * finished, exactly when each push in hand is harmless and what none of them writes is right already.
   */
  lemma ComesRightIff(p: Params, s: System)
    ensures ComesRight(p, s) <==> BoundRight(s)
  {
    if BoundRight(s) {
      forall steps: seq<Step> | OnlyPushes(steps) && Exec(p, s, steps).Some? && NoPush(Exec(p, s, steps).value)
        ensures Right(Exec(p, s, steps).value)
      {
        BoundComesRight(p, s, steps);
      }
    } else {
      var steps, t := CanEndWrong(p, s);
      assert Exec(p, s, steps).value == t;
    }
  }

  ghost predicate AlwaysComesRight(p: Params, s: System, steps: seq<Step>)
    decreases |steps|
  {
    && ComesRight(p, s)
    && (steps != [] && Next(p, s, steps[0]).Some? ==> AlwaysComesRight(p, Next(p, s, steps[0]).value, steps[1..]))
  }

  predicate NeverOvertakes(p: Params, s: System, steps: seq<Step>)
    decreases |steps|
  {
    steps != [] ==>
      && !Overtakes(p, s, steps[0])
      && (Next(p, s, steps[0]).Some? ==> NeverOvertakes(p, Next(p, s, steps[0]).value, steps[1..]))
  }

  lemma {:induction false} AlwaysComesRightFrom(p: Params, s: System, steps: seq<Step>)
    requires BoundRight(s) && Exec(p, s, steps).Some?
    ensures AlwaysComesRight(p, s, steps) <==> NeverOvertakes(p, s, steps)
    ensures NeverOvertakes(p, s, steps) ==> BoundRight(Exec(p, s, steps).value)
    decreases |steps|
  {
    ComesRightIff(p, s);
    if steps != [] {
      var t := Next(p, s, steps[0]).value;
      BoundAfterStepIff(p, s, steps[0]);
      if Overtakes(p, s, steps[0]) {
        ComesRightIff(p, t);
      } else {
        AlwaysComesRightFrom(p, t, steps[1..]);
      }
    }
  }

  /**
   * Over whole runs: at every moment the newest event and the LED are bound to come right, exactly when no
   * commit of the run falsifies a snapshot in another caller's hand; and then they are right whenever no
   * push is owed or running.
   */
  lemma AlwaysComesRightIff(p: Params, level: int, now: int, steps: seq<Step>)
    requires Reachable(p, level, now, steps)
    ensures AlwaysComesRight(p, Probe(p, level, now), steps) <==> NeverOvertakes(p, Probe(p, level, now), steps)
    ensures NeverOvertakes(p, Probe(p, level, now), steps) && NoPush(After(p, level, now, steps)) ==>
              Right(After(p, level, now, steps))
  {
    AlwaysComesRightFrom(p, Probe(p, level, now), steps);
  }

  // ------------------------------------------------ pushes that do not overlap

  /** The step does not begin a push while another caller is in the middle of one. */
  predicate Serialises(s: System, step: Step) {
    Owes(Pushed(s, step)) ==> !Mid(FusionHand(s)) && !Mid(TiltHand(s)) && !Mid(ProbeHand(s))
  }

  ghost predicate NonOverlapping(p: Params, s: System, steps: seq<Step>)
    decreases |steps|
  {
    steps != [] ==>
      && Serialises(s, steps[0])
      && (Next(p, s, steps[0]).Some? ==> NonOverlapping(p, Next(p, s, steps[0]).value, steps[1..]))
  }

  /** What a push in hand knows of the latest snapshot. */
  predicate HandOk(s: System, hand: Option<PushPc>) {
    && (Snapped(hand) ==> hand.value.ev == s.hist.lastSnap)
    && (Queued(hand) ==> s.out.pushed != [] && hand.value.ev == Last(s.out.pushed))
  }

  ghost predicate PushInv(s: System) {
    && (!AnyOwes(s) ==> s.dev.Matches(s.hist.lastSnap))
    && !(Mid(FusionHand(s)) && Mid(TiltHand(s)))
    && !(Mid(FusionHand(s)) && Mid(ProbeHand(s)))
    && !(Mid(TiltHand(s)) && Mid(ProbeHand(s)))
    && HandOk(s, FusionHand(s)) && HandOk(s, TiltHand(s)) && HandOk(s, ProbeHand(s))
    && (!AnySnapped(s) ==> if s.out.pushed == [] then Owes(ProbeHand(s)) else Last(s.out.pushed) == s.hist.lastSnap)
    && (!AnyQueued(s) && s.out.pushed != [] ==> s.out.led == (Last(s.out.pushed).state == CriticalFault))
  }

  lemma PushInvByPush(p: Params, s: System, step: Step)
    requires PushInv(s) && Serialises(s, step) && Next(p, s, step).Some? && IsPush(step)
    ensures PushInv(Next(p, s, step).value)
  {
  }

  lemma PushInvByFusion(p: Params, s: System, step: Step)
    requires PushInv(s) && Next(p, s, step).Some? && ByFusion(step) && !IsPush(step)
    ensures PushInv(Next(p, s, step).value)
  {
  }

  lemma PushInvByTilt(p: Params, s: System, step: Step)
    requires PushInv(s) && Next(p, s, step).Some? && ByTilt(step) && !IsPush(step)
    ensures PushInv(Next(p, s, step).value)
  {
  }

  lemma PushInvByOthers(p: Params, s: System, step: Step)
    requires PushInv(s) && Next(p, s, step).Some? && !ByFusion(step) && !ByTilt(step) && !IsPush(step)
    ensures PushInv(Next(p, s, step).value)
  {
    var t := Next(p, s, step).value;
    assert FusionHand(t) == FusionHand(s) && TiltHand(t) == TiltHand(s) && ProbeHand(t) == ProbeHand(s);
    assert t.out == s.out && t.hist.lastSnap == s.hist.lastSnap;
    assert t.dev.tilt == s.dev.tilt && t.dev.state == s.dev.state && t.dev.Blockage() == s.dev.Blockage();
  }

  lemma {:induction false} PushInvKept(p: Params, s: System, steps: seq<Step>)
    requires PushInv(s) && Exec(p, s, steps).Some? && NonOverlapping(p, s, steps)
    ensures PushInv(Exec(p, s, steps).value)
    decreases |steps|
  {
    if steps != [] {
      if IsPush(steps[0]) {
        PushInvByPush(p, s, steps[0]);
      } else if ByFusion(steps[0]) {
        PushInvByFusion(p, s, steps[0]);
      } else if ByTilt(steps[0]) {
        PushInvByTilt(p, s, steps[0]);
      } else {
        PushInvByOthers(p, s, steps[0]);
      }
      PushInvKept(p, Next(p, s, steps[0]).value, steps[1..]);
    }
  }

  /**
   * If no push begins inside another, then whenever none is owed or running the newest event carries
   * the current state, tilt and blockage, and the LED is on exactly for a critical fault.
   */
  lemma LastEventAndLed(p: Params, level: int, now: int, steps: seq<Step>)
    requires Reachable(p, level, now, steps) && NonOverlapping(p, Probe(p, level, now), steps)
    ensures NoPush(After(p, level, now, steps)) ==> Right(After(p, level, now, steps))
  {
    PushInvKept(p, Probe(p, level, now), steps);
  }
}
