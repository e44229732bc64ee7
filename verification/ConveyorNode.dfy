/** `struct conveyor_node_dev` and the functions that update it in place. */
module ConveyorNodeDevice {
  import opened ConveyorTypes
  import opened LightFilter
  import opened StreakFilter
  import opened FusionFilter
  import opened DriverSections
  import opened EventRing
  import opened EventLog
  import opened EventLine
  import opened PushedEvents
  import opened Echo

  const EAGAIN := 11
  const EFAULT := 14
  const EINVAL := 22
  const ERESTARTSYS := 512

  class ConveyorNode {
    const p: Params
    var tilt: Tilt
    var blockage: Blockage
    var state: ConvState
    var distanceCm: int
    var prevDistanceCm: int
    var distanceFresh: bool
    var lightValue: int
    var lightEma: int
    var blockStreak: nat
    var clearStreak: nat
    var echoPhase: int
    var echoStart: int
    var led: bool
    var fusionPending: bool // fusion_work is scheduled
    const queue: EventQueue
    ghost var log: seq<Event> // every event pushed so far

    ghost predicate AllFit(events: seq<Event>) {
      forall i :: 0 <= i < |events| ==> events[i].Fits()
    }

    ghost function View(): Device
      reads this
    {
      var hyst := Hysteresis(Streak(blockStreak, clearStreak), blockage);
      Device(tilt, state, Filter(Light(lightEma, lightValue), hyst, prevDistanceCm),
             distanceCm, distanceFresh, echoPhase, echoStart)
    }

    /** The ring is well formed, and every field and queued event fits its C type. */
    ghost predicate Valid()
      reads this, queue, queue.q
    {
      && queue.Valid()
      && DeviceTight(View())
      && AllFit(queue.Contents())
    }

    ghost function Node(): EventLog.Node
      reads this
    {
      EventLog.Node(View(), log, led)
    }

    /** The state `conveyor_probe` sets up, with its initial event. */
    constructor (p: Params, level: int, now: int)
      ensures Valid() && fresh(queue) && fresh(queue.q) && this.p == p
      ensures Node() == ProbeNode(p, level, now)
      ensures queue.Contents() == log && !fusionPending
    {
      this.p := p;
      tilt := p.JudgeTilt(level);
      blockage := Clear;
      state := EvaluateState(p.JudgeTilt(level), Clear);
      distanceCm, prevDistanceCm, distanceFresh := 0, 0, false;
      lightValue, lightEma := 0, 0;
      blockStreak, clearStreak := 0, 0;
      echoPhase, echoStart := 3, 0;
      led, log, fusionPending := false, [], false;
      queue := new EventQueue(Event(0, RunningOk, Level, Clear, 0, 0, 0));
      new;
      PushEvent(ReasonWord(true, true, false, false), now);
    }

    /** The reason flags are a C `u32`. */
    method PushEvent(reason: int, now: int)
      requires Valid() && 0 <= reason < U32
      modifies this`led, this`log, queue, queue.q
      ensures Valid()
      ensures Node() == EventLog.PushEvent(old(Node()), reason, now)
      ensures |log| == |old(log)| + 1 && log[|log| - 1] == Event(now % U64, state, tilt, blockage,
                                                                 distanceCm, lightValue, reason)
      ensures queue.Contents() == DropOldest(old(queue.Contents()), log[|log| - 1])
    {
      var ev := Event(now % U64, state, tilt, blockage, distanceCm, lightValue, reason);
      queue.Push(ev);
      log := log + [ev];
      led := ev.state == CriticalFault;
    }

    /** Reports whether anything changed; if so the new event is the only one pushed. */
    method SetFusedState(newState: ConvState, newBlockage: Blockage, lightBlocked: bool, distanceStable: bool, now: int)
      requires Valid()
      modifies this`blockage, this`state, this`led, this`log, queue, queue.q
      ensures Valid()
      ensures var verdict := Verdict(newState, newBlockage, lightBlocked, distanceStable);
              Node() == EventLog.SetFusedState(old(Node()), verdict, now)
      ensures |log| == |old(log)| ==> queue.Contents() == old(queue.Contents())
      ensures |log| > |old(log)| ==> queue.Contents() == DropOldest(old(queue.Contents()), log[|log| - 1])
    {
      var changed, blockageChanged := false, false;
      if blockage != newBlockage {
        blockage := newBlockage;
        blockageChanged := true;
        changed := true;
      }
      if state != newState {
        state := newState;
        changed := true;
      }
      if changed {
        PushEvent(ReasonWord(false, blockageChanged, lightBlocked, distanceStable), now);
      }
    }

    method TriggerUltrasonic()
      requires Valid()
      modifies this`echoPhase
      ensures Valid()
      ensures Node() == EventLog.Trigger(old(Node()))
      ensures echoPhase == if old(echoPhase) in {0, 3} then 1 else old(echoPhase)
    {
      if echoPhase != 0 && echoPhase != 3 {
        return;
      }
      echoPhase := 1;
    }

    /** First section: the locals, the consumed freshness and the smoothed light. */
    method TakeSnapshot(adc: int) returns (seen: Tilt, distance: int, prev: int, isFresh: bool, light: int)
      requires Valid() && adc <= 4095
      modifies this`distanceFresh, this`lightEma, this`lightValue
      ensures Valid()
      ensures (View(), Locals(seen, distance, prev, isFresh, light)) == SnapshotSection(old(View()), adc)
    {
      SectionTight(View(), adc);
      seen, distance, prev, isFresh, light := tilt, distanceCm, prevDistanceCm, distanceFresh, adc;
      distanceFresh := false;
      if adc >= 0 {
        if lightEma == 0 {
          lightEma := 8 * adc;
        } else {
          lightEma := lightEma - lightEma / 8 + adc;
        }
        lightValue := lightEma / 8;
        light := lightValue;
      }
    }

    /** Second section: the streaks and the verdict they reach. */
    method CountStreaks(distance: int, raw: bool) returns (newBlockage: Blockage)
      modifies this`prevDistanceCm, this`blockStreak, this`clearStreak
      ensures prevDistanceCm == distance
      ensures Streak(blockStreak, clearStreak) == Count(Streak(old(blockStreak), old(clearStreak)), raw)
      ensures newBlockage == Judge(p.confirmCount, p.clearCount, Streak(blockStreak, clearStreak), blockage)
    {
      prevDistanceCm := distance;
      if raw {
        blockStreak := (blockStreak + 1) % U32;
        clearStreak := 0;
      } else {
        clearStreak := (clearStreak + 1) % U32;
        blockStreak := 0;
      }
      newBlockage := blockage;
      if blockStreak >= p.confirmCount {
        newBlockage := Blocked;
      } else if clearStreak >= p.clearCount {
        newBlockage := Clear;
      }
    }

    /** From the end of the first section to the end of the second. */
    method Decide(seen: Tilt, distance: int, prev: int, isFresh: bool, light: int)
      returns (newState: ConvState, newBlockage: Blockage, lightBlocked: bool, distanceStable: bool)
      requires Valid()
      modifies this`prevDistanceCm, this`blockStreak, this`clearStreak
      ensures Valid()
      ensures (View(), Verdict(newState, newBlockage, lightBlocked, distanceStable))
           == CountSection(p, old(View()), Locals(seen, distance, prev, isFresh, light))
    {
      var diff := distance - prev;
      if diff < 0 {
        diff := -diff;
      }
      distanceStable := isFresh && distance > 0 && distance < p.ultraMaxDistCm && diff <= p.ultraToleranceCm;
      lightBlocked := p.LightIsBlocked(light);
      newBlockage := CountStreaks(distance, distanceStable || lightBlocked);
      newState := EvaluateState(seen, newBlockage);
    }

    /** The first two sections, up to the call of `set_fused_state`. */
    method Sense(spi: Spi)
      returns (newState: ConvState, newBlockage: Blockage, lightBlocked: bool, distanceStable: bool)
      requires Valid()
      modifies this`distanceFresh, this`lightEma, this`lightValue
      modifies this`prevDistanceCm, this`blockStreak, this`clearStreak
      ensures Valid()
      ensures Node() == old(Node()).(dev := EventLog.Sense(p, old(View()), spi).0)
      ensures Verdict(newState, newBlockage, lightBlocked, distanceStable) == EventLog.Sense(p, old(View()), spi).1
    {
      var adc := AdcReadValue(p, spi);
      var seen, distance, prev, isFresh, light := TakeSnapshot(adc);
      newState, newBlockage, lightBlocked, distanceStable := Decide(seen, distance, prev, isFresh, light);
    }

    method FusionWorkFn(spi: Spi, now: int)
      requires Valid()
      modifies this`distanceFresh, this`lightEma, this`lightValue
      modifies this`prevDistanceCm, this`blockStreak, this`clearStreak
      modifies this`blockage, this`state, this`led, this`log, this`echoPhase, queue, queue.q
      ensures Valid()
      ensures Node() == FusionWork(p, old(Node()), spi, now)
      ensures |log| == |old(log)| ==> queue.Contents() == old(queue.Contents())
      ensures |log| > |old(log)| ==> queue.Contents() == DropOldest(old(queue.Contents()), log[|log| - 1])
    {
      ghost var n := Node();
      var newState, newBlockage, lightBlocked, distanceStable := Sense(spi);
      ghost var sensed := Node();
      SetFusedState(newState, newBlockage, lightBlocked, distanceStable, now);
      ghost var fused := Node();
      TriggerUltrasonic();
      ghost var verdict := Verdict(newState, newBlockage, lightBlocked, distanceStable);
      FusionWorkParts(p, n, spi, now, sensed.dev, verdict, fused);
    }

    method TiltEvalWorkFn(level: int, now: int)
      requires Valid()
      modifies this, queue, queue.q
      ensures Valid()
      ensures Node() == TiltWork(p, old(Node()), level, now) && fusionPending
      ensures |log| == |old(log)| ==> queue.Contents() == old(queue.Contents())
      ensures |log| > |old(log)| ==> queue.Contents() == DropOldest(old(queue.Contents()), log[|log| - 1])
    {
      var newTilt := p.JudgeTilt(level);
      var changed := false;
      if tilt != newTilt {
        tilt := newTilt;
        changed := true;
      }
      var newState := EvaluateState(tilt, blockage);
      if changed {
        state := newState;
        PushEvent(TILT_REASON, now);
      }
      fusionPending := true;
    }

    method UltraIrqHandler(value: int, at: int)
      requires Valid()
      modifies this`echoPhase, this`echoStart, this`distanceCm, this`distanceFresh
      ensures Valid()
      ensures Node() == EchoWork(old(Node()), value, at)
    {
      EdgeRange(View(), value, at);
      var newDistance := -1;
      if value != 0 && echoPhase == 1 {
        echoStart := at;
        echoPhase := 2;
      } else if value == 0 && echoPhase == 2 {
        var us := ToMicros(at - echoStart);
        if us > 0 && us < 40000 {
          newDistance := us / 58;
        }
        echoPhase := 3;
      }
      if newDistance >= 0 {
        distanceCm := newDistance;
        distanceFresh := true;
      }
    }

    method RunOne(work: Work)
      requires Valid()
      modifies this, queue, queue.q
      ensures Valid()
      ensures Node() == RunWork(p, old(Node()), work)
      ensures old(queue.Contents() == Newest(log)) ==> queue.Contents() == Newest(log)
    {
      ghost var n := Node();
      match work {
        case FusionRun(spi, at) => FusionWorkFn(spi, at);
        case TiltRun(level, at) => TiltEvalWorkFn(level, at);
        case EchoRun(edge, at) => UltraIrqHandler(edge, at);
      }
      LogGrows(p, n, work);
      NewestGrows(n.log, log);
    }

    /** Any works one after the other; when nobody reads, the ring keeps the newest events of the log. */
    method RunWorks(works: seq<Work>)
      requires Valid()
      modifies this, queue, queue.q
      ensures Valid()
      ensures Node() == Serial(p, old(Node()), works)
      ensures old(queue.Contents() == Newest(log)) ==> queue.Contents() == Newest(log)
    {
      for i := 0 to |works|
        invariant Valid()
        invariant Node() == Serial(p, old(Node()), works[..i])
        invariant old(queue.Contents() == Newest(log)) ==> queue.Contents() == Newest(log)
      {
        RunOne(works[i]);
        assert works[..i + 1][..i] == works[..i];
      }
      assert works[..|works|] == works;
    }

    /** `interrupted`: a signal ended the blocking wait. `copies`: the copy to user space succeeds. */
    method NodeRead(count: nat, nonBlock: bool, interrupted: bool, copies: bool) returns (ret: int, text: string)
      requires Valid()
      modifies queue`tail
      ensures Valid()
      ensures count == 0 ==> ret == 0
      ensures count > 0 && !nonBlock && interrupted ==> ret == -ERESTARTSYS
      ensures count > 0 && (nonBlock || !interrupted) && old(queue.Contents()) == [] ==> ret == -EAGAIN
      ensures count == 0 || (!nonBlock && interrupted) || old(queue.Contents()) == [] ==>
                text == "" && queue.Contents() == old(queue.Contents())
      ensures count > 0 && (nonBlock || !interrupted) && old(queue.Contents()) != [] ==>
                var line := FormatLine(old(queue.Contents()[0]));
                && queue.Contents() == old(queue.Contents())[1..]
                && ret == (if count < |line| then -EINVAL else if !copies then -EFAULT else |line|)
                && text == (if ret >= 0 then line else "")
    {
      text := "";
      if count == 0 {
        return 0, "";
      }
      if nonBlock {
        if queue.Empty() {
          return -EAGAIN, "";
        }
      } else if interrupted {
        return -ERESTARTSYS, "";
      }
      var ev := queue.Pop();
      if ev.None? {
        return -EAGAIN, "";
      }
      LineFits(ev.value);
      var line := Scnprintf(LINE_SIZE, FormatLine(ev.value));
      if count < |line| {
        return -EINVAL, "";
      }
      if !copies {
        return -EFAULT, "";
      }
      return |line|, line;
    }
  }

  /** A probed device after any serial run that nobody read: its log tells the whole story, the ring its newest part. */
  method ProbeAndRun(p: Params, level: int, now: int, works: seq<Work>) returns (nd: ConveyorNode)
    requires p.Sensible()
    ensures fresh(nd) && nd.Valid()
    ensures nd.Node() == Serial(p, ProbeNode(p, level, now), works)
    ensures nd.log != [] && nd.queue.Contents() == Newest(nd.log)
    ensures forall k :: 1 <= k < |nd.log| ==> Follows(nd.log[k - 1], nd.log[k])
    ensures forall k :: 0 <= k < |nd.log| ==> Replay(nd.log, k) == (nd.log[k].tilt, nd.log[k].blockage)
    ensures nd.View().Matches(nd.log[|nd.log| - 1]) && nd.led == (nd.state == CriticalFault)
  {
    nd := new ConveyorNode(p, level, now);
    nd.RunWorks(works);
    EventStreamReplays(p, level, now, works);
  }
}
