/** What one fusion run computes from the samples it consumed: light filter, distance check, hysteresis. */
module FusionFilter {
  import opened ConveyorTypes
  import opened LightFilter
  import opened StreakFilter

  /** What a run consumed: its ADC value, and the distance fields it found. `stores` counts earlier echo stores. */
  datatype Input = Input(adc: int, isFresh: bool, distance: int, stores: nat)

  /** The fields only `fusion_work_fn` writes. */
  datatype Filter = Filter(light: Light, hyst: Hysteresis, prevDistance: int)

  const INITIAL := Filter(Light(0, 0), START, 0)

  /** The local `light_value`: the error code, or the smoothed level. */
  function LocalLight(after: Light, adc: int): int {
    if adc < 0 then adc else after.value
  }

  predicate DistanceStable(p: Params, isFresh: bool, distance: int, prev: int) {
    var diff := if distance - prev < 0 then prev - distance else distance - prev;
    isFresh && distance > 0 && distance < p.ultraMaxDistCm && diff <= p.ultraToleranceCm
  }

  predicate LightBlocked(p: Params, f: Filter, i: Input) {
    p.LightIsBlocked(LocalLight(LightStep(f.light, i.adc), i.adc))
  }

  predicate RawBlocked(p: Params, f: Filter, i: Input) {
    DistanceStable(p, i.isFresh, i.distance, f.prevDistance) || LightBlocked(p, f, i)
  }

  function FilterStep(p: Params, f: Filter, i: Input): Filter {
    Filter(LightStep(f.light, i.adc),
           HystStep(p.confirmCount, p.clearCount, f.hyst, RawBlocked(p, f, i)),
           i.distance)
  }

  function FilterRun(p: Params, f: Filter, inputs: seq<Input>): Filter {
    if inputs == [] then f
    else FilterStep(p, FilterRun(p, f, inputs[..|inputs| - 1]), inputs[|inputs| - 1])
  }

  function Adcs(inputs: seq<Input>): (adcs: seq<int>)
    ensures |adcs| == |inputs|
  {
    seq(|inputs|, i requires 0 <= i < |inputs| => inputs[i].adc)
  }

  /** The raw verdicts of all runs since probe. */
  function Raws(p: Params, inputs: seq<Input>): (raws: seq<bool>)
    ensures |raws| == |inputs|
  {
    if inputs == [] then []
    else
      var init := inputs[..|inputs| - 1];
      Raws(p, init) + [RawBlocked(p, FilterRun(p, INITIAL, init), inputs[|inputs| - 1])]
  }

  lemma {:induction false} LightComponent(p: Params, f: Filter, inputs: seq<Input>)
    ensures FilterRun(p, f, inputs).light == LightRun(f.light, Adcs(inputs))
  {
    if inputs != [] {
      LightComponent(p, f, inputs[..|inputs| - 1]);
      assert Adcs(inputs)[..|inputs| - 1] == Adcs(inputs[..|inputs| - 1]);
    }
  }

  lemma {:induction false} HysteresisComponent(p: Params, inputs: seq<Input>)
    ensures FilterRun(p, INITIAL, inputs).hyst == HystRun(p.confirmCount, p.clearCount, Raws(p, inputs))
  {
    if inputs != [] {
      HysteresisComponent(p, inputs[..|inputs| - 1]);
      assert Raws(p, inputs)[..|inputs| - 1] == Raws(p, inputs[..|inputs| - 1]);
    }
  }

  lemma {:induction false} RawsAt(p: Params, inputs: seq<Input>, k: nat)
    requires k < |inputs|
    ensures Raws(p, inputs)[k] == RawBlocked(p, FilterRun(p, INITIAL, inputs[..k]), inputs[k])
  {
    if k < |inputs| - 1 {
      RawsAt(p, inputs[..|inputs| - 1], k);
      assert inputs[..|inputs| - 1][..k] == inputs[..k];
    }
  }

  // --------------------------------------- what the sensors say, run by run

  function Gap(a: int, b: int): nat {
    if a < b then b - a else a - b
  }

  /** The smoothed light level after some runs. */
  function LightLevel(inputs: seq<Input>): int {
    LightRun(Light(0, 0), Adcs(inputs)).value
  }

  /** The distance the run before saw; probe starts at zero. */
  function DistanceBefore(inputs: seq<Input>, k: nat): int
    requires k <= |inputs|
  {
    if k == 0 then 0 else inputs[k - 1].distance
  }

  /** A fresh distance in range, and within the tolerance of the one the run before saw. */
  ghost predicate DistanceSays(p: Params, inputs: seq<Input>, k: nat)
    requires k < |inputs|
  {
    && inputs[k].isFresh && 0 < inputs[k].distance < p.ultraMaxDistCm
    && Gap(DistanceBefore(inputs, k), inputs[k].distance) <= p.ultraToleranceCm
  }

  /** A read that succeeded, and a smoothed level beyond the threshold. */
  ghost predicate LightSays(p: Params, inputs: seq<Input>, k: nat)
    requires k < |inputs|
  {
    && inputs[k].adc >= 0
    && if p.blockedWhenBelow then LightLevel(inputs[..k + 1]) < p.lightThreshold
       else p.lightThreshold < LightLevel(inputs[..k + 1])
  }

  /** Run by run, whether a sensor says blocked. */
  ghost function Evidence(p: Params, inputs: seq<Input>): (e: seq<bool>)
    ensures |e| == |inputs|
  {
    seq(|inputs|, k requires 0 <= k < |inputs| => DistanceSays(p, inputs, k) || LightSays(p, inputs, k))
  }

  lemma {:induction false} PrevIsPreviousInput(p: Params, inputs: seq<Input>)
    ensures FilterRun(p, INITIAL, inputs).prevDistance == DistanceBefore(inputs, |inputs|)
  {
  }

  lemma RunSaysIff(p: Params, inputs: seq<Input>, k: nat)
    requires k < |inputs|
    ensures var f := FilterRun(p, INITIAL, inputs[..k]);
            && (LightBlocked(p, f, inputs[k]) <==> LightSays(p, inputs, k))
            && (DistanceStable(p, inputs[k].isFresh, inputs[k].distance, f.prevDistance)
                <==> DistanceSays(p, inputs, k))
  {
    var now := inputs[..k + 1];
    assert now[..|now| - 1] == inputs[..k] && now[|now| - 1] == inputs[k];
    assert FilterRun(p, INITIAL, now).light == LightStep(FilterRun(p, INITIAL, inputs[..k]).light, inputs[k].adc);
    LightComponent(p, INITIAL, now);
    NeverNegative(Adcs(now));
    PrevIsPreviousInput(p, inputs[..k]);
  }

  lemma RawsAreEvidence(p: Params, inputs: seq<Input>)
    ensures Raws(p, inputs) == Evidence(p, inputs)
  {
    forall k | 0 <= k < |inputs| ensures Raws(p, inputs)[k] == Evidence(p, inputs)[k] {
      RawsAt(p, inputs, k);
      RunSaysIff(p, inputs, k);
    }
  }

  /** From sensors to verdict: BLOCKED exactly when the latest confirmed window of evidence was a blocked one. */
  lemma BlockedIffEvidence(p: Params, inputs: seq<Input>)
    requires p.Sensible()
    ensures FilterRun(p, INITIAL, inputs).hyst.blockage == Blocked
       <==> LastConfirmedIsBlocked(Evidence(p, inputs), p.confirmCount, p.clearCount)
  {
    HysteresisComponent(p, inputs);
    RawsAreEvidence(p, inputs);
    VerdictIsLastConfirmed(p.confirmCount, p.clearCount, Raws(p, inputs));
  }

  /** From this run on: fresh distances in range, each within the tolerance of the one before it. */
  ghost predicate SteadyFrom(p: Params, inputs: seq<Input>, from: nat) {
    forall k :: from <= k < |inputs| ==>
      && inputs[k].isFresh && 0 < inputs[k].distance < p.ultraMaxDistCm
      && Gap(DistanceBefore(inputs, k), inputs[k].distance) <= p.ultraToleranceCm
  }

  /** Something that stays in front of the sensor for `confirmCount` runs blocks the belt, whatever the light. */
  lemma SteadyDistanceBlocks(p: Params, inputs: seq<Input>, from: nat)
    requires p.Sensible() && SteadyFrom(p, inputs, from) && from + p.confirmCount <= |inputs|
    ensures FilterRun(p, INITIAL, inputs).hyst.blockage == Blocked
  {
    BlockedIffEvidence(p, inputs);
    assert forall k :: from <= k < |inputs| ==> DistanceSays(p, inputs, k);
    assert Confirms(Evidence(p, inputs), |inputs|, true, p.confirmCount);
  }

  /** No distance in range, and every read of the photocell failed. */
  ghost predicate Blind(p: Params, inputs: seq<Input>) {
    forall i :: 0 <= i < |inputs| ==>
      inputs[i].adc < 0 && !(inputs[i].isFresh && 0 < inputs[i].distance < p.ultraMaxDistCm)
  }

  /** Failed reads never count as blocked: `clearCount` of them, with nothing in range, clear the belt. */
  lemma BlindRunsClear(p: Params, before: seq<Input>, blind: seq<Input>)
    requires p.Sensible() && Blind(p, blind) && p.clearCount <= |blind|
    ensures FilterRun(p, INITIAL, before + blind).hyst.blockage == Clear
  {
    var inputs, n := before + blind, |before + blind|;
    BlockedIffEvidence(p, inputs);
    assert forall k :: |before| <= k < n ==> inputs[k] == blind[k - |before|];
    assert forall k :: |before| <= k < n ==> !Evidence(p, inputs)[k];
    assert Confirms(Evidence(p, inputs), n, false, p.clearCount);
    forall m: nat | Confirms(Evidence(p, inputs), m, true, p.confirmCount) ensures m < n {
      assert Evidence(p, inputs)[m - 1];
    }
  }

  // ---------------------------------------------------- detection latency

  /** Holds of every filter state reachable from INITIAL with samples the ADC can produce. */
  ghost predicate Settled(p: Params, f: Filter) {
    && 0 <= f.light.ema <= 32760
    && (f.hyst.blockage == Clear ==> f.hyst.streak.block < p.confirmCount)
    && (f.hyst.blockage == Blocked ==> f.hyst.streak.clear < p.clearCount)
  }

  /** Failed reads and 12-bit samples. */
  ghost predicate Adc12(inputs: seq<Input>) {
    forall i :: 0 <= i < |inputs| ==> inputs[i].adc <= 4095
  }

  lemma {:induction false} ReachableSettled(p: Params, inputs: seq<Input>)
    requires p.Sensible()
    requires Adc12(inputs)
    ensures Settled(p, FilterRun(p, INITIAL, inputs))
  {
    LightComponent(p, INITIAL, inputs);
    NoOverflow(Adcs(inputs), 0);
    if inputs != [] {
      ReachableSettled(p, inputs[..|inputs| - 1]);
    }
  }

  /** Every sample lies on the blocked side of the threshold, by at least the bound x. */
  ghost predicate Dark(p: Params, inputs: seq<Input>, x: int) {
    && 0 <= x <= 4095
    && (forall i :: 0 <= i < |inputs| ==> 0 <= inputs[i].adc <= 4095)
    && (if p.blockedWhenBelow
        then x < p.lightThreshold && forall i :: 0 <= i < |inputs| ==> inputs[i].adc <= x
        else p.lightThreshold < x && forall i :: 0 <= i < |inputs| ==> x <= inputs[i].adc)
  }

  lemma DarkRunIsBlocked(p: Params, f: Filter, inputs: seq<Input>, x: int)
    requires 0 <= f.light.ema <= 32760
    requires 67 <= |inputs| && Dark(p, inputs, x)
    ensures RawBlocked(p, FilterRun(p, f, inputs[..|inputs| - 1]), inputs[|inputs| - 1])
  {
    LightComponent(p, f, inputs);
    var adcs := Adcs(inputs);
    assert forall i :: 0 <= i < |adcs| ==> adcs[i] == inputs[i].adc;
    ReportsBoundAfter67(f.light, adcs, x);
    assert FilterRun(p, f, inputs).light
        == LightStep(FilterRun(p, f, inputs[..|inputs| - 1]).light, inputs[|inputs| - 1].adc);
  }

  lemma {:induction false} SettledKept(p: Params, f: Filter, inputs: seq<Input>)
    requires p.Sensible() && Settled(p, f)
    ensures var h := FilterRun(p, f, inputs).hyst;
            && (h.blockage == Clear ==> h.streak.block < p.confirmCount)
            && (h.blockage == Blocked ==> h.streak.clear < p.clearCount)
  {
    if inputs != [] {
      SettledKept(p, f, inputs[..|inputs| - 1]);
    }
  }

  lemma {:induction false} DarkBlocks(p: Params, f: Filter, inputs: seq<Input>, x: int)
    requires p.Sensible() && Settled(p, f)
    requires 66 <= |inputs| && Dark(p, inputs, x)
    ensures var h := FilterRun(p, f, inputs).hyst;
            h.blockage == Blocked || |inputs| - 66 <= h.streak.block < p.confirmCount
    ensures p.confirmCount <= |inputs| - 66 ==> FilterRun(p, f, inputs).hyst.blockage == Blocked
  {
    if 66 < |inputs| {
      var init := inputs[..|inputs| - 1];
      DarkBlocks(p, f, init, x);
      DarkRunIsBlocked(p, f, inputs, x);
    } else {
      SettledKept(p, f, inputs);
    }
  }

  lemma {:induction false} FilterRunConcat(p: Params, f: Filter, a: seq<Input>, b: seq<Input>)
    ensures FilterRun(p, f, a + b) == FilterRun(p, FilterRun(p, f, a), b)
  {
    if b == [] {
      assert a + b == a;
    } else {
      FilterRunConcat(p, f, a, b[..|b| - 1]);
      assert (a + b)[..|a + b| - 1] == a + b[..|b| - 1];
    }
  }

  /**
   * From any reachable filter state, a belt whose light stays on the blocked side is reported
   * BLOCKED after at most 66 + `blockage_confirm_count` runs, and at every later run while it stays dark.
   */
  lemma DetectionLatency(p: Params, before: seq<Input>, dark: seq<Input>, x: int)
    requires p.Sensible()
    requires Adc12(before)
    requires Dark(p, dark, x) && 66 + p.confirmCount <= |dark|
    ensures FilterRun(p, INITIAL, before + dark).hyst.blockage == Blocked
  {
    ReachableSettled(p, before);
    DarkBlocks(p, FilterRun(p, INITIAL, before), dark, x);
    FilterRunConcat(p, INITIAL, before, dark);
  }

  /** Every sample lies on the clear side of the threshold, by at least the bound x, and no distance is in range. */
  ghost predicate Bright(p: Params, inputs: seq<Input>, x: int) {
    && 0 <= x <= 4095
    && (forall i :: 0 <= i < |inputs| ==> 0 <= inputs[i].adc <= 4095)
    && (forall i :: 0 <= i < |inputs| ==>
          !inputs[i].isFresh || inputs[i].distance <= 0 || p.ultraMaxDistCm <= inputs[i].distance)
    && (if p.blockedWhenBelow
        then p.lightThreshold <= x && forall i :: 0 <= i < |inputs| ==> x <= inputs[i].adc
        else x <= p.lightThreshold && forall i :: 0 <= i < |inputs| ==> inputs[i].adc <= x)
  }

  lemma BrightRunIsClear(p: Params, f: Filter, inputs: seq<Input>, x: int)
    requires 0 <= f.light.ema <= 32760
    requires 67 <= |inputs| && Bright(p, inputs, x)
    ensures !RawBlocked(p, FilterRun(p, f, inputs[..|inputs| - 1]), inputs[|inputs| - 1])
  {
    LightComponent(p, f, inputs);
    var adcs := Adcs(inputs);
    assert forall i :: 0 <= i < |adcs| ==> adcs[i] == inputs[i].adc;
    ReportsBoundAfter67(f.light, adcs, x);
    assert FilterRun(p, f, inputs).light
        == LightStep(FilterRun(p, f, inputs[..|inputs| - 1]).light, inputs[|inputs| - 1].adc);
  }

  lemma {:induction false} BrightClears(p: Params, f: Filter, inputs: seq<Input>, x: int)
    requires p.Sensible() && Settled(p, f)
    requires 66 <= |inputs| && Bright(p, inputs, x)
    ensures var h := FilterRun(p, f, inputs).hyst;
            h.blockage == Clear || |inputs| - 66 <= h.streak.clear < p.clearCount
    ensures p.clearCount <= |inputs| - 66 ==> FilterRun(p, f, inputs).hyst.blockage == Clear
  {
    SettledKept(p, f, inputs);
    if 66 < |inputs| {
      BrightClears(p, f, inputs[..|inputs| - 1], x);
      SettledKept(p, f, inputs[..|inputs| - 1]);
      BrightRunIsClear(p, f, inputs, x);
    }
  }

  /** Likewise a belt that is bright and empty is reported CLEAR after at most 66 + `blockage_clear_count` runs. */
  lemma ClearLatency(p: Params, before: seq<Input>, bright: seq<Input>, x: int)
    requires p.Sensible()
    requires Adc12(before)
    requires Bright(p, bright, x) && 66 + p.clearCount <= |bright|
    ensures FilterRun(p, INITIAL, before + bright).hyst.blockage == Clear
  {
    ReachableSettled(p, before);
    BrightClears(p, FilterRun(p, INITIAL, before), bright, x);
    FilterRunConcat(p, INITIAL, before, bright);
  }

  // ------------------------------------------------- the latencies are exact

  /** Any 12-bit run of n dark samples, after any 12-bit samples, leaves `blockage` BLOCKED. */
  ghost predicate DetectsWithin(p: Params, n: nat) {
    forall before, dark, x ::
      Adc12(before) && Dark(p, dark, x) && n <= |dark| ==> FilterRun(p, INITIAL, before + dark).hyst.blockage == Blocked
  }

  /** Likewise CLEAR after n bright and empty samples. */
  ghost predicate ClearsWithin(p: Params, n: nat) {
    forall before, bright, x ::
      Adc12(before) && Bright(p, bright, x) && n <= |bright| ==>
        FilterRun(p, INITIAL, before + bright).hyst.blockage == Clear
  }

  /** The same light again and again, and never a distance. */
  function Same(adc: int, n: nat): seq<Input> {
    seq(n, _ => Input(adc, false, 0, 0))
  }

  lemma SameStep(p: Params, f: Filter, adc: int, n: nat)
    requires n > 0
    ensures FilterRun(p, f, Same(adc, n)) == FilterStep(p, FilterRun(p, f, Same(adc, n - 1)), Input(adc, false, 0, 0))
  {
    assert Same(adc, n)[..n - 1] == Same(adc, n - 1);
  }

  lemma {:induction false} FullLevel(p: Params, n: nat)
    requires n > 0
    ensures FilterRun(p, INITIAL, Same(4095, n)).light == Light(32760, 4095)
    ensures RawBlocked(p, FilterRun(p, INITIAL, Same(4095, n - 1)), Input(4095, false, 0, 0)) == p.LightIsBlocked(4095)
  {
    SameStep(p, INITIAL, 4095, n);
    if n > 1 {
      FullLevel(p, n - 1);
    }
  }

  lemma OneMoreBlocked(p: Params, h: Hysteresis, n: nat)
    requires p.Sensible() && 0 < n <= p.confirmCount && h == Hysteresis(Streak(n - 1, 0), Clear)
    ensures HystStep(p.confirmCount, p.clearCount, h, true)
         == Hysteresis(Streak(n, 0), if n == p.confirmCount then Blocked else Clear)
  {
    assert (n - 1 + 1) % U32 == n;
  }

  /** Under full light `blockage` is confirmed in time if that light is blocked. */
  lemma {:induction false} FullLight(p: Params, n: nat)
    requires p.Sensible() && n <= p.confirmCount && p.LightIsBlocked(4095)
    ensures FilterRun(p, INITIAL, Same(4095, n)).hyst
         == Hysteresis(Streak(n, 0), if n == p.confirmCount then Blocked else Clear)
  {
    if n > 0 {
      FullLight(p, n - 1);
      FullLevel(p, n);
      SameStep(p, INITIAL, 4095, n);
      OneMoreBlocked(p, FilterRun(p, INITIAL, Same(4095, n - 1)).hyst, n);
    }
  }

  lemma {:induction false} Dimming(p: Params, f: Filter, n: nat)
    requires f.light == Light(32760, 4095)
    ensures var l := FilterRun(p, f, Same(0, n)).light;
            l == Light(Decay(32760, n), Decay(32760, n) / 8)
  {
    if n > 0 {
      Dimming(p, f, n - 1);
      SameStep(p, f, 0, n);
    }
  }

  lemma DarkOnlyAfter66(p: Params, f: Filter, n: nat)
    requires f.light == Light(32760, 4095) && n > 0 && p.blockedWhenBelow && p.lightThreshold == 1
    ensures RawBlocked(p, FilterRun(p, f, Same(0, n - 1)), Input(0, false, 0, 0)) <==> n > 66
  {
    SameStep(p, f, 0, n);
    Dimming(p, f, n);
    LevelInDarkness(n);
  }

  lemma TooFewToConfirm(p: Params, h: Hysteresis, raw: bool, sofar: nat)
    requires p.Sensible() && h.blockage == Clear
    requires raw ==> h.streak.block <= sofar && sofar + 1 < p.confirmCount
    ensures var g := HystStep(p.confirmCount, p.clearCount, h, raw);
            g.blockage == Clear && g.streak.block <= if raw then sofar + 1 else 0
  {
  }

  /** Only full darkness is blocked: not one of the first 66 samples counts. */
  lemma {:induction false} StillClear(p: Params, f: Filter, n: nat)
    requires p.Sensible() && p.blockedWhenBelow && p.lightThreshold == 1
    requires f.light == Light(32760, 4095) && f.hyst.blockage == Clear && f.hyst.streak.block == 0
    requires n < 66 + p.confirmCount
    ensures var h := FilterRun(p, f, Same(0, n)).hyst;
            h.blockage == Clear && h.streak.block <= if n <= 66 then 0 else n - 66
  {
    if n > 0 {
      var before := FilterRun(p, f, Same(0, n - 1));
      StillClear(p, f, n - 1);
      SameStep(p, f, 0, n);
      DarkOnlyAfter66(p, f, n);
      TooFewToConfirm(p, before.hyst, n > 66, if n <= 66 then 0 else n - 67);
    }
  }

  lemma LitUpTo66(p: Params, f: Filter, n: nat)
    requires f.light == Light(32760, 4095) && n > 0 && !p.blockedWhenBelow && p.lightThreshold == 0
    ensures RawBlocked(p, FilterRun(p, f, Same(0, n - 1)), Input(0, false, 0, 0)) <==> n <= 66
  {
    SameStep(p, f, 0, n);
    Dimming(p, f, n);
    LevelInDarkness(n);
  }

  lemma TooFewToClear(p: Params, h: Hysteresis, raw: bool, sofar: nat)
    requires p.Sensible() && h.blockage == Blocked
    requires !raw ==> h.streak.clear <= sofar && sofar + 1 < p.clearCount
    ensures var g := HystStep(p.confirmCount, p.clearCount, h, raw);
            g.blockage == Blocked && g.streak.clear <= if raw then 0 else sofar + 1
  {
  }

  /** Any light is blocked: likewise for clearing. */
  lemma {:induction false} StillBlocked(p: Params, f: Filter, n: nat)
    requires p.Sensible() && !p.blockedWhenBelow && p.lightThreshold == 0
    requires f.light == Light(32760, 4095) && f.hyst.blockage == Blocked && f.hyst.streak.clear == 0
    requires n < 66 + p.clearCount
    ensures var h := FilterRun(p, f, Same(0, n)).hyst;
            h.blockage == Blocked && h.streak.clear <= if n <= 66 then 0 else n - 66
  {
    if n > 0 {
      var before := FilterRun(p, f, Same(0, n - 1));
      StillBlocked(p, f, n - 1);
      SameStep(p, f, 0, n);
      LitUpTo66(p, f, n);
      TooFewToClear(p, before.hyst, n <= 66, if n <= 66 then 0 else n - 67);
    }
  }

  lemma DetectionNeedsThem(p: Params, n: nat)
    requires p.Sensible() && p.blockedWhenBelow && p.lightThreshold == 1 && n < 66 + p.confirmCount
    ensures !DetectsWithin(p, n)
  {
    var before, dark := Same(4095, 1), Same(0, 65 + p.confirmCount);
    FullLevel(p, 1);
    SameStep(p, INITIAL, 4095, 1);
    assert Same(4095, 0) == [];
    StillClear(p, FilterRun(p, INITIAL, before), 65 + p.confirmCount);
    FilterRunConcat(p, INITIAL, before, dark);
    assert Adc12(before) && Dark(p, dark, 0) && n <= |dark|;
  }

  lemma ClearingNeedsThem(p: Params, n: nat)
    requires p.Sensible() && !p.blockedWhenBelow && p.lightThreshold == 0 && n < 66 + p.clearCount
    ensures !ClearsWithin(p, n)
  {
    var before, bright := Same(4095, p.confirmCount), Same(0, 65 + p.clearCount);
    FullLevel(p, p.confirmCount);
    FullLight(p, p.confirmCount);
    StillBlocked(p, FilterRun(p, INITIAL, before), 65 + p.clearCount);
    FilterRunConcat(p, INITIAL, before, bright);
    assert Adc12(before) && Bright(p, bright, 0) && n <= |bright|;
  }

  ghost predicate Counts(p: Params, confirm: nat, clear: nat) {
    p.confirmCount == confirm && p.clearCount == clear
  }

  /** 66 + confirm runs are enough for every threshold, polarity and history, and no smaller number is. */
  lemma DetectionLatencyIff(confirm: nat, clear: nat, n: nat)
    requires 1 <= confirm < U32 && 1 <= clear < U32
    ensures (forall p :: Counts(p, confirm, clear) ==> DetectsWithin(p, n)) <==> 66 + confirm <= n
  {
    if 66 + confirm <= n {
      forall p | Counts(p, confirm, clear) ensures DetectsWithin(p, n) {
        forall before, dark, x | Adc12(before) && Dark(p, dark, x) && n <= |dark|
          ensures FilterRun(p, INITIAL, before + dark).hyst.blockage == Blocked
        {
          DetectionLatency(p, before, dark, x);
        }
      }
    } else {
      var p := Params(1, 0, 0, 0, confirm, clear, 12, 1, true);
      assert Counts(p, confirm, clear);
      DetectionNeedsThem(p, n);
    }
  }

  /** Likewise 66 + clear runs for clearing. */
  lemma ClearLatencyIff(confirm: nat, clear: nat, n: nat)
    requires 1 <= confirm < U32 && 1 <= clear < U32
    ensures (forall p :: Counts(p, confirm, clear) ==> ClearsWithin(p, n)) <==> 66 + clear <= n
  {
    if 66 + clear <= n {
      forall p | Counts(p, confirm, clear) ensures ClearsWithin(p, n) {
        forall before, bright, x | Adc12(before) && Bright(p, bright, x) && n <= |bright|
          ensures FilterRun(p, INITIAL, before + bright).hyst.blockage == Clear
        {
          ClearLatency(p, before, bright, x);
        }
      }
    } else {
      var p := Params(1, 0, 0, 0, confirm, clear, 12, 0, false);
      assert Counts(p, confirm, clear);
      ClearingNeedsThem(p, n);
    }
  }

  // ------------------------------------------- evidence for a blockage

  ghost predicate BecomesBlocked(p: Params, inputs: seq<Input>) {
    && inputs != []
    && FilterRun(p, INITIAL, inputs[..|inputs| - 1]).hyst.blockage == Clear
    && FilterRun(p, INITIAL, inputs).hyst.blockage == Blocked
  }

  ghost predicate NoLightIn(p: Params, inputs: seq<Input>, from: int) {
    forall k :: 0 <= k < |inputs| && from <= k ==> !LightBlocked(p, FilterRun(p, INITIAL, inputs[..k]), inputs[k])
  }

  lemma WindowIsRaw(p: Params, inputs: seq<Input>)
    requires p.Sensible() && BecomesBlocked(p, inputs)
    ensures p.confirmCount <= |inputs|
    ensures forall k :: |inputs| - p.confirmCount <= k < |inputs| ==> Raws(p, inputs)[k]
  {
    var raws := Raws(p, inputs);
    HysteresisComponent(p, inputs);
    HysteresisComponent(p, inputs[..|inputs| - 1]);
    assert raws[..|inputs| - 1] == Raws(p, inputs[..|inputs| - 1]);
    VerdictTurnsIff(p.confirmCount, p.clearCount, raws);
  }

  lemma WindowIsStable(p: Params, inputs: seq<Input>, k: nat)
    requires p.Sensible() && BecomesBlocked(p, inputs)
    requires NoLightIn(p, inputs, |inputs| - p.confirmCount)
    requires |inputs| - p.confirmCount <= k < |inputs|
    ensures inputs[k].isFresh && 0 < inputs[k].distance < p.ultraMaxDistCm
    ensures 0 < k ==> Gap(inputs[k - 1].distance, inputs[k].distance) <= p.ultraToleranceCm
  {
    WindowIsRaw(p, inputs);
    RawsAt(p, inputs, k);
    if 0 < k {
      PrevIsPreviousInput(p, inputs[..k]);
    }
  }

  lemma Widen(n: int, tolerance: int)
    ensures n * tolerance == (n - 1) * tolerance + tolerance
  {
  }

  lemma {:induction false} Drift(inputs: seq<Input>, tolerance: int, w: nat, i: nat, j: nat)
    requires w <= i <= j < |inputs|
    requires forall k :: w < k < |inputs| ==> Gap(inputs[k - 1].distance, inputs[k].distance) <= tolerance
    ensures Gap(inputs[i].distance, inputs[j].distance) <= (j - i) * tolerance
    decreases j
  {
    if i < j {
      Drift(inputs, tolerance, w, i, j - 1);
      Widen(j - i, tolerance);
    }
  }

  /**
   * A change to BLOCKED that light did not support rests on `blockage_confirm_count` consecutive fresh
   * distances, all in range, drifting by at most the tolerance per run.
   */
  lemma DistanceEvidence(p: Params, inputs: seq<Input>)
    requires p.Sensible()
    requires BecomesBlocked(p, inputs)
    requires NoLightIn(p, inputs, |inputs| - p.confirmCount)
    ensures p.confirmCount <= |inputs|
    ensures forall k :: |inputs| - p.confirmCount <= k < |inputs| ==>
              inputs[k].isFresh && 0 < inputs[k].distance < p.ultraMaxDistCm
    ensures forall i, j :: |inputs| - p.confirmCount <= i <= j < |inputs| ==>
              Gap(inputs[i].distance, inputs[j].distance) <= (j - i) * p.ultraToleranceCm
  {
    WindowIsRaw(p, inputs);
    var w := |inputs| - p.confirmCount;
    forall k | w <= k < |inputs|
      ensures inputs[k].isFresh && 0 < inputs[k].distance < p.ultraMaxDistCm
      ensures w < k ==> Gap(inputs[k - 1].distance, inputs[k].distance) <= p.ultraToleranceCm
    {
      WindowIsStable(p, inputs, k);
    }
    forall i, j | w <= i <= j < |inputs|
      ensures Gap(inputs[i].distance, inputs[j].distance) <= (j - i) * p.ultraToleranceCm
    {
      Drift(inputs, p.ultraToleranceCm, w, i, j);
    }
  }
}
