/** The fixed-point moving average of the photocell: `light_ema` is scaled by 8. */
module LightFilter {
  import opened Powers

  /** One update with a valid sample; an average of zero restarts from the sample. */
  function EmaStep(ema: int, sample: int): int {
    if ema == 0 then 8 * sample else ema - ema / 8 + sample
  }

  datatype Light = Light(ema: int, value: int)

  /** A failed read (negative) leaves the filter alone. */
  function LightStep(l: Light, adc: int): Light {
    if adc < 0 then l
    else
      var ema := EmaStep(l.ema, adc);
      Light(ema, ema / 8)
  }

  function LightRun(l: Light, adcs: seq<int>): Light {
    if adcs == [] then l
    else LightStep(LightRun(l, adcs[..|adcs| - 1]), adcs[|adcs| - 1])
  }

  function EmaConst(ema: int, sample: int, n: nat): int {
    if n == 0 then ema else EmaStep(EmaConst(ema, sample, n - 1), sample)
  }

  // ---------------------------------------------------------------- envelope

  /** Samples inside [lo, hi] keep the average inside, whatever fails and wherever it restarts. */
  lemma {:induction false} Envelope(adcs: seq<int>, lo: int, hi: int)
    requires 0 <= lo <= hi
    requires forall i :: 0 <= i < |adcs| && 0 <= adcs[i] ==> lo <= adcs[i] <= hi
    ensures var l := LightRun(Light(0, 0), adcs);
            if exists i :: 0 <= i < |adcs| && 0 <= adcs[i]
            then 8 * lo <= l.ema <= 8 * hi && lo <= l.value <= hi && l.value == l.ema / 8
            else l == Light(0, 0)
  {
    if adcs != [] {
      var init, last := adcs[..|adcs| - 1], adcs[|adcs| - 1];
      Envelope(init, lo, hi);
      assert adcs == init + [last];
      if last >= 0 {
        assert adcs[|adcs| - 1] >= 0;
      } else if exists i :: 0 <= i < |adcs| && 0 <= adcs[i] {
        var i :| 0 <= i < |adcs| && 0 <= adcs[i];
        assert init[i] == adcs[i];
      }
    }
  }

  lemma {:induction false} NeverNegative(adcs: seq<int>)
    ensures 0 <= LightRun(Light(0, 0), adcs).ema && 0 <= LightRun(Light(0, 0), adcs).value
  {
    if adcs != [] {
      NeverNegative(adcs[..|adcs| - 1]);
    }
  }

  /** With 12-bit samples every intermediate value of the update fits a C `int`. */
  lemma NoOverflow(adcs: seq<int>, adc: int)
    requires forall i :: 0 <= i < |adcs| ==> adcs[i] <= 4095
    requires adc <= 4095
    ensures var l := LightRun(Light(0, 0), adcs);
            0 <= l.ema <= 32760 && 0 <= l.value <= 4095 && 0 <= l.ema - l.ema / 8
            && (0 <= adc ==> 0 <= EmaStep(l.ema, adc) <= 32760)
  {
    Envelope(adcs, 0, 4095);
  }

  // ------------------------------------------------------------- convergence

  lemma MulMono(k: nat, a: int, b: int)
    requires a <= b
    ensures k * a <= k * b
  {
  }

  lemma MulSwap(a: int, b: int, c: int)
    ensures (a * b) * c == b * (a * c)
  {
  }

  lemma Scale(small: nat, big: nat, s: nat, g: nat, a: int, b: int, c: int)
    requires big * a <= small * b && g * b <= s * c
    ensures (big * g) * a <= (small * s) * c
  {
    MulSwap(big, g, a);
    MulMono(g, big * a, small * b);
    MulSwap(g, small, b);
    MulMono(small, g * b, s * c);
    MulSwap(s, small, c);
  }

  lemma PowScale(small: nat, big: nat, n: nat, a: int, b: int, c: int)
    requires big * a <= small * b
    requires Pow(big, n) * b <= Pow(small, n) * c
    ensures Pow(big, n + 1) * a <= Pow(small, n + 1) * c
  {
    Scale(small, big, Pow(small, n), Pow(big, n), a, b, c);
  }

  /** Above the target the distance beyond the dead band shrinks by 7/8 a step and never crosses it. */
  lemma {:induction false} ConvergesFromAbove(ema: int, c: int, n: nat)
    requires 0 <= c && 7 <= ema - 8 * c
    ensures 7 <= EmaConst(ema, c, n) - 8 * c <= ema - 8 * c
    ensures Pow(8, n) * (EmaConst(ema, c, n) - 8 * c - 7) <= Pow(7, n) * (ema - 8 * c - 7)
  {
    if n > 0 {
      ConvergesFromAbove(ema, c, n - 1);
      var e := EmaConst(ema, c, n - 1);
      PowScale(7, 8, n - 1, EmaStep(e, c) - 8 * c - 7, e - 8 * c - 7, ema - 8 * c - 7);
    }
  }

  /** Below the target the distance shrinks by 7/8 a step, or to zero at once by the restart. */
  lemma {:induction false} ConvergesFromBelow(ema: int, c: int, n: nat)
    requires 0 <= ema < 8 * c
    ensures ema <= EmaConst(ema, c, n) <= 8 * c
    ensures Pow(8, n) * (8 * c - EmaConst(ema, c, n)) <= Pow(7, n) * (8 * c - ema)
  {
    if n > 0 {
      ConvergesFromBelow(ema, c, n - 1);
      var e := EmaConst(ema, c, n - 1);
      PowScale(7, 8, n - 1, 8 * c - EmaStep(e, c), 8 * c - e, 8 * c - ema);
    }
  }

  /** Inside the dead band the average does not move. */
  lemma {:induction false} DeadBandFixed(ema: int, c: int, n: nat)
    requires 0 <= c && 0 <= ema - 8 * c <= 7
    ensures EmaConst(ema, c, n) / 8 == c && (c > 0 ==> EmaConst(ema, c, n) == ema)
    ensures 0 <= EmaConst(ema, c, n) - 8 * c <= 7
  {
    if n > 0 {
      DeadBandFixed(ema, c, n - 1);
    }
  }

  function Repeat(c: int, n: nat): seq<int> {
    seq(n, _ => c)
  }

  lemma {:induction false} ConstantRun(l: Light, c: int, n: nat)
    requires 0 <= c
    ensures LightRun(l, Repeat(c, n)).ema == EmaConst(l.ema, c, n)
  {
    if n > 0 {
      assert Repeat(c, n)[..n - 1] == Repeat(c, n - 1);
      ConstantRun(l, c, n - 1);
    }
  }

  // ----------------------------------------------------------- failed reads

  function Delivered(adcs: seq<int>): seq<int> {
    if adcs == [] then []
    else Delivered(adcs[..|adcs| - 1]) + if adcs[|adcs| - 1] < 0 then [] else [adcs[|adcs| - 1]]
  }

  /** Failed reads leave no trace: only the delivered samples count. */
  lemma {:induction false} FailedReadsLeaveNoTrace(l: Light, adcs: seq<int>)
    ensures LightRun(l, adcs) == LightRun(l, Delivered(adcs))
    ensures forall i :: 0 <= i < |Delivered(adcs)| ==> 0 <= Delivered(adcs)[i]
  {
    if adcs != [] {
      var init, last := adcs[..|adcs| - 1], adcs[|adcs| - 1];
      FailedReadsLeaveNoTrace(l, init);
      assert (Delivered(init) + [last])[..|Delivered(init)|] == Delivered(init);
      assert Delivered(init) + [] == Delivered(init);
    }
  }

  // -------------------------------------------------- the exact number of steps

  /** How far the average can still be above the scaled target after n steps, from d above it. */
  function Decay(d: nat, n: nat): nat {
    if n == 0 then d
    else
      var rest := Decay(d, n - 1);
      rest - rest / 8
  }

  lemma {:induction false} DecayMonotone(c: nat, d: nat, n: nat)
    requires c <= d
    ensures Decay(c, n) <= Decay(d, n)
  {
    if n > 0 {
      DecayMonotone(c, d, n - 1);
    }
  }

  lemma {:induction false} DecayFalls(d: nat, m: nat, n: nat)
    requires m <= n
    ensures Decay(d, n) <= Decay(d, m)
  {
    if m < n {
      DecayFalls(d, m, n - 1);
    }
  }

  /** Decay never crosses the edge of the dead band, from either side of it. */
  lemma {:induction false} DecayStays(d: int, n: nat)
    ensures d >= 7 ==> 7 <= Decay(d, n) <= d
    ensures 0 <= d <= 7 ==> Decay(d, n) == d
  {
    if n > 0 {
      DecayStays(d, n - 1);
    }
  }

  /** The whole course of the average under a constant sample: at once from zero, else decaying from either side. */
  lemma {:induction false} EmaExactly(ema: int, c: int, n: nat)
    requires 0 <= ema && 0 <= c
    ensures ema == 0 && n > 0 ==> EmaConst(ema, c, n) == 8 * c
    ensures 0 < ema <= 8 * c ==> 8 * c + 7 - EmaConst(ema, c, n) == Decay(8 * c + 7 - ema, n)
    ensures 8 * c <= ema ==> EmaConst(ema, c, n) - 8 * c == Decay(ema - 8 * c, n)
  {
    if n > 0 {
      EmaExactly(ema, c, n - 1);
      DecayStays(8 * c + 7 - ema, n - 1);
      DecayStays(ema - 8 * c, n - 1);
    }
  }

  /** A table of successive steps. */
  ghost predicate Falls(t: seq<nat>) {
    forall k :: 0 <= k < |t| - 1 ==> t[k + 1] == t[k] - t[k] / 8
  }

  lemma {:induction false} FallsOn(d: nat, k: nat, t: seq<nat>) returns (n: nat)
    requires t != [] && Decay(d, k) == t[0] && Falls(t)
    ensures n == k + |t| - 1 && Decay(d, n) == t[|t| - 1]
    decreases |t|
  {
    if |t| == 1 {
      n := k;
    } else {
      assert t[0 + 1] == t[0] - t[0] / 8;
      forall i | 0 <= i < |t| - 2 ensures t[1..][i + 1] == t[1..][i] - t[1..][i] / 8 {
        assert t[(i + 1) + 1] == t[i + 1] - t[i + 1] / 8;
      }
      n := FallsOn(d, k + 1, t[1..]);
    }
  }

  lemma LastSteps(d: nat, k: nat) returns (n: nat)
    requires Decay(d, k) == 2271
    ensures n == k + 46 && Decay(d, n) == 8 && Decay(d, n + 1) == 7
  {
    n := FallsOn(d, k, [2271, 1988, 1740, 1523, 1333, 1167, 1022, 895, 784, 686, 601]);
    n := FallsOn(d, n, [601, 526, 461, 404, 354, 310, 272, 238, 209, 183, 161]);
    n := FallsOn(d, n, [161, 141, 124, 109, 96, 84, 74, 65, 57, 50, 44]);
    n := FallsOn(d, n, [44, 39, 35, 31, 28, 25, 22, 20, 18, 16, 14]);
    n := FallsOn(d, n, [14, 13, 12, 11, 10, 9, 8]);
  }

  /** The largest 12-bit distance is still outside the dead band after 66 steps. */
  lemma OutsideAfter66(d: nat) returns (n: nat)
    requires d == 32760
    ensures n == 66 && Decay(d, n) == 8
  {
    n := 0;
    n := FallsOn(d, n, [32760, 28665, 25082, 21947, 19204, 16804, 14704, 12866, 11258, 9851, 8620]);
    n := FallsOn(d, n, [8620, 7543, 6601, 5776, 5054, 4423, 3871, 3388, 2965, 2595, 2271]);
    n := LastSteps(d, n);
  }

  /** And it is inside after 67, from a little further away too. */
  lemma InsideAfter67(d: nat) returns (n: nat)
    requires d == 32767
    ensures n == 67 && Decay(d, n) == 7
  {
    n := 0;
    n := FallsOn(d, n, [32767, 28672, 25088, 21952, 19208, 16807, 14707, 12869, 11261, 9854, 8623]);
    n := FallsOn(d, n, [8623, 7546, 6603, 5778, 5056, 4424, 3871, 3388, 2965, 2595, 2271]);
    n := LastSteps(d, n);
    n := n + 1;
  }

  lemma InDeadBand(d: nat, n: nat)
    requires d <= 32767 && 67 <= n
    ensures Decay(d, n) <= 7
  {
    var most := 32767;
    var steps := InsideAfter67(most);
    DecayMonotone(d, most, n);
    DecayFalls(most, steps, n);
  }

  /** In darkness after full light the reported level reaches zero with the 67th sample only. */
  lemma LevelInDarkness(n: nat)
    ensures Decay(32760, n) >= 8 <==> n <= 66
  {
    var most := 32760;
    var steps := OutsideAfter66(most);
    if n <= steps {
      DecayFalls(most, n, steps);
    } else {
      InDeadBand(most, n);
    }
  }

  function Excess(x: int): nat {
    if x > 0 then x else 0
  }

  /** Samples that vary but stay at or below x pull the average down at least as fast as `Decay`. */
  lemma {:induction false} PulledBelow(l: Light, adcs: seq<int>, x: int)
    requires 0 <= l.ema
    requires forall i :: 0 <= i < |adcs| ==> 0 <= adcs[i] <= x
    ensures 0 <= LightRun(l, adcs).ema
    ensures Excess(LightRun(l, adcs).ema - 8 * x) <= Decay(Excess(l.ema - 8 * x), |adcs|)
  {
    if adcs != [] {
      PulledBelow(l, adcs[..|adcs| - 1], x);
    }
  }

  /** Samples at or above x pull it up likewise; there the dead band is on the far side. */
  lemma {:induction false} PulledAbove(l: Light, adcs: seq<int>, x: int)
    requires 0 <= l.ema && 0 <= x
    requires forall i :: 0 <= i < |adcs| ==> x <= adcs[i]
    ensures 0 <= LightRun(l, adcs).ema
    ensures Excess(8 * x - LightRun(l, adcs).ema) + 7 <= Decay(Excess(8 * x - l.ema) + 7, |adcs|)
  {
    if adcs != [] {
      PulledAbove(l, adcs[..|adcs| - 1], x);
    }
  }

  lemma ValueOfEma(l: Light, adcs: seq<int>)
    requires adcs != [] && forall i :: 0 <= i < |adcs| ==> 0 <= adcs[i]
    ensures LightRun(l, adcs).value == LightRun(l, adcs).ema / 8
  {
    assert adcs[|adcs| - 1] >= 0;
  }

  lemma ReportsAtMost(l: Light, adcs: seq<int>, x: int)
    requires 0 <= l.ema <= 32760 && 67 <= |adcs| && 0 <= x
    requires forall i :: 0 <= i < |adcs| ==> 0 <= adcs[i] <= x
    ensures 0 <= LightRun(l, adcs).value <= x
  {
    PulledBelow(l, adcs, x);
    InDeadBand(Excess(l.ema - 8 * x), |adcs|);
    ValueOfEma(l, adcs);
  }

  lemma ReportsAtLeast(l: Light, adcs: seq<int>, x: int)
    requires 0 <= l.ema <= 32760 && 67 <= |adcs| && 0 <= x <= 4095
    requires forall i :: 0 <= i < |adcs| ==> x <= adcs[i]
    ensures x <= LightRun(l, adcs).value
  {
    PulledAbove(l, adcs, x);
    InDeadBand(Excess(8 * x - l.ema) + 7, |adcs|);
    ValueOfEma(l, adcs);
  }

  /** 67 samples bounded by x on one side put the reported value on that side of x. */
  lemma ReportsBoundAfter67(l: Light, adcs: seq<int>, x: int)
    requires 0 <= l.ema <= 32760 && 67 <= |adcs|
    ensures (0 <= x && forall i :: 0 <= i < |adcs| ==> 0 <= adcs[i] <= x) ==> 0 <= LightRun(l, adcs).value <= x
    ensures (0 <= x <= 4095 && forall i :: 0 <= i < |adcs| ==> x <= adcs[i]) ==> LightRun(l, adcs).value >= x
  {
    if 0 <= x && forall i :: 0 <= i < |adcs| ==> 0 <= adcs[i] <= x {
      ReportsAtMost(l, adcs, x);
    }
    if 0 <= x <= 4095 && forall i :: 0 <= i < |adcs| ==> x <= adcs[i] {
      ReportsAtLeast(l, adcs, x);
    }
  }

  /** From any average of 12-bit samples, every constant 12-bit level is reported exactly after n samples. */
  ghost predicate ReportsWithin(n: nat) {
    forall l: Light, c: int :: 0 <= l.ema <= 32760 && 0 <= c <= 4095 ==> LightRun(l, Repeat(c, n)).value == c
  }

  /** 67 samples are always enough, and no fewer are. */
  lemma ReportsConstantIff(n: nat)
    ensures ReportsWithin(n) <==> 67 <= n
  {
    if 67 <= n {
      forall l: Light, c: int | 0 <= l.ema <= 32760 && 0 <= c <= 4095 ensures LightRun(l, Repeat(c, n)).value == c {
        ReportsBoundAfter67(l, Repeat(c, n), c);
      }
    } else {
      var l := Light(32760, 4095);
      ConstantRun(l, 0, n);
      EmaExactly(32760, 0, n);
      LevelInDarkness(n);
      assert LightRun(l, Repeat(0, n)).value >= 1;
    }
  }
}
