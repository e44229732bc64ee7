/** The hysteresis filter: consecutive raw samples of one kind before `blockage` changes. */
module StreakFilter {
  import opened ConveyorTypes

  /** `block_streak` and `clear_streak`: C `unsigned int` counters. */
  datatype Streak = Streak(block: nat, clear: nat)

  datatype Hysteresis = Hysteresis(streak: Streak, blockage: Blockage)

  const START := Hysteresis(Streak(0, 0), Clear)

  function Count(s: Streak, raw: bool): Streak {
    if raw then Streak((s.block + 1) % U32, 0) else Streak(0, (s.clear + 1) % U32)
  }

  function Judge(confirm: nat, clear: nat, s: Streak, b: Blockage): Blockage {
    if s.block >= confirm then Blocked
    else if s.clear >= clear then Clear
    else b
  }

  function HystStep(confirm: nat, clear: nat, h: Hysteresis, raw: bool): Hysteresis {
    var s := Count(h.streak, raw);
    Hysteresis(s, Judge(confirm, clear, s, h.blockage))
  }

  function HystRun(confirm: nat, clear: nat, raws: seq<bool>): Hysteresis {
    if raws == [] then START
    else HystStep(confirm, clear, HystRun(confirm, clear, raws[..|raws| - 1]), raws[|raws| - 1])
  }

  // ------------------------------------------------ the counters may wrap

  /** The same filter with counters that never wrap. */
  function IdealRun(confirm: nat, clear: nat, raws: seq<bool>): Hysteresis {
    if raws == [] then START
    else
      var h := IdealRun(confirm, clear, raws[..|raws| - 1]);
      var s := if raws[|raws| - 1] then Streak(h.streak.block + 1, 0) else Streak(0, h.streak.clear + 1);
      Hysteresis(s, Judge(confirm, clear, s, h.blockage))
  }

  lemma ModSucc(n: nat)
    ensures (n % U32 + 1) % U32 == (n + 1) % U32
    ensures n + 1 < U32 ==> (n + 1) % U32 == n + 1
  {
  }

  lemma {:induction false} WrapSimulation(confirm: nat, clear: nat, raws: seq<bool>)
    requires confirm < U32 && clear < U32
    requires clear >= 1 || confirm == 0
    ensures var h, i := HystRun(confirm, clear, raws), IdealRun(confirm, clear, raws);
            && h.blockage == i.blockage
            && h.streak == Streak(i.streak.block % U32, i.streak.clear % U32)
            && (i.streak.block == 0 || i.streak.clear == 0)
            && (1 <= confirm <= i.streak.block ==> i.blockage == Blocked)
            && (1 <= confirm && clear <= i.streak.clear ==> i.blockage == Clear || i.streak.clear == 0)
  {
    if raws != [] {
      WrapSimulation(confirm, clear, raws[..|raws| - 1]);
      var i := IdealRun(confirm, clear, raws[..|raws| - 1]).streak;
      ModSucc(i.block);
      ModSucc(i.clear);
    }
  }

  lemma {:induction false} AllBlocked(confirm: nat, clear: nat, n: nat)
    ensures var raws := seq(n, _ => true);
            && HystRun(confirm, clear, raws).streak == Streak(n % U32, 0)
            && IdealRun(confirm, clear, raws).streak == Streak(n, 0)
  {
    if n > 0 {
      assert seq(n, _ => true)[..n - 1] == seq(n - 1, _ => true);
      AllBlocked(confirm, clear, n - 1);
    }
  }

  /** Wrapping is invisible exactly when the clear threshold is positive (or blocking needs no sample). */
  lemma WrapHarmlessIff(confirm: nat, clear: nat)
    requires confirm < U32 && clear < U32
    ensures (forall raws: seq<bool> ::
               HystRun(confirm, clear, raws).blockage == IdealRun(confirm, clear, raws).blockage)
       <==> (clear >= 1 || confirm == 0)
  {
    if clear >= 1 || confirm == 0 {
      forall raws: seq<bool> ensures HystRun(confirm, clear, raws).blockage == IdealRun(confirm, clear, raws).blockage {
        WrapSimulation(confirm, clear, raws);
      }
    } else {
      var raws := seq(U32, _ => true);
      AllBlocked(confirm, clear, U32);
      assert HystRun(confirm, clear, raws).blockage == Clear;
      assert IdealRun(confirm, clear, raws).blockage == Blocked;
    }
  }

  // --------------------------------------- what the filter's verdict means

  /** The `threshold` samples ending at position n all equal `kind`. */
  ghost predicate Confirms(raws: seq<bool>, n: nat, kind: bool, threshold: nat) {
    && threshold <= n <= |raws|
    && forall i :: n - threshold <= i < n ==> raws[i] == kind
  }

  /** The latest confirmed window of either kind was a blocked one. */
  ghost predicate LastConfirmedIsBlocked(raws: seq<bool>, confirm: nat, clear: nat) {
    exists n: nat :: Confirms(raws, n, true, confirm) && forall m: nat :: n < m ==> !Confirms(raws, m, false, clear)
  }

  ghost predicate TrailingRun(raws: seq<bool>, kind: bool, n: nat) {
    && n <= |raws|
    && (forall i :: |raws| - n <= i < |raws| ==> raws[i] == kind)
    && (n < |raws| ==> raws[|raws| - n - 1] != kind)
  }

  lemma {:induction false} StreaksAreTrailingRuns(confirm: nat, clear: nat, raws: seq<bool>)
    ensures var i := IdealRun(confirm, clear, raws);
            TrailingRun(raws, true, i.streak.block) && TrailingRun(raws, false, i.streak.clear)
  {
    if raws != [] {
      StreaksAreTrailingRuns(confirm, clear, raws[..|raws| - 1]);
    }
  }

  lemma ConfirmsExtend(raws: seq<bool>, n: nat, kind: bool, threshold: nat)
    requires raws != []
    requires n < |raws|
    ensures Confirms(raws, n, kind, threshold) == Confirms(raws[..|raws| - 1], n, kind, threshold)
  {
    var init := raws[..|raws| - 1];
    assert forall i :: 0 <= i < n ==> init[i] == raws[i];
  }

  lemma {:induction false} LastConfirmedStep(raws: seq<bool>, confirm: nat, clear: nat)
    requires raws != [] && 1 <= confirm && 1 <= clear
    ensures LastConfirmedIsBlocked(raws, confirm, clear) <==>
              Confirms(raws, |raws|, true, confirm)
              || (LastConfirmedIsBlocked(raws[..|raws| - 1], confirm, clear) && !Confirms(raws, |raws|, false, clear))
  {
    var init, last := raws[..|raws| - 1], |raws|;
    forall n: nat | n < last
      ensures Confirms(raws, n, true, confirm) == Confirms(init, n, true, confirm)
      ensures Confirms(raws, n, false, clear) == Confirms(init, n, false, clear)
    {
      ConfirmsExtend(raws, n, true, confirm);
      ConfirmsExtend(raws, n, false, clear);
    }
    if LastConfirmedIsBlocked(init, confirm, clear) {
      var n: nat :| Confirms(init, n, true, confirm) && forall m: nat :: n < m ==> !Confirms(init, m, false, clear);
      assert Confirms(raws, n, true, confirm);
    }
    if LastConfirmedIsBlocked(raws, confirm, clear) && !Confirms(raws, last, true, confirm) {
      var n: nat :| Confirms(raws, n, true, confirm) && forall m: nat :: n < m ==> !Confirms(raws, m, false, clear);
      assert Confirms(init, n, true, confirm);
      assert forall m: nat :: n < m ==> !Confirms(init, m, false, clear);
    }
  }

  lemma RunConfirms(raws: seq<bool>, kind: bool, n: nat, threshold: nat)
    requires TrailingRun(raws, kind, n)
    ensures Confirms(raws, |raws|, kind, threshold) <==> threshold <= n
  {
    if n < threshold <= |raws| {
      assert raws[|raws| - n - 1] != kind;
    }
  }

  lemma {:induction false} VerdictIsLastConfirmed(confirm: nat, clear: nat, raws: seq<bool>)
    requires 1 <= confirm < U32 && 1 <= clear < U32
    ensures HystRun(confirm, clear, raws).blockage == Blocked <==> LastConfirmedIsBlocked(raws, confirm, clear)
  {
    WrapSimulation(confirm, clear, raws);
    if raws != [] {
      var i := IdealRun(confirm, clear, raws).streak;
      VerdictIsLastConfirmed(confirm, clear, raws[..|raws| - 1]);
      WrapSimulation(confirm, clear, raws[..|raws| - 1]);
      StreaksAreTrailingRuns(confirm, clear, raws);
      RunConfirms(raws, true, i.block, confirm);
      RunConfirms(raws, false, i.clear, clear);
      LastConfirmedStep(raws, confirm, clear);
    }
  }

  /** A Clear verdict turns to Blocked exactly when the last `confirm` samples are blocked, a Blocked one likewise. */
  lemma VerdictTurnsIff(confirm: nat, clear: nat, raws: seq<bool>)
    requires 1 <= confirm < U32 && 1 <= clear < U32
    requires raws != []
    ensures HystRun(confirm, clear, raws[..|raws| - 1]).blockage == Clear ==>
              (HystRun(confirm, clear, raws).blockage == Blocked <==> Confirms(raws, |raws|, true, confirm))
    ensures HystRun(confirm, clear, raws[..|raws| - 1]).blockage == Blocked ==>
              (HystRun(confirm, clear, raws).blockage == Clear <==> Confirms(raws, |raws|, false, clear))
  {
    var i := IdealRun(confirm, clear, raws).streak;
    WrapSimulation(confirm, clear, raws[..|raws| - 1]);
    WrapSimulation(confirm, clear, raws);
    StreaksAreTrailingRuns(confirm, clear, raws);
    RunConfirms(raws, true, i.block, confirm);
    RunConfirms(raws, false, i.clear, clear);
  }

  // ------------------------------------------------------- rate of change

  function Changes(confirm: nat, clear: nat, raws: seq<bool>, to: Blockage): nat {
    if raws == [] then 0
    else
      Changes(confirm, clear, raws[..|raws| - 1], to)
      + if HystRun(confirm, clear, raws[..|raws| - 1]).blockage != to && HystRun(confirm, clear, raws).blockage == to
        then 1 else 0
  }

  lemma Distribute(a: nat, b: nat)
    ensures a * (b + 1) == a * b + a
  {
  }

  /** Every change costs its own window of samples: windows of different changes never share one. */
  lemma {:induction false} ChangesAreBounded(confirm: nat, clear: nat, raws: seq<bool>)
    requires 1 <= confirm && 1 <= clear
    ensures confirm * Changes(confirm, clear, raws, Blocked) + clear * Changes(confirm, clear, raws, Clear) <= |raws|
    ensures var h := HystRun(confirm, clear, raws);
            confirm * Changes(confirm, clear, raws, Blocked) + clear * Changes(confirm, clear, raws, Clear)
            + (if h.blockage == Clear then h.streak.block else h.streak.clear) <= |raws|
  {
    if raws != [] {
      var init := raws[..|raws| - 1];
      ChangesAreBounded(confirm, clear, init);
      Distribute(confirm, Changes(confirm, clear, init, Blocked));
      Distribute(clear, Changes(confirm, clear, init, Clear));
      var s := HystRun(confirm, clear, init).streak;
      assert (s.block + 1) % U32 <= s.block + 1 && (s.clear + 1) % U32 <= s.clear + 1;
    }
  }
}
