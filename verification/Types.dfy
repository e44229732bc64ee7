/** The enums, the event record and the small pure helpers of the driver. */
module ConveyorTypes {

  datatype Option<+T> = None | Some(value: T)

  const U32 := 0x1_0000_0000
  const U64 := 0x1_0000_0000_0000_0000

  type Byte = b: int | 0 <= b < 256

  datatype Tilt = Level | Tilted

  datatype Blockage = Clear | Blocked

  datatype ConvState = RunningOk | BlockageAlert | StructuralFault | CriticalFault

  function EvaluateState(tilt: Tilt, blockage: Blockage): ConvState {
    if tilt == Level && blockage == Clear then RunningOk
    else if tilt == Level && blockage == Blocked then BlockageAlert
    else if tilt == Tilted && blockage == Clear then StructuralFault
    else CriticalFault
  }

  /** What `push_event` records. Integers are unbounded here; `Fits` gives their C ranges. */
  datatype Event = Event(tsNs: int, state: ConvState, tilt: Tilt, blockage: Blockage,
                         distanceCm: int, lightValue: int, reason: int)
  {
    predicate Fits() {
      && 0 <= tsNs < U64
      && -0x8000_0000 <= distanceCm < 0x8000_0000
      && -0x8000_0000 <= lightValue < 0x8000_0000
      && 0 <= reason < U32
    }
  }

  predicate Bit(word: int, k: nat)
    requires k < 4
  {
    (word / [1, 2, 4, 8][k]) % 2 == 1
  }

  /** The four reason flags of an event, as the word the driver stores. */
  function ReasonWord(tiltChanged: bool, blockageChanged: bool, lightBlocked: bool, distanceStable: bool): (w: int)
    ensures 0 <= w < 16
    ensures Bit(w, 0) == tiltChanged && Bit(w, 1) == blockageChanged
    ensures Bit(w, 2) == lightBlocked && Bit(w, 3) == distanceStable
  {
    (if tiltChanged then 1 else 0) + (if blockageChanged then 2 else 0)
    + (if lightBlocked then 4 else 0) + (if distanceStable then 8 else 0)
  }

  /** Module parameters, constant during a run. */
  datatype Params = Params(tiltActiveLevel: int, tiltDebounce: nat,
                           ultraMaxDistCm: int, ultraToleranceCm: int,
                           confirmCount: nat, clearCount: nat,
                           adcBits: int, lightThreshold: int, blockedWhenBelow: bool)
  {
    /** Both thresholds are C `unsigned int` values of at least one. */
    predicate Sensible() {
      1 <= confirmCount < U32 && 1 <= clearCount < U32
    }

    function AdcLimit(): int {
      if adcBits == 10 then 1023 else 4095
    }

    function JudgeTilt(level: int): Tilt {
      if level == tiltActiveLevel then Tilted else Level
    }

    predicate LightIsBlocked(value: int) {
      if value < 0 then false
      else if blockedWhenBelow then value < lightThreshold else value > lightThreshold
    }
  }

  type ErrorCode = e: int | e < 0 witness -1

  /** The outcome of one SPI transfer: an error code, or the last two received bytes. */
  datatype Spi = SpiError(code: ErrorCode) | SpiData(rx1: Byte, rx2: Byte)

  function AdcReadValue(p: Params, spi: Spi): (value: int)
    ensures value < 0 <==> spi.SpiError?
    ensures value <= p.AdcLimit()
    ensures spi.SpiError? ==> value == spi.code
    ensures spi.SpiData? ==> value % 256 == spi.rx2 && value / 256 == spi.rx1 % (if p.adcBits == 10 then 4 else 16)
  {
    match spi
    case SpiError(code) => code
    case SpiData(rx1, rx2) =>
      if p.adcBits == 10 then rx1 % 4 * 256 + rx2 else rx1 % 16 * 256 + rx2
  }
}
