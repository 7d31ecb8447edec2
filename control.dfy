/** The control loop's bookkeeping: the actuation debounce and the per-tick
    state machine with its adaptive interval. The functions give the meaning
    of one step on values; the Controller class keeps the program's mutable
    globals as fields and is proved against them. */
module Control {
  import opened GoInt
  import opened Policy
  import opened Sampler

  const TemperatureChangeThreshold: int := 2
  const CpuFrequencyChangeThreshold: int := 50000
  const GpuFrequencyChangeThreshold: int := 50
  const TickerTimeDefaultValue: int := 5
  const MaximumTickerTime: int := 60

  /** The mutable globals of the loop. */
  datatype ControllerState = ControllerState(
    previousTemperature: int,
    previousCpuFrequency: int,
    previousGpuFrequency: int,
    tickerTime: int)

  datatype Device = Cpu | Gpu

  /** A frequency write handed to the hardware, with whether it reported
      success. */
  datatype Write = Write(device: Device, frequency: int, succeeded: bool)

  /** Package-level variables start at Go's zero value; `init` then sets the
      interval to its default. */
  function InitialState(): ControllerState
  {
    ControllerState(0, 0, 0, TickerTimeDefaultValue)
  }

  /** The interval invariant of the loop. */
  predicate TickerInRange(tickerTime: int)
  {
    TickerTimeDefaultValue <= tickerTime < MaximumTickerTime
  }

  /** Whether the debounce lets a new value through: its change from the last
      recorded value reaches the threshold. */
  predicate Exceeds(previous: int, proposed: int, threshold: int)
  {
    Abs(proposed - previous) >= threshold
  }

  /** `applyFrequencies` on values: each device records the proposed value
      exactly when it passes the debounce, whatever the write reports, and
      afterwards every recorded value is within its threshold of the
      proposal. */
  function Applied(s: ControllerState, b: HardwareBounds, temp: int): (s': ControllerState)
    ensures s'.previousTemperature == s.previousTemperature && s'.tickerTime == s.tickerTime
    ensures s'.previousCpuFrequency == CpuFrequency(b, temp)
            <==> Exceeds(s.previousCpuFrequency, CpuFrequency(b, temp), CpuFrequencyChangeThreshold)
                 || s.previousCpuFrequency == CpuFrequency(b, temp)
    ensures !Exceeds(s.previousCpuFrequency, CpuFrequency(b, temp), CpuFrequencyChangeThreshold)
            ==> s'.previousCpuFrequency == s.previousCpuFrequency
    ensures s'.previousGpuFrequency == GpuFrequency(b, temp)
            <==> Exceeds(s.previousGpuFrequency, GpuFrequency(b, temp), GpuFrequencyChangeThreshold)
                 || s.previousGpuFrequency == GpuFrequency(b, temp)
    ensures !Exceeds(s.previousGpuFrequency, GpuFrequency(b, temp), GpuFrequencyChangeThreshold)
            ==> s'.previousGpuFrequency == s.previousGpuFrequency
    ensures Abs(CpuFrequency(b, temp) - s'.previousCpuFrequency) < CpuFrequencyChangeThreshold
    ensures Abs(GpuFrequency(b, temp) - s'.previousGpuFrequency) < GpuFrequencyChangeThreshold
  {
    var cpu := CpuFrequency(b, temp);
    var gpu := GpuFrequency(b, temp);
    s.(previousCpuFrequency :=
         if Exceeds(s.previousCpuFrequency, cpu, CpuFrequencyChangeThreshold) then cpu else s.previousCpuFrequency,
       previousGpuFrequency :=
         if Exceeds(s.previousGpuFrequency, gpu, GpuFrequencyChangeThreshold) then gpu else s.previousGpuFrequency)
  }

  /** The writes `applyFrequencies` issues, CPU first: one per device that
      passes the debounce, carrying the proposed value. */
  function AppliedWrites(s: ControllerState, b: HardwareBounds, temp: int, cpuOk: bool, gpuOk: bool): (w: seq<Write>)
    ensures Write(Cpu, CpuFrequency(b, temp), cpuOk) in w
            <==> Exceeds(s.previousCpuFrequency, CpuFrequency(b, temp), CpuFrequencyChangeThreshold)
    ensures Write(Gpu, GpuFrequency(b, temp), gpuOk) in w
            <==> Exceeds(s.previousGpuFrequency, GpuFrequency(b, temp), GpuFrequencyChangeThreshold)
    ensures forall i :: 0 <= i < |w| ==>
              w[i] == Write(Cpu, CpuFrequency(b, temp), cpuOk) || w[i] == Write(Gpu, GpuFrequency(b, temp), gpuOk)
    ensures |w| == (if Exceeds(s.previousCpuFrequency, CpuFrequency(b, temp), CpuFrequencyChangeThreshold) then 1 else 0)
                 + (if Exceeds(s.previousGpuFrequency, GpuFrequency(b, temp), GpuFrequencyChangeThreshold) then 1 else 0)
    ensures |w| == 2 ==> w[0].device == Cpu && w[1].device == Gpu
  {
    var cpu := CpuFrequency(b, temp);
    var gpu := GpuFrequency(b, temp);
    (if Exceeds(s.previousCpuFrequency, cpu, CpuFrequencyChangeThreshold) then [Write(Cpu, cpu, cpuOk)] else [])
    + (if Exceeds(s.previousGpuFrequency, gpu, GpuFrequencyChangeThreshold) then [Write(Gpu, gpu, gpuOk)] else [])
  }

  /** The interval when nothing is applied: one more second, back to the
      default on reaching the maximum. */
  function NextTickerTime(tickerTime: int): (k: int)
    ensures TickerInRange(tickerTime) ==> TickerInRange(k)
    ensures k == tickerTime + 1 || k == TickerTimeDefaultValue
    ensures TickerInRange(tickerTime) ==> (k == TickerTimeDefaultValue <==> tickerTime == MaximumTickerTime - 1)
  {
    if tickerTime + 1 >= MaximumTickerTime then TickerTimeDefaultValue else tickerTime + 1
  }

  /** One tick of the loop on values, given the tick's temperature. */
  function Ticked(s: ControllerState, b: HardwareBounds, temp: int): (s': ControllerState)
    ensures Exceeds(s.previousTemperature, temp, TemperatureChangeThreshold) ==>
              s' == Applied(s, b, temp).(previousTemperature := temp, tickerTime := TickerTimeDefaultValue)
    ensures !Exceeds(s.previousTemperature, temp, TemperatureChangeThreshold) ==>
              s' == s.(tickerTime := NextTickerTime(s.tickerTime))
    ensures TickerInRange(s.tickerTime) ==> TickerInRange(s'.tickerTime)
    ensures Abs(temp - s'.previousTemperature) < TemperatureChangeThreshold
  {
    if Exceeds(s.previousTemperature, temp, TemperatureChangeThreshold) then
      Applied(s, b, temp).(previousTemperature := temp, tickerTime := TickerTimeDefaultValue)
    else
      s.(tickerTime := NextTickerTime(s.tickerTime))
  }

  /** The writes one tick issues. */
  function TickWrites(s: ControllerState, b: HardwareBounds, temp: int, cpuOk: bool, gpuOk: bool): (w: seq<Write>)
    ensures !Exceeds(s.previousTemperature, temp, TemperatureChangeThreshold) ==> w == []
    ensures Exceeds(s.previousTemperature, temp, TemperatureChangeThreshold) ==> w == AppliedWrites(s, b, temp, cpuOk, gpuOk)
  {
    if Exceeds(s.previousTemperature, temp, TemperatureChangeThreshold) then
      AppliedWrites(s, b, temp, cpuOk, gpuOk)
    else
      []
  }

  /** The state after a sequence of ticks with the given temperatures. */
  function Run(s: ControllerState, b: HardwareBounds, temps: seq<int>): ControllerState
    decreases |temps|
  {
    if temps == [] then s else Run(Ticked(s, b, temps[0]), b, temps[1..])
  }

  /** The writes issued over a run, tick by tick, each write reporting the
      given outcome. */
  function RunWrites(s: ControllerState, b: HardwareBounds, temps: seq<int>, cpuOk: bool, gpuOk: bool): seq<Write>
    decreases |temps|
  {
    if temps == [] then []
    else TickWrites(s, b, temps[0], cpuOk, gpuOk) + RunWrites(Ticked(s, b, temps[0]), b, temps[1..], cpuOk, gpuOk)
  }

  /** Applying the same temperature twice settles: the second application
      changes nothing and writes nothing. */
  lemma AppliedIdempotent(s: ControllerState, b: HardwareBounds, temp: int, cpuOk: bool, gpuOk: bool)
    ensures Applied(Applied(s, b, temp), b, temp) == Applied(s, b, temp)
    ensures AppliedWrites(Applied(s, b, temp), b, temp, cpuOk, gpuOk) == []
  {
  }

  /** Two ticks with the same temperature: the second issues no write and
      leaves every recorded value as it was. */
  lemma RepeatedTemperatureWritesNothing(s: ControllerState, b: HardwareBounds, temp: int, cpuOk: bool, gpuOk: bool)
    ensures TickWrites(Ticked(s, b, temp), b, temp, cpuOk, gpuOk) == []
    ensures Ticked(Ticked(s, b, temp), b, temp).(tickerTime := 0) == Ticked(s, b, temp).(tickerTime := 0)
  {
  }

  /** The interval invariant holds after every tick of any run that starts
      inside it. */
  lemma {:induction false} RunKeepsTickerInRange(s: ControllerState, b: HardwareBounds, temps: seq<int>)
    requires TickerInRange(s.tickerTime)
    ensures TickerInRange(Run(s, b, temps).tickerTime)
    decreases |temps|
  {
    if temps != [] {
      RunKeepsTickerInRange(Ticked(s, b, temps[0]), b, temps[1..]);
    }
  }

  /** From the state `init` leaves, the interval stays within [5, 59]. */
  lemma InitialRunTickerInRange(b: HardwareBounds, temps: seq<int>)
    ensures TickerTimeDefaultValue <= Run(InitialState(), b, temps).tickerTime <= MaximumTickerTime - 1
  {
    RunKeepsTickerInRange(InitialState(), b, temps);
  }

  /** Temperatures all within the change threshold of the recorded one. */
  predicate Stable(previousTemperature: int, temps: seq<int>)
  {
    forall i :: 0 <= i < |temps| ==> !Exceeds(previousTemperature, temps[i], TemperatureChangeThreshold)
  }

  /** Under stable temperatures nothing is recorded or written, and the
      interval grows by one per tick, cycling through 5..59 with period 55. */
  lemma {:induction false} StableRun(s: ControllerState, b: HardwareBounds, temps: seq<int>, cpuOk: bool, gpuOk: bool)
    requires TickerInRange(s.tickerTime)
    requires Stable(s.previousTemperature, temps)
    ensures Run(s, b, temps).(tickerTime := 0) == s.(tickerTime := 0)
    ensures RunWrites(s, b, temps, cpuOk, gpuOk) == []
    ensures Run(s, b, temps).tickerTime
            == TickerTimeDefaultValue + (s.tickerTime - TickerTimeDefaultValue + |temps|) % 55
    decreases |temps|
  {
    if temps != [] {
      var s1 := Ticked(s, b, temps[0]);
      assert s1.tickerTime == TickerTimeDefaultValue + (s.tickerTime - TickerTimeDefaultValue + 1) % 55;
      assert Stable(s1.previousTemperature, temps[1..]) by {
        forall i | 0 <= i < |temps[1..]|
          ensures !Exceeds(s1.previousTemperature, temps[1..][i], TemperatureChangeThreshold)
        {
          assert temps[1..][i] == temps[i + 1];
        }
      }
      StableRun(s1, b, temps[1..], cpuOk, gpuOk);
      ModStep(s.tickerTime - TickerTimeDefaultValue, |temps|);
    }
  }

  lemma ModStep(k: int, n: int)
    requires 0 <= k < 55 && n >= 1
    ensures ((k + 1) % 55 + (n - 1)) % 55 == (k + n) % 55
  {
    if k + 1 == 55 {
      assert (k + 1) % 55 == 0;
      assert (k + n) % 55 == (n - 1 + 55) % 55 == (n - 1) % 55;
    } else {
      assert (k + 1) % 55 == k + 1;
    }
  }

  /** The loop's mutable globals, with the bounds discovered at startup
      fixed at construction. `writes` records every frequency write issued. */
  class Controller {
    const cpuMinimumFrequency: int
    const cpuMaximumFrequency: int
    const gpuMinimumFrequency: int
    const gpuMaximumFrequency: int
    var previousTemperature: int
    var previousCpuFrequency: int
    var previousGpuFrequency: int
    var tickerTime: int
    ghost var writes: seq<Write>

    function Bounds(): HardwareBounds
    {
      HardwareBounds(cpuMinimumFrequency, cpuMaximumFrequency, gpuMinimumFrequency, gpuMaximumFrequency)
    }

    function State(): ControllerState
      reads this
    {
      ControllerState(previousTemperature, previousCpuFrequency, previousGpuFrequency, tickerTime)
    }

    ghost predicate Valid()
      reads this
    {
      TickerInRange(tickerTime)
    }

    /** `init`: the four bounds as discovery gave them (0 where it failed),
        the interval at its default, all other globals at zero. */
    constructor (cpuMin: int, cpuMax: int, gpuMin: int, gpuMax: int)
      ensures Bounds() == HardwareBounds(cpuMin, cpuMax, gpuMin, gpuMax)
      ensures State() == InitialState()
      ensures Valid()
      ensures writes == []
    {
      cpuMinimumFrequency, cpuMaximumFrequency := cpuMin, cpuMax;
      gpuMinimumFrequency, gpuMaximumFrequency := gpuMin, gpuMax;
      previousTemperature, previousCpuFrequency, previousGpuFrequency := 0, 0, 0;
      tickerTime := TickerTimeDefaultValue;
      writes := [];
    }

    /** `applyFrequencies`. The outcome of each hardware write is a parameter;
        the recorded frequency does not depend on it. */
    method ApplyFrequencies(currentTemperature: int, cpuWriteOk: bool, gpuWriteOk: bool)
      modifies this
      ensures State() == Applied(old(State()), Bounds(), currentTemperature)
      ensures writes == old(writes) + AppliedWrites(old(State()), Bounds(), currentTemperature, cpuWriteOk, gpuWriteOk)
    {
      var cpuFrequency := CpuFrequency(Bounds(), currentTemperature);
      var gpuFrequency := GpuFrequency(Bounds(), currentTemperature);

      if Abs(cpuFrequency - previousCpuFrequency) >= CpuFrequencyChangeThreshold {
        writes := writes + [Write(Cpu, cpuFrequency, cpuWriteOk)];
        previousCpuFrequency := cpuFrequency;
      }

      if Abs(gpuFrequency - previousGpuFrequency) >= GpuFrequencyChangeThreshold {
        writes := writes + [Write(Gpu, gpuFrequency, gpuWriteOk)];
        previousGpuFrequency := gpuFrequency;
      }
    }

    /** One firing of the ticker: read the temperature, then either apply and
        reset the interval, or back the interval off. */
    method Tick(reading: Reading, cpuWriteOk: bool, gpuWriteOk: bool)
      modifies this
      ensures State() == Ticked(old(State()), Bounds(), CurrentTemperature(reading))
      ensures writes == old(writes) + TickWrites(old(State()), Bounds(), CurrentTemperature(reading), cpuWriteOk, gpuWriteOk)
      ensures old(Valid()) ==> Valid()
      ensures Exceeds(old(previousTemperature), CurrentTemperature(reading), TemperatureChangeThreshold)
              ==> previousTemperature == CurrentTemperature(reading) && tickerTime == TickerTimeDefaultValue
      ensures !Exceeds(old(previousTemperature), CurrentTemperature(reading), TemperatureChangeThreshold)
              ==> previousTemperature == old(previousTemperature)
                  && previousCpuFrequency == old(previousCpuFrequency)
                  && previousGpuFrequency == old(previousGpuFrequency)
                  && writes == old(writes)
    {
      var currentTemperature := CurrentTemperature(reading);

      if Abs(currentTemperature - previousTemperature) >= TemperatureChangeThreshold {
        ApplyFrequencies(currentTemperature, cpuWriteOk, gpuWriteOk);
        previousTemperature := currentTemperature;
        tickerTime := TickerTimeDefaultValue;
      } else {
        tickerTime := tickerTime + 1;
        if tickerTime >= MaximumTickerTime {
          tickerTime := TickerTimeDefaultValue;
        }
      }
    }
  }
}
