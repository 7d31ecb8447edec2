/** The frequency policy: a Celsius temperature is mapped to a CPU and a GPU
    frequency ceiling by clamped linear interpolation over the window
    [MinimumTemperature, MaximumTemperature]. */
module Policy {
  import opened GoInt

  const MinimumTemperature: int := 40
  const MaximumTemperature: int := 80

  /** The four bounds discovered once at startup. Discovery may fail, in
      which case a bound is left at 0, so nothing forces min <= max. */
  datatype HardwareBounds = HardwareBounds(
    cpuMinimumFrequency: int,
    cpuMaximumFrequency: int,
    gpuMinimumFrequency: int,
    gpuMaximumFrequency: int)

  /** Number of degrees `t` lies above the bottom of the window. */
  function Excess(t: int): int
  {
    t - MinimumTemperature
  }

  /** The interior expression shared by both devices:
      `hi - ((hi - lo) / 40) * (t - 40)`, with Go's truncating `/`.
      Against the exact line `hi - (hi - lo) * (t - 40) / 40`, the rounding of
      the step makes the result lie on the side of `hi`, by less than one unit
      per degree above the window floor. */
  function Interpolate(lo: int, hi: int, t: int): (r: int)
    requires MinimumTemperature < t < MaximumTemperature
    ensures lo <= hi ==> 0 <= 40 * r - (40 * hi - (hi - lo) * Excess(t)) <= 39 * Excess(t)
    ensures lo > hi ==> -39 * Excess(t) <= 40 * r - (40 * hi - (hi - lo) * Excess(t)) <= 0
    ensures lo <= hi ==> lo <= r <= hi
    ensures lo >= hi ==> hi <= r <= lo
  {
    var step := Quot(hi - lo, MaximumTemperature - MinimumTemperature);
    InterpolationError(lo, hi, step, Excess(t));
    hi - step * Excess(t)
  }

  lemma InterpolationError(lo: int, hi: int, step: int, n: int)
    requires 1 <= n <= 39
    requires step == Quot(hi - lo, 40)
    ensures lo <= hi ==> 0 <= 40 * (hi - step * n) - (40 * hi - (hi - lo) * n) <= 39 * n
    ensures lo > hi ==> -39 * n <= 40 * (hi - step * n) - (40 * hi - (hi - lo) * n) <= 0
    ensures lo <= hi ==> lo <= hi - step * n <= hi
    ensures lo >= hi ==> hi <= hi - step * n <= lo
  {
    var rem := (hi - lo) - step * 40;
    assert 40 * (hi - step * n) - (40 * hi - (hi - lo) * n) == rem * n by {
      Distribute(hi - lo, step * 40, n);
      assert 40 * (step * n) == (step * 40) * n;
    }
    if lo <= hi {
      MulLe(n, 0, rem);
      MulLe(n, rem, 39);
      MulLe(step, 0, n);
      MulLe(step, n, 40);
    } else {
      MulLe(n, -39, rem);
      MulLe(n, rem, 0);
      MulLe(-step, 0, n);
      MulLe(-step, n, 40);
    }
  }

  /** Multiplying by a non-negative factor preserves order. */
  lemma MulLe(a: int, x: int, y: int)
    requires a >= 0 && x <= y
    ensures a * x <= a * y
    ensures x * a <= y * a
  {
    assert a * y - a * x == a * (y - x);
  }

  lemma Distribute(x: int, y: int, n: int)
    ensures (x - y) * n == x * n - y * n
  {
  }

  /** `calculateSafeCpuFrequency`, as written: the interior value is scaled
      by 1000, the two clamps return the raw bound. */
  function CpuFrequency(b: HardwareBounds, t: int): (f: int)
    ensures t >= MaximumTemperature ==> f == b.cpuMinimumFrequency
    ensures t <= MinimumTemperature ==> f == b.cpuMaximumFrequency
    ensures MinimumTemperature < t < MaximumTemperature ==>
      f == 1000 * Interpolate(b.cpuMinimumFrequency, b.cpuMaximumFrequency, t)
    ensures MinimumTemperature < t < MaximumTemperature && b.cpuMinimumFrequency <= b.cpuMaximumFrequency ==>
      1000 * b.cpuMinimumFrequency <= f <= 1000 * b.cpuMaximumFrequency
  {
    if t >= MaximumTemperature then
      b.cpuMinimumFrequency
    else if t <= MinimumTemperature then
      b.cpuMaximumFrequency
    else
      Interpolate(b.cpuMinimumFrequency, b.cpuMaximumFrequency, t) * 1000
  }

  /** `calculateSafeGpuFrequency`: the same policy, with no scaling. */
  function GpuFrequency(b: HardwareBounds, t: int): (f: int)
    ensures t >= MaximumTemperature ==> f == b.gpuMinimumFrequency
    ensures t <= MinimumTemperature ==> f == b.gpuMaximumFrequency
    ensures MinimumTemperature < t < MaximumTemperature ==>
      f == Interpolate(b.gpuMinimumFrequency, b.gpuMaximumFrequency, t)
    ensures b.gpuMinimumFrequency <= b.gpuMaximumFrequency ==>
      b.gpuMinimumFrequency <= f <= b.gpuMaximumFrequency
  {
    if t >= MaximumTemperature then
      b.gpuMinimumFrequency
    else if t <= MinimumTemperature then
      b.gpuMaximumFrequency
    else
      Interpolate(b.gpuMinimumFrequency, b.gpuMaximumFrequency, t)
  }

  /** Inside the window the interpolation never rises with temperature. */
  lemma InterpolateNonIncreasing(lo: int, hi: int, t1: int, t2: int)
    requires lo <= hi
    requires MinimumTemperature < t1 <= t2 < MaximumTemperature
    ensures Interpolate(lo, hi, t1) >= Interpolate(lo, hi, t2)
  {
    var step := Quot(hi - lo, MaximumTemperature - MinimumTemperature);
    MulLe(step, Excess(t1), Excess(t2));
  }

  /** The GPU ceiling is non-increasing over the whole temperature domain
      when its bounds are ordered. */
  lemma GpuNonIncreasing(b: HardwareBounds, t1: int, t2: int)
    requires b.gpuMinimumFrequency <= b.gpuMaximumFrequency
    requires t1 <= t2
    ensures GpuFrequency(b, t1) >= GpuFrequency(b, t2)
  {
    if MinimumTemperature < t1 && t2 < MaximumTemperature {
      InterpolateNonIncreasing(b.gpuMinimumFrequency, b.gpuMaximumFrequency, t1, t2);
    }
  }

  /** The CPU ceiling is non-increasing inside the interpolation window when
      its bounds are ordered. */
  lemma CpuNonIncreasingInWindow(b: HardwareBounds, t1: int, t2: int)
    requires b.cpuMinimumFrequency <= b.cpuMaximumFrequency
    requires MinimumTemperature < t1 <= t2 < MaximumTemperature
    ensures CpuFrequency(b, t1) >= CpuFrequency(b, t2)
  {
    InterpolateNonIncreasing(b.cpuMinimumFrequency, b.cpuMaximumFrequency, t1, t2);
  }

  /** Because only the interior branch is scaled, the CPU ceiling jumps UP
      when the temperature rises from the window floor into the window, for
      any non-negative ordered bounds with a positive maximum. */
  lemma CpuRisesEnteringWindow(b: HardwareBounds)
    requires 0 <= b.cpuMinimumFrequency <= b.cpuMaximumFrequency
    requires 0 < b.cpuMaximumFrequency
    ensures CpuFrequency(b, MinimumTemperature) < CpuFrequency(b, MinimumTemperature + 1)
  {
    var lo, hi := b.cpuMinimumFrequency, b.cpuMaximumFrequency;
    var step := Quot(hi - lo, 40);
    assert step * 40 <= hi - lo <= hi;
    assert Interpolate(lo, hi, MinimumTemperature + 1) == hi - step;
    assert 40 * (hi - step) >= 39 * hi;
  }

  /** The CPU policy with the bounds {800000, 3600000}: the clamps give the bound itself, the midpoint is
      the interpolated value scaled by 1000. */
  lemma CpuWindowExample()
    ensures CpuFrequency(HardwareBounds(800000, 3600000, 0, 0), 40) == 3600000
    ensures CpuFrequency(HardwareBounds(800000, 3600000, 0, 0), 80) == 800000
    ensures CpuFrequency(HardwareBounds(800000, 3600000, 0, 0), 60) == 2200000000
  {
    assert Quot(2800000, 40) == 70000;
  }

  /** The CPU policy with MHz bounds as `lscpu` reports them, {800, 3600}:
      the clamps give the MHz bound, the midpoint is in kHz. */
  lemma CpuMhzExample()
    ensures CpuFrequency(HardwareBounds(800, 3600, 0, 0), 40) == 3600
    ensures CpuFrequency(HardwareBounds(800, 3600, 0, 0), 80) == 800
    ensures CpuFrequency(HardwareBounds(800, 3600, 0, 0), 60) == 2200000
  {
    assert Quot(2800, 40) == 70;
  }

  /** For non-negative ordered bounds the CPU ceiling never rises above the
      window floor, across the clamp at 80 included: the only rise is the
      step from 40 to 41 (CpuRisesEnteringWindow). */
  lemma CpuNonIncreasingAboveFloor(b: HardwareBounds, t1: int, t2: int)
    requires 0 <= b.cpuMinimumFrequency <= b.cpuMaximumFrequency
    requires MinimumTemperature < t1 <= t2
    ensures CpuFrequency(b, t1) >= CpuFrequency(b, t2)
  {
    if t2 < MaximumTemperature {
      CpuNonIncreasingInWindow(b, t1, t2);
    }
  }

  const Int64Max: int := 0x7fff_ffff_ffff_ffff

  predicate FitsInt64(x: int)
  {
    -Int64Max - 1 <= x <= Int64Max
  }

  /** For bounds below 2^50 in magnitude, no intermediate value of either
      policy overflows a 64-bit Go `int` (the width on 64-bit targets), so the unbounded model agrees with
      the program there. */
  lemma PolicyFitsInt64(b: HardwareBounds, t: int)
    requires -0x4_0000_0000_0000 <= b.cpuMinimumFrequency <= 0x4_0000_0000_0000
    requires -0x4_0000_0000_0000 <= b.cpuMaximumFrequency <= 0x4_0000_0000_0000
    requires -0x4_0000_0000_0000 <= b.gpuMinimumFrequency <= 0x4_0000_0000_0000
    requires -0x4_0000_0000_0000 <= b.gpuMaximumFrequency <= 0x4_0000_0000_0000
    requires MinimumTemperature < t < MaximumTemperature
    ensures FitsInt64(b.cpuMaximumFrequency - b.cpuMinimumFrequency)
    ensures FitsInt64(Quot(b.cpuMaximumFrequency - b.cpuMinimumFrequency, 40) * Excess(t))
    ensures FitsInt64(Interpolate(b.cpuMinimumFrequency, b.cpuMaximumFrequency, t))
    ensures FitsInt64(CpuFrequency(b, t))
    ensures FitsInt64(b.gpuMaximumFrequency - b.gpuMinimumFrequency)
    ensures FitsInt64(Quot(b.gpuMaximumFrequency - b.gpuMinimumFrequency, 40) * Excess(t))
    ensures FitsInt64(GpuFrequency(b, t))
  {
    StepFits(b.cpuMinimumFrequency, b.cpuMaximumFrequency, Excess(t));
    StepFits(b.gpuMinimumFrequency, b.gpuMaximumFrequency, Excess(t));
  }

  lemma StepFits(lo: int, hi: int, n: int)
    requires -0x4_0000_0000_0000 <= lo <= 0x4_0000_0000_0000
    requires -0x4_0000_0000_0000 <= hi <= 0x4_0000_0000_0000
    requires 1 <= n <= 39
    ensures -0x8_0000_0000_0000 <= Quot(hi - lo, 40) * n <= 0x8_0000_0000_0000
  {
    var step := Quot(hi - lo, 40);
    assert -0x8_0000_0000_0000 <= step * 40 <= 0x8_0000_0000_0000;
    if step >= 0 {
      assert 0 <= step * n <= step * 40;
    } else {
      assert step * 40 <= step * n <= 0;
    }
  }
}
