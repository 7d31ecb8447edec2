# CpuOptimizer thermal governor — verified model

CpuOptimizer is a background process. It periodically reads the system
temperature and lowers or raises the CPU and GPU frequency ceilings:
the hotter the system, the lower the ceiling. This project models its
decision engine and the bookkeeping of its control loop, all of which is
in `main.go`:

- `goint.dfy` (module `GoInt`): the program's `abs`, and Go's integer `/`,
  which truncates toward zero while Dafny's `/` is Euclidean.
- `policy.dfy` (module `Policy`): `calculateSafeCpuFrequency` and
  `calculateSafeGpuFrequency`. They clamp to the bound at or beyond the
  window [40, 80] and interpolate linearly inside it, with a step rounded
  by truncating division.
- `sampler.dfy` (module `Sampler`): `getCurrentTemperature`, with the
  thermal-zone read passed in as a value. Millidegrees are divided by 1000,
  and a failed read yields the default safe temperature 60.
- `control.dfy` (module `Control`): the debounce of `applyFrequencies` and
  the per-tick state machine of `main`. They are given on values as
  functions (`Applied`, `AppliedWrites`, `Ticked`, `TickWrites`, `Run`,
  `RunWrites`).
  The `Controller` class holds the program's package-level globals as
  fields. Its methods `ApplyFrequencies` and `Tick` mutate them as the Go
  code does, and are proved equal to those functions.

The hardware boundary is abstracted:
- The four frequency bounds are constructor arguments. Discovery may fail
  and leave a bound at 0, so the model does not assume min <= max.
- The temperature read is a `Reading` value: a parsed integer or a failure.
- A frequency write is an entry in a ghost log `writes`. Whether the write
  succeeded is a parameter of `Tick`. The recorded frequencies are proved
  not to depend on it, since the program records the value even when the
  write fails.

The CPU function is modelled as written. Only its interior branch
multiplies by 1000: it turns the MHz bounds reported by `lscpu` into the
kHz that the scaling file expects. The two clamp branches return the raw
bound. So for non-negative ordered bounds the CPU ceiling is
non-increasing everywhere above 40 °C, across the clamp at 80 °C included
(`CpuNonIncreasingAboveFloor`), except for the step across the window
floor: `CpuRisesEnteringWindow` proves that the ceiling jumps up from
40 °C to 41 °C for such bounds with a positive maximum. The GPU function has no scaling
and is non-increasing over all temperatures for ordered bounds
(`GpuNonIncreasing`); with reversed bounds, as a failed discovery of the
maximum leaves them, it rises with temperature instead.

The governor as written:
- reads a single thermal zone and does not average several sensors;
- has no discrete mode table;
- has a fixed interpolation window of two constants, so there is no startup
  check for a degenerate window;
- leaves a bound at 0 when its discovery fails, with no built-in default.

## Model

| member | source | states |
|---|---|---|
| GoInt.Abs | main.go:160-165 | the result is non-negative, is `a` or `-a`, and is `a` when `a >= 0` |
| GoInt.AbsSymmetric | main.go:160-165 | `abs(a) == abs(-a)` |
| GoInt.Quot | main.go:134 | Go's `/` by a positive divisor: the remainder has the sign of the dividend and is smaller than the divisor; the quotient's sign follows the dividend |
| GoInt.QuotUnique | main.go:146 | those remainder conditions determine the quotient, so `Quot` is Go's truncating division and no other |
| GoInt.QuotNegate | main.go:122 | truncation is symmetric: `(-a)/d == -(a/d)`, unlike Euclidean division |
| GoInt.QuotMonotone | main.go:122 | dividing by a positive constant preserves order |
| Policy.Interpolate | main.go:146 | the interior expression lies within the bounds when they are ordered; it is at most 39/40 of a unit per degree above the exact linear interpolation, on the side of the maximum (mirrored for reversed bounds) |
| Policy.CpuFrequency | main.go:125-135 | at or above 80 it is exactly the CPU minimum; at or below 40, exactly the CPU maximum (the 80 test comes first); inside, 1000 times the interpolation, hence within [1000·min, 1000·max] for ordered bounds |
| Policy.GpuFrequency | main.go:137-147 | at or above 80 it is exactly the GPU minimum; at or below 40, exactly the GPU maximum; inside, the unscaled interpolation; always within [min, max] for ordered bounds |
| Policy.InterpolateNonIncreasing | main.go:146 | with ordered bounds, the interior value never rises with temperature |
| Policy.GpuNonIncreasing | main.go:137-147 | with ordered bounds, the GPU ceiling is non-increasing over all temperatures |
| Policy.CpuNonIncreasingInWindow | main.go:134 | with ordered bounds, the CPU ceiling is non-increasing for 40 < t1 <= t2 < 80 |
| Policy.CpuRisesEnteringWindow | main.go:130-134 | since only the interior is scaled by 1000, the CPU ceiling at 41 exceeds the one at 40 for non-negative ordered bounds with a positive maximum |
| Policy.CpuNonIncreasingAboveFloor | main.go:125-135 | with non-negative ordered bounds, the CPU ceiling is non-increasing for all 40 < t1 <= t2, across the 80 clamp included |
| Policy.CpuWindowExample | main.go:125-135 | with bounds {800000, 3600000}: 40 gives 3600000, 80 gives 800000, and 60 gives 1000 × 2200000 |
| Policy.CpuMhzExample | main.go:125-135 | with the MHz bounds {800, 3600} that `lscpu` reports: 40 gives 3600, 80 gives 800, and 60 gives 2200000 (kHz) |
| Policy.PolicyFitsInt64 | main.go:134 | for bounds below 2^50 in magnitude, every intermediate and final value of both policies fits a 64-bit Go `int` |
| Sampler.CurrentTemperature | main.go:116-123 | a failed read gives 60 and does not fail; a successful read gives the millidegrees divided by 1000, truncated toward zero (bracketing stated for both signs) |
| Sampler.CurrentTemperatureMonotone | main.go:122 | a higher raw reading never converts to a lower temperature |
| Sampler.CurrentTemperatureSymmetric | main.go:122 | readings of equal magnitude on either side of zero give opposite temperatures |
| Sampler.DefaultInsideWindow | main.go:13-15 | the fallback temperature lies strictly inside the interpolation window |
| Control.Applied | main.go:95-114 | each recorded frequency becomes the proposal iff its change reaches the threshold (50000 for the CPU, 50 for the GPU), else stays; afterwards each recorded value is within its threshold of the proposal; temperature and interval untouched |
| Control.AppliedWrites | main.go:99-113 | a CPU (GPU) write carrying the proposed value is issued iff the CPU (GPU) change reaches its threshold; exactly one write per device that passes, CPU before GPU; no other writes |
| Control.NextTickerTime | main.go:48-51 | the interval grows by one or returns to 5, and stays within [5, 59] when it started there; from within that range it returns to 5 exactly when it was 59 |
| Control.Ticked | main.go:43-52 | a change of at least 2 degrees applies the frequencies, records the temperature and resets the interval to 5; a smaller one changes only the interval; afterwards the recorded temperature is within 2 degrees of the reading; the interval invariant is preserved |
| Control.TickWrites | main.go:43-44 | a tick whose temperature change is below 2 issues no write; one whose change reaches 2 issues exactly the writes of `applyFrequencies` |
| Control.AppliedIdempotent | main.go:99-113 | applying the same temperature twice: the second application changes nothing and issues no write |
| Control.RepeatedTemperatureWritesNothing | main.go:43-52 | two ticks with the same temperature: the second issues no write and leaves every recorded value unchanged |
| Control.RunKeepsTickerInRange | main.go:43-52 | every run of ticks keeps 5 <= interval <= 59 when it starts within it |
| Control.InitialRunTickerInRange | main.go:74 | from the state `init` leaves (interval 5, other globals 0), the interval stays within [5, 59] after any number of ticks |
| Control.StableRun | main.go:47-51 | under temperatures all within 2 degrees of the recorded one, nothing is recorded, `RunWrites` (the writes of every tick in turn) is empty, and after n ticks the interval is 5 + (start - 5 + n) mod 55 |
| Control.Controller.constructor | main.go:57-75 | the bounds are as discovered, the interval is 5, the other globals are 0, no write issued |
| Control.Controller.ApplyFrequencies | main.go:95-114 | the new globals are `Applied` of the old ones and the write log grows by `AppliedWrites`, whatever the writes report |
| Control.Controller.Tick | main.go:40-52 | the new globals are `Ticked` of the old ones at the converted reading; the log grows by `TickWrites`; the interval invariant is kept; on a material change the temperature is recorded and the interval is 5, otherwise the temperature, frequencies and log are unchanged |

## Left out

- `executeCommand` runs a shell command and parses its output as a float, then truncates it. Only its result is modelled: a `Reading` for the temperature, constructor arguments for the bounds, a success flag for writes.
- The discovery commands in `init` (`lscpu`, sysfs `cat`) are left out; their results are the constructor arguments, and may be 0 when discovery failed.
- `cpuFrequencyCommand` and `gpuFrequencyCommand` only format shell scripts; a write is modelled as the device and value it carries.
- `time.NewTicker` and the `select` loop are left out. The ticker is created once and never reset, so `tickerTime` is bookkeeping only; `Tick` models one firing, and no wall-clock timing is modelled.
- Logging, the shared global `err` and the service-installation comments have no effect on state and are left out.
- Go's `int`, assumed 64-bit here, is modelled as an unbounded integer; the 32-bit `int` of 32-bit targets is not modelled. `PolicyFitsInt64` shows the policy arithmetic cannot overflow for bounds below 2^50 in magnitude. Wrap-around for larger bounds, and `abs` of the most negative `int`, are not modelled.
- Policy.CpuNonIncreasingInWindow: assumes only ordered bounds and so covers the window alone; for non-negative bounds `CpuNonIncreasingAboveFloor` extends it to every temperature above 40, and the step from 40 to 41 rises because the clamp branches are not scaled (see `CpuRisesEnteringWindow`).
