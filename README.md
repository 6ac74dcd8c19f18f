# UnityTiming tick accumulator, modelled in Dafny

UnityTiming counts fixed-length "ticks" in a stream of frame deltas. `TimingData` holds a
tick time and the elapsed time not yet turned into ticks. `ProceedTime(time)` adds a delta
and returns the number of ticks. `ClockControllerScript` owns one `TimingData`. When running,
it advances the accumulator from the per-frame `Update` callback or from the per-physics-step
`FixedUpdate` callback, and fires its `onTick` event once per tick.

Files:

- `TimingException.dfy` (module `Exceptions`): the `TimingException` error, which carries the
  offending tick time, and a `Result` type for operations that may throw it.
- `TimingData.dfy` (module `Data`): the `TimingData` class with its constructors, setter,
  `ProceedTime`, `ProceedUpdate` and `Reset`. It also holds the specification functions for
  the loop (`ProceedEffect`, the closed form, and `Run`, the loop as executed step by step),
  the lemmas about them, and a separately named corrected accumulator.
- `ClockController.dfy` (module `Controllers`): the `ClockController` class. It models the
  `TickTime` and `IsRunning` properties, and the gating and tick dispatch of `Update` and
  `FixedUpdate`.

Floats are modelled as `real`. `float.Epsilon` is the constant `EPS`, exactly 2^-149. The
proofs use only that `EPS` is positive and well below 1.

## What the accumulator really does

Once `ProceedTime` reaches its loop, the loop keeps going while the remainder is **at most**
the tick time. Each iteration takes a positive tick time off the remainder, so
the guard can never become false. For a valid tick time and a positive `time` there are
only two outcomes:

- If the old remainder plus `time` exceeds the tick time, the loop is skipped. The call
  returns 0 and the remainder grows by `time`.
- Otherwise the loop never ends.

The `<=` guard is not an off-by-one. An exact multiple of the tick time does not count an
extra tick, and tick time 2 with a delta of 5 does not give 2 ticks: the code counts no tick
at all (`Data.LargeDeltaCountsNothing`, `Data.HalfTickNeverReturns`). To keep `ProceedTime`
a terminating method, it takes a `fuel` bound on loop iterations. It returns `OutOfFuel(n)`
when the guard still holds after `n` iterations. `Data.GuardNeverFails` proves that this
happens for every `n`.

`Data.TimingData.ProceedTimeCorrected` is a deviation from the source. It uses the guard
`>=` and terminates. For a positive `time` and a non-negative remainder plus `time`, it
counts `floor((remainder + time) / tickTime)` ticks (`Data.DrainIsFloor`). Starting from a
remainder in `[0, tickTime)`, over any sequence of non-negative deltas, it counts
`floor((remainder + sum) / tickTime)` ticks in total (`Data.AccumulateIsFloor`). A larger
starting remainder, such as the 5 the as-written code leaves with tick time 2, or a negative
total, is outside these statements. The controller keeps calling the as-written
`ProceedTime`, because it models the controller's code as written.

## Model

| member | source | states |
|---|---|---|
| `Data.ClampTickTime` | Scripts/Data/TimingData.cs:36 | the clamped tick time is at least both the value and 2·EPS, and equals one of them (Mathf.Max) |
| `Data.TimingData.SetTickTime` | Scripts/Data/TimingData.cs:34-37 | the setter never fails, stores the clamped value and leaves the elapsed time unchanged |
| `Data.TimingData.Default` | Scripts/Data/TimingData.cs:20-26 | a default struct value has both fields zero, so its tick time fails ProceedTime's check |
| `Data.TimingData.Create` | Scripts/Data/TimingData.cs:54-62 | fails exactly when tickTime <= EPS, with a TimingException carrying that value; otherwise yields a fresh value with that tick time and nothing elapsed |
| `Data.TimingData.One` | Scripts/Data/TimingData.cs:48 | a fresh value with tick time 1 and nothing elapsed |
| `Data.TimingData.Copy` | Scripts/Data/TimingData.cs:68-72 | the copy has both fields equal to its source's |
| `Data.TimingData.ProceedTime` | Scripts/Data/TimingData.cs:79-96 | tick time never changes, and the outcome and new remainder are those of the closed form `Data.ProceedEffect`. With tickTime <= EPS it throws that tick time and leaves the elapsed time unchanged. With time <= 0 it returns 0 and changes nothing. If elapsed + time > tickTime it returns 0 and adds time. Otherwise the guard still holds once the loop bound is used up. The loop invariant is elapsed == start - ret·tickTime |
| `Data.TimingData.ProceedUpdate` | Scripts/Data/TimingData.cs:105-108 | ProceedTime applied to the one of the four frame deltas that the two flags select, as `Data.SelectDelta` picks it (line 107) |
| `Data.TimingData.Reset` | Scripts/Data/TimingData.cs:113-116 | the elapsed time becomes 0 and the tick time is unchanged |
| `Data.GuardNeverFails` | Scripts/Data/TimingData.cs:89-93 | once the guard holds with a positive tick time, every one of any number n of iterations runs, the remainder drops by n tick times, and the guard still holds |
| `Data.LoopExitsIffSkipped` | Scripts/Data/TimingData.cs:89-93 | the loop ends with its guard false exactly when it was never entered, and then it neither counts nor changes the remainder |
| `Data.ProceedEffectIsLoop` | Scripts/Data/TimingData.cs:86-93 | the closed form `Data.ProceedEffect` that ProceedTime is specified by agrees with `Data.Run`, the loop run statement by statement (lines 89-93), for every loop bound |
| `Data.NeverCountsATick` | Scripts/Data/TimingData.cs:81-95 | whenever ProceedTime returns a tick count, that count is 0 |
| `Data.HalfTickNeverReturns` | Scripts/Data/TimingData.cs:88-93 | with tick time 1 and nothing carried, ProceedTime(0.5) still loops after any number of iterations |
| `Data.LargeDeltaCountsNothing` | Scripts/Data/TimingData.cs:88-93 | with tick time 2 and nothing carried, ProceedTime(5) returns 0 and carries 5 |
| `Data.Drain` | Scripts/Data/TimingData.cs:89-93 | corrected loop: the ticks and the remainder make up the input; the remainder is below one tick and not negative for a non-negative input; no tick iff the input is below one tick |
| `Data.DrainIsFloor` | Scripts/Data/TimingData.cs:89-93 | corrected loop on a non-negative input counts floor(input / tickTime) ticks and leaves input - ticks·tickTime, in [0, tickTime) |
| `Data.TimingData.ProceedTimeCorrected` | Scripts/Data/TimingData.cs:79-96 | corrected ProceedTime: same error and non-positive-time behaviour as the source, then the terminating corrected loop |
| `Data.AccumulateDecomposes` | Scripts/Data/TimingData.cs:79-96 | over a sequence of non-negative deltas the corrected accumulator's total ticks and final remainder make up the first remainder plus the sum, with the remainder kept in [0, tickTime) |
| `Data.AccumulateIsFloor` | Scripts/Data/TimingData.cs:79-96 | from a remainder in [0, tickTime), over a sequence of non-negative deltas, the corrected accumulator counts floor((remainder + sum) / tickTime) ticks in total |
| `Data.CorrectedExamples` | Scripts/Data/TimingData.cs:89-93 | corrected accumulator: 0.5 then 0.5 with tick time 1 gives 0 then 1 tick and nothing carried; 5 with tick time 2 gives 2 ticks and carries 1 |
| `Controllers.ClockController.constructor` | Scripts/Controllers/ClockControllerScript.cs:19-37 | initial state: fresh timing with tick time 1 and nothing elapsed, running, not fixed-update, not unscaled |
| `Controllers.ClockController.SetTickTime` | Scripts/Controllers/ClockControllerScript.cs:48-52 | the TickTime property reads and writes through to the timing, so a written value reads back clamped; elapsed time unchanged |
| `Controllers.ClockController.SetIsRunning` | Scripts/Controllers/ClockControllerScript.cs:57-68 | a new flag value is stored and resets the elapsed time; the same value changes nothing; the tick time and other flags are untouched |
| `Controllers.ClockController.Update` | Scripts/Controllers/ClockControllerScript.cs:73-83 | advances the timing only when running and not fixed-update, by the variable-rate delta, with ProceedTime's effect; otherwise the timing is untouched; onTick fires as many times as ticks were returned |
| `Controllers.ClockController.FixedUpdate` | Scripts/Controllers/ClockControllerScript.cs:88-98 | advances the timing only when running and fixed-update, by the fixed-step delta; otherwise the timing is untouched; onTick fires as many times as ticks were returned |
| `Controllers.FireTicks` | Scripts/Controllers/ClockControllerScript.cs:78-81 | the dispatch loop invokes onTick exactly as many times as the tick count |
| `Controllers.AtMostOneCallbackAdvances` | Scripts/Controllers/ClockControllerScript.cs:75-90 | for one configuration at most one of Update and FixedUpdate advances the timing, and one does iff the controller is running |

## Left out

- Data.TimingData.ProceedTime: the source's loop does not terminate once entered. The model
  bounds it by a `fuel` parameter and reports `OutOfFuel`. It does not model the hang
  itself, or the `int` overflow of the tick counter during it.
- Data.TimingData.ProceedUpdate: the engine's `Time.deltaTime`, `unscaledDeltaTime`,
  `fixedDeltaTime` and `fixedUnscaledDeltaTime` are sampled at run time. Here they are
  passed in as a `FrameDeltas` value.
- Controllers.ClockController.Update and FixedUpdate: `UnityEvent.Invoke` is not modelled;
  the number of invocations is returned instead. An exception thrown by `ProceedTime`
  appears as the outcome `Threw`, with no invocations.
- Single-precision float arithmetic (rounding, subnormals, NaN and infinity through
  `Mathf.Max` and `+=`) is not modelled: values are exact reals.
- `TimingData` is a C# struct, but here it is a class. The controller owns its object
  exclusively, and `Copy` and `One` make fresh objects. The model does not cover copying on
  assignment or how aliasing differs from value semantics.
- The getters `TimingData.TickTime`, `TimingData.ElapsedTickTime` and the controller's `TickTime` are modelled as functions that read the fields; the `IsRunning` getter is the field `isRunning` read directly.
- Engine lifecycle, serialisation attributes, and the inspector-only `Range` attribute on
  the tick time are not modelled. The `Range` attribute is not enforced by code, so no
  invariant is imposed on the fields.
- The exception's message text and its base class are not modelled; only the carried tick
  time is.

## Findings

| source | as written | input that shows it | evidently intended | confidence | as-written member | corrected member |
|---|---|---|---|---|---|---|
| Scripts/Data/TimingData.cs:89 | the loop runs while the remainder is at most the tick time, so once entered it never exits, and otherwise it counts 0 | tick time 1, nothing carried, ProceedTime(0.5) never returns; tick time 2, ProceedTime(5) returns 0 | loop while the remainder is at least the tick time, counting floor(total / tickTime) ticks and keeping the remainder in [0, tickTime) | high (proved; not executed) | `Data.HalfTickNeverReturns` | `Data.TimingData.ProceedTimeCorrected` |
