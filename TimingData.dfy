/** The tick accumulator: a tick length and the carried remainder of elapsed time. */
module Data {
  import opened Exceptions

  /** Single-precision float.Epsilon, the smallest positive float: exactly 2^-149. */
  const EPS: real := 0.00000000000000000000000000000000000000000000140129846432481707092372958328991613128026194187651577175706828388979108268586060148663818836212158203125

  /** The least tick time the TickTime setter lets through: float.Epsilon + float.Epsilon. */
  const MinTickTime: real := EPS + EPS

  /** The TickTime setter's clamp, Mathf.Max(value, MinTickTime): the larger of the two. */
  function ClampTickTime(value: real): (r: real)
    ensures r >= value && r >= MinTickTime
    ensures r == value || r == MinTickTime
  {
    if value > MinTickTime then value else MinTickTime
  }

  /** What one call of ProceedTime does. Because the source's loop need not terminate,
      the model bounds it by `fuel` iterations: OutOfFuel(n) means the loop guard still
      held after n iterations, where the source would have gone on looping. */
  datatype Proceeded = Ticks(count: nat) | Threw(error: TimingException) | OutOfFuel(count: nat)

  /** The effect of ProceedTime(time) on a value with fields (tickTime, elapsed), the
      loop being allowed at most `fuel` iterations: the outcome and the new elapsedTickTime.
      A valid tick time and a positive time either overshoot the tick time, so that the
      loop is skipped and no tick is counted, or leave the remainder at most the tick time,
      so that the loop only ever makes the remainder smaller and never exits. */
  function ProceedEffect(tickTime: real, elapsed: real, time: real, fuel: nat): (r: (Proceeded, real))
  {
    if tickTime <= EPS then (Threw(TimingException(tickTime)), elapsed)
    else if time <= 0.0 then (Ticks(0), elapsed)
    else if elapsed + time > tickTime then (Ticks(0), elapsed + time)
    else (OutOfFuel(fuel), elapsed + time - fuel as real * tickTime)
  }

  /** The counter and the remainder after the loop of ProceedTime. */
  datatype LoopState = LoopState(ret: nat, elapsed: real)

  /** The loop of ProceedTime executed statement by statement: while the remainder is at
      most the tick time, subtract one tick time and count one tick; at most `fuel` times. */
  function Run(elapsed: real, tickTime: real, fuel: nat): (s: LoopState)
    decreases fuel
  {
    if fuel == 0 || !(elapsed <= tickTime) then LoopState(0, elapsed)
    else
      var s := Run(elapsed - tickTime, tickTime, fuel - 1);
      LoopState(s.ret + 1, s.elapsed)
  }

  /** Once entered, the loop never exits: each of any number n of iterations is taken,
      the remainder drops by n tick times, and the guard still holds afterwards. */
  lemma {:induction false} GuardNeverFails(elapsed: real, tickTime: real, n: nat)
    requires tickTime > 0.0 && elapsed <= tickTime
    ensures Run(elapsed, tickTime, n) == LoopState(n, elapsed - n as real * tickTime)
    ensures Run(elapsed, tickTime, n).elapsed <= tickTime
    decreases n
  {
    if n > 0 {
      GuardNeverFails(elapsed - tickTime, tickTime, n - 1);
    }
  }

  /** The loop ends with its guard false, within any bound, exactly when it is never
      entered; and then it counts nothing and leaves the remainder alone. */
  lemma LoopExitsIffSkipped(elapsed: real, tickTime: real, n: nat)
    requires tickTime > 0.0
    ensures Run(elapsed, tickTime, n).elapsed > tickTime <==> elapsed > tickTime
    ensures elapsed > tickTime ==> Run(elapsed, tickTime, n) == LoopState(0, elapsed)
  {
    if elapsed <= tickTime {
      GuardNeverFails(elapsed, tickTime, n);
    }
  }

  /** ProceedEffect is what running the source's statements one by one yields:
      the remainder is increased by time, then the loop runs. */
  lemma ProceedEffectIsLoop(tickTime: real, elapsed: real, time: real, fuel: nat)
    requires tickTime > EPS && time > 0.0
    ensures var s := Run(elapsed + time, tickTime, fuel);
      ProceedEffect(tickTime, elapsed, time, fuel)
        == (if s.elapsed <= tickTime then OutOfFuel(s.ret) else Ticks(s.ret), s.elapsed)
  {
    LoopExitsIffSkipped(elapsed + time, tickTime, fuel);
    if elapsed + time <= tickTime {
      GuardNeverFails(elapsed + time, tickTime, fuel);
    }
  }

  /** ProceedTime never returns a positive tick count: it throws, returns 0, or does not
      return at all. */
  lemma NeverCountsATick(tickTime: real, elapsed: real, time: real, fuel: nat)
    ensures ProceedEffect(tickTime, elapsed, time, fuel).0.Ticks?
      ==> ProceedEffect(tickTime, elapsed, time, fuel).0.count == 0
  {
  }

  /** With tick time 1 and nothing carried, ProceedTime(0.5) does not return: after any
      number n of iterations the guard still holds and the remainder is 0.5 - n. */
  lemma HalfTickNeverReturns(n: nat)
    ensures Run(0.0 + 0.5, 1.0, n) == LoopState(n, 0.5 - n as real)
    ensures ProceedEffect(1.0, 0.0, 0.5, n) == (OutOfFuel(n), 0.5 - n as real)
  {
    GuardNeverFails(0.5, 1.0, n);
  }

  /** With tick time 2 and nothing carried, ProceedTime(5) counts no tick at all and
      carries the whole 5 as remainder. */
  lemma LargeDeltaCountsNothing(fuel: nat)
    ensures Run(0.0 + 5.0, 2.0, fuel) == LoopState(0, 5.0)
    ensures ProceedEffect(2.0, 0.0, 5.0, fuel) == (Ticks(0), 5.0)
  {
  }

  // ----- A corrected accumulator (a deviation from the source: guard `>=`) -----

  /** Ticks counted and remainder left by the corrected loop. */
  datatype Drained = Drained(ticks: nat, rest: real)

  /** n tick times of length t, added up one by one. */
  function Times(n: nat, t: real): (r: real)
    decreases n
  {
    if n == 0 then 0.0 else Times(n - 1, t) + t
  }

  /** n tick times added up are n * t. */
  lemma {:induction false} TimesIsProduct(n: nat, t: real)
    ensures Times(n, t) == n as real * t
    decreases n
  {
    if n > 0 {
      TimesIsProduct(n - 1, t);
      assert (n - 1) as real * t + t == n as real * t;
    }
  }

  /** a + b tick times are a tick times followed by b tick times. */
  lemma {:induction false} TimesAdd(a: nat, b: nat, t: real)
    ensures Times(a + b, t) == Times(a, t) + Times(b, t)
    decreases b
  {
    if b > 0 {
      TimesAdd(a, b - 1, t);
    }
  }

  /** The corrected loop: while the remainder is at least the tick time, subtract one tick
      time and count one tick. The ticks and the remainder decompose the input, the
      remainder is below one tick, it is not negative when the input is not, and no tick
      is counted exactly when the input is below one tick time. */
  function Drain(elapsed: real, tickTime: real): (d: Drained)
    requires tickTime > 0.0
    ensures Times(d.ticks, tickTime) + d.rest == elapsed
    ensures d.rest < tickTime
    ensures elapsed >= 0.0 ==> d.rest >= 0.0
    ensures d.ticks == 0 <==> elapsed < tickTime
    decreases (elapsed / tickTime).Floor
  {
    if elapsed >= tickTime then
      DivideShift(elapsed, tickTime);
      var d := Drain(elapsed - tickTime, tickTime);
      Drained(d.ticks + 1, d.rest)
    else
      Drained(0, elapsed)
  }

  /** Dividing by t and multiplying back by t gives x again. */
  lemma QuotientTimesDivisor(x: real, t: real)
    requires t > 0.0
    ensures (x / t) * t == x
  {
  }

  /** Two reals with the same product by a positive t are equal. */
  lemma CancelFactor(a: real, b: real, t: real)
    requires t > 0.0 && a * t == b * t
    ensures a == b
  {
    assert (a - b) * t == 0.0;
  }

  /** Removing one t from x lowers x / t by exactly one. */
  lemma DivideShift(x: real, t: real)
    requires t > 0.0
    ensures (x - t) / t == x / t - 1.0
  {
    QuotientTimesDivisor(x, t);
    QuotientTimesDivisor(x - t, t);
    assert (x / t - 1.0) * t == x - t;
    CancelFactor((x - t) / t, x / t - 1.0, t);
  }

  /** A quotient of a remainder in [0, t) by t lies in [0, 1). */
  lemma FractionBelowOne(r: real, t: real)
    requires t > 0.0 && 0.0 <= r < t
    ensures 0.0 <= r / t < 1.0
  {
    QuotientTimesDivisor(r, t);
    FactorBounds(r / t, t);
  }

  /** A factor whose product with a positive t lies in [0, t) itself lies in [0, 1). */
  lemma FactorBounds(q: real, t: real)
    requires t > 0.0 && 0.0 <= q * t < t
    ensures 0.0 <= q < 1.0
  {
  }

  /** A decomposition x == n * t + r with 0 <= r < t makes n the floor of x / t. */
  lemma FloorOfDecomposition(x: real, t: real, n: nat, r: real)
    requires t > 0.0 && 0.0 <= r < t
    requires Times(n, t) + r == x
    ensures (x / t).Floor == n
  {
    TimesIsProduct(n, t);
    QuotientTimesDivisor(x, t);
    QuotientTimesDivisor(r, t);
    assert (n as real + r / t) * t == x;
    CancelFactor(x / t, n as real + r / t, t);
    FractionBelowOne(r, t);
  }

  /** On a non-negative remainder the corrected loop counts floor(elapsed / tickTime)
      ticks, and leaves elapsed - ticks * tickTime, which lies in [0, tickTime). */
  lemma DrainIsFloor(elapsed: real, tickTime: real)
    requires tickTime > 0.0 && elapsed >= 0.0
    ensures Drain(elapsed, tickTime).ticks == (elapsed / tickTime).Floor
    ensures Drain(elapsed, tickTime).rest
      == elapsed - Drain(elapsed, tickTime).ticks as real * tickTime
    ensures 0.0 <= Drain(elapsed, tickTime).rest < tickTime
  {
    var d := Drain(elapsed, tickTime);
    TimesIsProduct(d.ticks, tickTime);
    FloorOfDecomposition(elapsed, tickTime, d.ticks, d.rest);
  }

  /** The effect of the corrected ProceedTime(time): the same checks as the source, then
      the corrected loop. */
  function CorrectedEffect(tickTime: real, elapsed: real, time: real): (r: (Proceeded, real))
  {
    if tickTime <= EPS then (Threw(TimingException(tickTime)), elapsed)
    else if time <= 0.0 then (Ticks(0), elapsed)
    else
      var d := Drain(elapsed + time, tickTime);
      (Ticks(d.ticks), d.rest)
  }

  /** Sum of a sequence of time deltas. */
  function Sum(deltas: seq<real>): (r: real)
  {
    if deltas == [] then 0.0 else deltas[0] + Sum(deltas[1..])
  }

  /** Ticks counted in total, and the final remainder, when the corrected accumulator is
      advanced by each delta in turn. */
  function Accumulate(tickTime: real, elapsed: real, deltas: seq<real>): (d: Drained)
    requires tickTime > EPS
    decreases deltas
  {
    if deltas == [] then Drained(0, elapsed)
    else
      var step := CorrectedEffect(tickTime, elapsed, deltas[0]);
      var d := Accumulate(tickTime, step.1, deltas[1..]);
      Drained(step.0.count + d.ticks, d.rest)
  }

  /** Advancing the corrected accumulator by a sequence of non-negative deltas, from a
      remainder in [0, tickTime), counts ticks whose tick times and the final remainder
      make up the first remainder plus the sum of the deltas; the final remainder again
      lies in [0, tickTime). */
  lemma {:induction false} AccumulateDecomposes(tickTime: real, elapsed: real, deltas: seq<real>)
    requires tickTime > EPS && 0.0 <= elapsed < tickTime
    requires forall i :: 0 <= i < |deltas| ==> deltas[i] >= 0.0
    ensures Times(Accumulate(tickTime, elapsed, deltas).ticks, tickTime)
      + Accumulate(tickTime, elapsed, deltas).rest == elapsed + Sum(deltas)
    ensures 0.0 <= Accumulate(tickTime, elapsed, deltas).rest < tickTime
    decreases deltas
  {
    if deltas != [] {
      var step := CorrectedEffect(tickTime, elapsed, deltas[0]);
      var tail := Accumulate(tickTime, step.1, deltas[1..]);
      AccumulateDecomposes(tickTime, step.1, deltas[1..]);
      TimesAdd(step.0.count, tail.ticks, tickTime);
    }
  }

  /** Advancing the corrected accumulator by a sequence of non-negative deltas that add up
      to S, from a remainder in [0, tickTime), counts floor((remainder + S) / tickTime)
      ticks in total. */
  lemma AccumulateIsFloor(tickTime: real, elapsed: real, deltas: seq<real>)
    requires tickTime > EPS && 0.0 <= elapsed < tickTime
    requires forall i :: 0 <= i < |deltas| ==> deltas[i] >= 0.0
    ensures Accumulate(tickTime, elapsed, deltas).ticks
      == ((elapsed + Sum(deltas)) / tickTime).Floor
  {
    var d := Accumulate(tickTime, elapsed, deltas);
    AccumulateDecomposes(tickTime, elapsed, deltas);
    FloorOfDecomposition(elapsed + Sum(deltas), tickTime, d.ticks, d.rest);
  }

  /** With the corrected guard, tick time 1 and nothing carried, ProceedTime(0.5) twice
      counts no tick and then one tick, leaving nothing carried; tick time 2 and
      ProceedTime(5) counts two ticks and carries 1. */
  lemma CorrectedExamples()
    ensures CorrectedEffect(1.0, 0.0, 0.5) == (Ticks(0), 0.5)
    ensures CorrectedEffect(1.0, 0.5, 0.5) == (Ticks(1), 0.0)
    ensures CorrectedEffect(2.0, 0.0, 5.0) == (Ticks(2), 1.0)
  {
  }

  /** The four per-frame time deltas the engine offers: scaled or unscaled, of a rendered
      frame or of a fixed physics step. */
  datatype FrameDeltas = FrameDeltas(
    deltaTime: real, unscaledDeltaTime: real,
    fixedDeltaTime: real, fixedUnscaledDeltaTime: real)

  /** The delta ProceedUpdate feeds to ProceedTime. */
  function SelectDelta(deltas: FrameDeltas, useFixedUpdate: bool, isUnscaled: bool): (r: real)
  {
    if useFixedUpdate then
      (if isUnscaled then deltas.fixedUnscaledDeltaTime else deltas.fixedDeltaTime)
    else
      (if isUnscaled then deltas.unscaledDeltaTime else deltas.deltaTime)
  }

  /** The timing data: a tick time and the elapsed time not yet turned into ticks.
      No invariant is imposed on the fields: a default or deserialised value may hold any
      tick time, which is why ProceedTime checks it again. */
  class TimingData {
    var tickTime: real
    var elapsedTickTime: real

    /** The default value every struct starts as: both fields zero. */
    constructor Default()
      ensures tickTime == 0.0 && elapsedTickTime == 0.0
    {
      tickTime := 0.0;
      elapsedTickTime := 0.0;
    }

    /** The validating constructor: rejects a tick time of at most EPS with a
        TimingException carrying it; otherwise stores it with nothing elapsed. */
    static method Create(tickTime: real) returns (r: Result<TimingData>)
      ensures r.Failure? <==> tickTime <= EPS
      ensures r.Failure? ==> r.error == TimingException(tickTime)
      ensures r.Success? ==>
        fresh(r.value) && r.value.tickTime == tickTime && r.value.elapsedTickTime == 0.0
    {
      if tickTime <= EPS {
        return Failure(TimingException(tickTime));
      }
      var t := new TimingData.Default();
      t.tickTime := tickTime;
      t.elapsedTickTime := 0.0;
      return Success(t);
    }

    /** One-second timing: a fresh value with tick time 1 and nothing elapsed. */
    static method One() returns (t: TimingData)
      ensures fresh(t) && t.tickTime == 1.0 && t.elapsedTickTime == 0.0
    {
      var r := Create(1.0);
      t := r.value;
    }

    /** The copy constructor: an independent value with both fields equal to the source's. */
    constructor Copy(timingData: TimingData)
      ensures tickTime == timingData.tickTime
      ensures elapsedTickTime == timingData.elapsedTickTime
    {
      tickTime := timingData.tickTime;
      elapsedTickTime := timingData.elapsedTickTime;
    }

    /** The TickTime getter. */
    function TickTime(): real
      reads this
    {
      tickTime
    }

    /** The TickTime setter: never fails, stores the value clamped up to MinTickTime and
        leaves the elapsed time alone. */
    method SetTickTime(value: real)
      modifies this
      ensures tickTime == ClampTickTime(value)
      ensures elapsedTickTime == old(elapsedTickTime)
    {
      tickTime := ClampTickTime(value);
    }

    /** The ElapsedTickTime getter. */
    function ElapsedTickTime(): real
      reads this
    {
      elapsedTickTime
    }

    /** Adds time to the remainder and counts ticks, the loop bounded by `fuel` iterations.
        Throws, changing nothing, when the tick time is at most EPS; changes nothing for a
        time that is not positive; otherwise the outcome is ProceedEffect's. */
    method ProceedTime(time: real, fuel: nat) returns (r: Proceeded)
      modifies this
      ensures tickTime == old(tickTime)
      ensures (r, elapsedTickTime) == ProceedEffect(old(tickTime), old(elapsedTickTime), time, fuel)
    {
      var ret: nat := 0;
      if tickTime <= EPS {
        return Threw(TimingException(tickTime));
      }
      if time > 0.0 {
        elapsedTickTime := elapsedTickTime + time;
        ghost var start := elapsedTickTime;
        while elapsedTickTime <= tickTime && ret < fuel
          invariant tickTime == old(tickTime)
          invariant ret <= fuel
          invariant elapsedTickTime == start - ret as real * tickTime
          invariant start > tickTime ==> ret == 0
          invariant start <= tickTime ==> elapsedTickTime <= tickTime
          decreases fuel - ret
        {
          elapsedTickTime := elapsedTickTime - tickTime;
          ret := ret + 1;
        }
        if elapsedTickTime <= tickTime {
          return OutOfFuel(ret);
        }
      }
      return Ticks(ret);
    }

    /** ProceedTime applied to the delta the two flags select. */
    method ProceedUpdate(useFixedUpdate: bool, isUnscaled: bool, deltas: FrameDeltas, fuel: nat)
      returns (r: Proceeded)
      modifies this
      ensures tickTime == old(tickTime)
      ensures (r, elapsedTickTime) == ProceedEffect(old(tickTime), old(elapsedTickTime),
        SelectDelta(deltas, useFixedUpdate, isUnscaled), fuel)
    {
      r := ProceedTime(SelectDelta(deltas, useFixedUpdate, isUnscaled), fuel);
    }

    /** Forgets the remainder; the tick time stays. */
    method Reset()
      modifies this
      ensures elapsedTickTime == 0.0
      ensures tickTime == old(tickTime)
    {
      elapsedTickTime := 0.0;
    }

    /** A deviation from the source: ProceedTime with the loop guard `>=`, which terminates.
        For a positive time with elapsed + time >= 0 it counts floor((elapsed + time) /
        tickTime) ticks and leaves a remainder in [0, tickTime) (see DrainIsFloor). */
    method ProceedTimeCorrected(time: real) returns (r: Proceeded)
      modifies this
      ensures tickTime == old(tickTime)
      ensures (r, elapsedTickTime) == CorrectedEffect(old(tickTime), old(elapsedTickTime), time)
    {
      var ret: nat := 0;
      if tickTime <= EPS {
        return Threw(TimingException(tickTime));
      }
      if time > 0.0 {
        elapsedTickTime := elapsedTickTime + time;
        ghost var start := elapsedTickTime;
        while elapsedTickTime >= tickTime
          invariant tickTime == old(tickTime)
          invariant Drain(elapsedTickTime, tickTime).ticks + ret == Drain(start, tickTime).ticks
          invariant Drain(elapsedTickTime, tickTime).rest == Drain(start, tickTime).rest
          decreases Drain(elapsedTickTime, tickTime).ticks
        {
          elapsedTickTime := elapsedTickTime - tickTime;
          ret := ret + 1;
        }
      }
      return Ticks(ret);
    }
  }
}
