/** The clock controller: owns a TimingData and, once per engine callback, advances it and
    fires its onTick event once per counted tick. */
module Controllers {
  import opened Exceptions
  import opened Data

  /** Whether the per-frame Update callback advances the timing. */
  predicate UpdateAdvances(isRunning: bool, useFixedUpdate: bool)
  {
    isRunning && !useFixedUpdate
  }

  /** Whether the per-physics-step FixedUpdate callback advances the timing. */
  predicate FixedUpdateAdvances(isRunning: bool, useFixedUpdate: bool)
  {
    isRunning && useFixedUpdate
  }

  /** For a fixed configuration, at most one of the two callbacks advances the timing,
      and a running controller always has exactly one that does. */
  lemma AtMostOneCallbackAdvances(isRunning: bool, useFixedUpdate: bool)
    ensures !(UpdateAdvances(isRunning, useFixedUpdate)
              && FixedUpdateAdvances(isRunning, useFixedUpdate))
    ensures isRunning <==> UpdateAdvances(isRunning, useFixedUpdate)
                           || FixedUpdateAdvances(isRunning, useFixedUpdate)
  {
  }

  /** What one callback did: nothing, or advance the timing with the given outcome. */
  datatype Step = Skipped | Advanced(outcome: Proceeded)

  /** The number of onTick invocations a step leads to: the tick count the accumulator
      returned; none when it threw, was not reached, or did not return. */
  function Invocations(step: Step): (n: nat)
  {
    if step.Advanced? && step.outcome.Ticks? then step.outcome.count else 0
  }

  class ClockController {
    var timing: TimingData
    var isRunning: bool
    var useFixedUpdate: bool
    var unscaledTime: bool

    /** The declared initial state: one-second timing, running, variable-rate and scaled. */
    constructor ()
      ensures fresh(timing)
      ensures timing.tickTime == 1.0 && timing.elapsedTickTime == 0.0
      ensures isRunning && !useFixedUpdate && !unscaledTime
    {
      var one := TimingData.One();
      timing := one;
      isRunning := true;
      useFixedUpdate := false;
      unscaledTime := false;
    }

    /** The TickTime getter: reads through to the timing's tick time. */
    function TickTime(): real
      reads this, timing
    {
      timing.TickTime()
    }

    /** The TickTime setter: writes through to the timing's clamping setter. */
    method SetTickTime(value: real)
      modifies timing
      ensures TickTime() == ClampTickTime(value)
      ensures timing.elapsedTickTime == old(timing.elapsedTickTime)
    {
      timing.SetTickTime(value);
    }

    /** The IsRunning setter: a change of the flag stores it and resets the accumulated
        time; setting the current value changes nothing. */
    method SetIsRunning(value: bool)
      modifies this, timing
      ensures isRunning == value
      ensures timing == old(timing) && timing.tickTime == old(timing.tickTime)
      ensures useFixedUpdate == old(useFixedUpdate) && unscaledTime == old(unscaledTime)
      ensures old(isRunning) != value ==> timing.elapsedTickTime == 0.0
      ensures old(isRunning) == value ==> timing.elapsedTickTime == old(timing.elapsedTickTime)
    {
      if isRunning != value {
        timing.Reset();
        isRunning := value;
      }
    }

    /** The per-frame callback, given the frame's deltas (and the loop bound of the
        model): advances the timing by the variable-rate delta only when running and not
        in fixed-update mode, then fires onTick once per counted tick. */
    method Update(deltas: FrameDeltas, fuel: nat) returns (step: Step, invocations: nat)
      modifies timing
      ensures timing.tickTime == old(timing.tickTime)
      ensures !UpdateAdvances(isRunning, useFixedUpdate) ==>
        step == Skipped && timing.elapsedTickTime == old(timing.elapsedTickTime)
      ensures UpdateAdvances(isRunning, useFixedUpdate) ==>
        var (outcome, elapsed) := ProceedEffect(old(timing.tickTime),
          old(timing.elapsedTickTime), SelectDelta(deltas, false, unscaledTime), fuel);
        step == Advanced(outcome) && timing.elapsedTickTime == elapsed
      ensures invocations == Invocations(step)
    {
      step, invocations := Skipped, 0;
      if isRunning && !useFixedUpdate {
        var r := timing.ProceedUpdate(false, unscaledTime, deltas, fuel);
        step := Advanced(r);
        if r.Ticks? {
          invocations := FireTicks(r.count);
        }
      }
    }

    /** The per-physics-step callback: advances the timing by the fixed-step delta only
        when running and in fixed-update mode, then fires onTick once per counted tick. */
    method FixedUpdate(deltas: FrameDeltas, fuel: nat) returns (step: Step, invocations: nat)
      modifies timing
      ensures timing.tickTime == old(timing.tickTime)
      ensures !FixedUpdateAdvances(isRunning, useFixedUpdate) ==>
        step == Skipped && timing.elapsedTickTime == old(timing.elapsedTickTime)
      ensures FixedUpdateAdvances(isRunning, useFixedUpdate) ==>
        var (outcome, elapsed) := ProceedEffect(old(timing.tickTime),
          old(timing.elapsedTickTime), SelectDelta(deltas, true, unscaledTime), fuel);
        step == Advanced(outcome) && timing.elapsedTickTime == elapsed
      ensures invocations == Invocations(step)
    {
      step, invocations := Skipped, 0;
      if isRunning && useFixedUpdate {
        var r := timing.ProceedUpdate(true, unscaledTime, deltas, fuel);
        step := Advanced(r);
        if r.Ticks? {
          invocations := FireTicks(r.count);
        }
      }
    }
  }

  /** The dispatch loop: invokes onTick once for each of `ticks` ticks, counting the
      invocations. */
  method FireTicks(ticks: nat) returns (invocations: nat)
    ensures invocations == ticks
  {
    invocations := 0;
    for i := 0 to ticks
      invariant invocations == i
    {
      invocations := invocations + 1;
    }
  }
}
