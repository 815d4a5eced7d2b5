/** The tone generator of `run`: a phase counter that advances by one per
    generated sample and wraps at the sample rate, and a map from the phase to
    the sample value. The sine itself is floating-point numerics and is not
    modelled: `wave` stands for it and its values are treated as opaque. */
module Generator {

  import opened Arithmetic

  /** One output sample. The program's samples are 32-bit floats; this model
      only produces them from a phase and copies them into buffers. */
  type Sample = real

  /** One step of the phase counter: add one, then reduce modulo the rate. */
  function Advance(phase: nat, rate: nat): (next: nat)
    requires 0 < rate
    ensures next < rate
    ensures phase + 1 < rate ==> next == phase + 1
    ensures phase + 1 == rate ==> next == 0
  {
    (phase + 1) % rate
  }

  /** The phase after `calls` generator calls, starting from `phase`. It
      never leaves [0, rate) once it starts inside it. */
  function ClockAfter(phase: nat, calls: nat, rate: nat): (clock: nat)
    requires 0 < rate
    ensures phase < rate ==> clock < rate
  {
    if calls == 0 then phase else Advance(ClockAfter(phase, calls - 1, rate), rate)
  }

  /** The values produced by `calls` generator calls starting from `phase`,
      in the order they are produced: each call first advances the phase and
      then maps the new phase to a sample. */
  function Outputs(wave: nat -> Sample, phase: nat, calls: nat, rate: nat): (s: seq<Sample>)
    requires 0 < rate
    ensures |s| == calls
  {
    if calls == 0 then []
    else Outputs(wave, phase, calls - 1, rate) + [wave(ClockAfter(phase, calls, rate))]
  }

  /** Counting calls: `calls` steps from a phase inside the range land on
      the phase plus `calls`, reduced modulo the rate. */
  lemma {:induction false} ClockAfterIsSum(phase: nat, calls: nat, rate: nat)
    requires phase < rate
    ensures ClockAfter(phase, calls, rate) == (phase + calls) % rate
  {
    if calls > 0 {
      ClockAfterIsSum(phase, calls - 1, rate);
      ModSucc(phase + calls - 1, rate);
    }
  }

  /** From the initial phase 0, the counter is back at 0 exactly when the
      number of calls is a multiple of the rate. */
  lemma ClockZeroIff(calls: nat, rate: nat)
    requires 0 < rate
    ensures ClockAfter(0, calls, rate) == 0 <==> calls % rate == 0
  {
    ClockAfterIsSum(0, calls, rate);
  }

  /** The period of the counter is exactly the rate: it returns to 0 after
      `rate` calls and not before. */
  lemma ClockPeriod(rate: nat)
    requires 0 < rate
    ensures ClockAfter(0, rate, rate) == 0
    ensures forall k :: 0 < k < rate ==> ClockAfter(0, k, rate) != 0
  {
    ClockZeroIff(rate, rate);
    DivMod(rate, rate, 1, 0);
    forall k | 0 < k < rate
      ensures ClockAfter(0, k, rate) != 0
    {
      ClockZeroIff(k, rate);
      DivMod(k, rate, 0, k);
    }
  }

  /** The j-th value produced (counting from 0) is the sample of phase
      `phase + j + 1`, reduced modulo the rate. */
  lemma {:induction false} OutputsAt(wave: nat -> Sample, phase: nat, calls: nat, rate: nat, j: nat)
    requires phase < rate && j < calls
    ensures Outputs(wave, phase, calls, rate)[j] == wave((phase + j + 1) % rate)
  {
    if j < calls - 1 {
      OutputsAt(wave, phase, calls - 1, rate, j);
    } else {
      ClockAfterIsSum(phase, calls, rate);
    }
  }

  /** The produced values repeat with period `rate`. */
  lemma OutputsPeriodic(wave: nat -> Sample, phase: nat, calls: nat, rate: nat, j: nat)
    requires phase < rate && j + rate < calls
    ensures Outputs(wave, phase, calls, rate)[j] == Outputs(wave, phase, calls, rate)[j + rate]
  {
    OutputsAt(wave, phase, calls, rate, j);
    OutputsAt(wave, phase, calls, rate, j + rate);
    DivShift(phase + j + 1, rate);
  }

  /** The `next_value` closure of `run`: it owns the phase counter
      `sample_clock` and the sample rate it wraps at. `emitted` records every
      value it has returned, in order; the invariant ties that record and the
      counter to the number of calls made since the counter started at 0. */
  class SampleClock {
    const rate: nat
    const wave: nat -> Sample
    var clock: nat
    ghost var emitted: seq<Sample>

    ghost predicate Valid()
      reads this
    {
      0 < rate && clock < rate
      && clock == ClockAfter(0, |emitted|, rate)
      && emitted == Outputs(wave, 0, |emitted|, rate)
    }

    /** The counter starts at phase 0, before any value is produced. */
    constructor (rate: nat, wave: nat -> Sample)
      requires 0 < rate
      ensures Valid()
      ensures this.rate == rate && this.wave == wave
      ensures clock == 0 && emitted == []
    {
      this.rate := rate;
      this.wave := wave;
      clock := 0;
      emitted := [];
    }

    /** One call of the closure: advance the phase, then return the sample
        of the new phase. */
    method Next() returns (value: Sample)
      requires Valid()
      modifies this
      ensures Valid()
      ensures clock == Advance(old(clock), rate)
      ensures value == wave(clock)
      ensures emitted == old(emitted) + [value]
    {
      clock := (clock + 1) % rate;
      value := wave(clock);
      emitted := emitted + [value];
    }
  }

  /** Over the generator's whole life, not just one callback, the values it
      has returned repeat with period `rate`. */
  lemma EmittedPeriodic(g: SampleClock, j: nat)
    requires g.Valid() && j + g.rate < |g.emitted|
    ensures g.emitted[j] == g.emitted[j + g.rate]
  {
    OutputsPeriodic(g.wave, 0, |g.emitted|, g.rate, j);
  }
}
