/** `write_data`: the audio callback's body. It cuts the interleaved output
    buffer into consecutive frames of `channels` slots (the last frame may be
    shorter), asks the generator for one value per frame and writes that value
    into every slot of the frame. */
module FrameWriter {

  import opened Arithmetic
  import opened Generator

  function Min(a: nat, b: nat): nat
  {
    if a <= b then a else b
  }

  /** The number of chunks `chunks_mut(channels)` yields over `len` slots:
      one per full frame, and one more for a short remainder. An empty buffer
      has no chunk, any other at least one, and never more than it has
      slots. */
  function FrameCount(len: nat, channels: nat): (frames: nat)
    requires 0 < channels
    ensures frames <= len
    ensures 0 < len <==> 0 < frames
    decreases len
  {
    if len == 0 then 0
    else if len <= channels then 1
    else 1 + FrameCount(len - channels, channels)
  }

  /** The buffer after the callback, built the way `chunks_mut` visits it:
      the first frame holds the first value, the rest of the buffer is built
      from the remaining values. Nothing of the old contents survives. */
  function Spread(values: seq<Sample>, channels: nat, len: nat): (out: seq<Sample>)
    requires 0 < channels && |values| == FrameCount(len, channels)
    ensures |out| == len
    decreases len
  {
    if len == 0 then []
    else
      var width := Min(channels, len);
      seq(width, _ => values[0]) + Spread(values[1..], channels, len - width)
  }

  /** The frame count is the ceiling of `len / channels`: exactly
      `len / channels` when the frames divide the buffer, one more when the
      last frame is short. */
  lemma FrameCountIsCeiling(len: nat, channels: nat)
    requires 0 < channels
    ensures FrameCount(len, channels) == (len + channels - 1) / channels
    ensures len % channels == 0 ==> FrameCount(len, channels) == len / channels
    ensures len % channels != 0 ==> FrameCount(len, channels) == len / channels + 1
  {
    var q, r := len / channels, len % channels;
    Split(len, channels);
    FrameCountOfFull(q, r, channels);
    if r == 0 {
      DivMod(len + channels - 1, channels, q, channels - 1);
    } else {
      DivMod(len + channels - 1, channels, q + 1, r - 1);
    }
  }

  /** `q` full frames followed by a remainder of `r` slots give `q` frames,
      plus one when the remainder is not empty. */
  lemma {:induction false} FrameCountOfFull(q: nat, r: nat, channels: nat)
    requires r < channels
    ensures FrameCount(q * channels + r, channels) == if r == 0 then q else q + 1
  {
    if q > 0 {
      assert q * channels + r == (q - 1) * channels + r + channels;
      FrameCountOfFull(q - 1, r, channels);
    }
  }

  /** Every frame the callback visits starts inside the buffer: no generator
      call is spent on an empty frame. */
  lemma {:induction false} FrameStartsInside(len: nat, channels: nat, k: nat)
    requires 0 < channels && k < FrameCount(len, channels)
    ensures k * channels < len
  {
    if k > 0 {
      FrameStartsInside(len - channels, channels, k - 1);
      assert k * channels == (k - 1) * channels + channels;
    }
  }

  /** The frames cover the whole buffer: no slot is left unwritten. */
  lemma {:induction false} FramesCoverBuffer(len: nat, channels: nat)
    requires 0 < channels
    ensures len <= FrameCount(len, channels) * channels
  {
    if len > channels {
      FramesCoverBuffer(len - channels, channels);
      var f := FrameCount(len - channels, channels);
      assert (f + 1) * channels == f * channels + channels;
    }
  }

  /** Slot `i` of the filled buffer lies in frame `i / channels`, one of
      the frames the callback visits, and holds that frame's value. */
  lemma {:induction false} SpreadAt(values: seq<Sample>, channels: nat, len: nat, i: nat)
    requires 0 < channels && |values| == FrameCount(len, channels) && i < len
    ensures i / channels < |values| && Spread(values, channels, len)[i] == values[i / channels]
  {
    if i < channels {
      DivMod(i, channels, 0, i);
    } else {
      SpreadAt(values[1..], channels, len - channels, i - channels);
      DivShift(i - channels, channels);
    }
  }

  /** Two slots of the same frame hold the same value. */
  lemma SpreadFrameUniform(values: seq<Sample>, channels: nat, len: nat, i: nat, j: nat)
    requires 0 < channels && |values| == FrameCount(len, channels)
    requires i < len && j < len && i / channels == j / channels
    ensures Spread(values, channels, len)[i] == Spread(values, channels, len)[j]
  {
    SpreadAt(values, channels, len, i);
    SpreadAt(values, channels, len, j);
  }

  /** Frame `k`, the slots from `k * channels` up to `k * channels + channels`
      or the end of the buffer, is not empty and holds the `k`-th value. */
  lemma SpreadFrameValue(values: seq<Sample>, channels: nat, len: nat, k: nat)
    requires 0 < channels && |values| == FrameCount(len, channels) && k < |values|
    ensures k * channels < len
    ensures forall i :: k * channels <= i < len && i < k * channels + channels ==>
              Spread(values, channels, len)[i] == values[k]
  {
    FrameStartsInside(len, channels, k);
    var start := k * channels;
    forall i | start <= i < len && i < start + channels
      ensures Spread(values, channels, len)[i] == values[k]
    {
      SpreadAt(values, channels, len, i);
      SlotInFrame(i, k, channels, start);
    }
  }

  /** A slot between a frame's start and the next frame's start belongs to
      that frame. */
  lemma SlotInFrame(i: nat, k: nat, channels: nat, start: nat)
    requires 0 < channels && start == k * channels && start <= i < start + channels
    ensures i / channels == k
  {
    DivMod(i, channels, k, i - start);
  }

  /** The first `upto` slots of `buffer` each hold the value of their
      frame. */
  ghost predicate FilledUpTo(buffer: seq<Sample>, values: seq<Sample>, channels: nat, upto: nat)
    requires 0 < channels
  {
    forall i :: 0 <= i < upto && i < |buffer| ==>
      i / channels < |values| && buffer[i] == values[i / channels]
  }

  /** Writing the next value over the next frame, and nothing before it,
      extends the filled part by that frame. */
  lemma FillFrameStep(prev: seq<Sample>, cur: seq<Sample>, values: seq<Sample>, value: Sample,
                      channels: nat, start: nat)
    requires 0 < channels && start == |values| * channels && |cur| == |prev|
    requires FilledUpTo(prev, values, channels, start)
    requires forall i :: 0 <= i < start && i < |prev| ==> cur[i] == prev[i]
    requires forall i :: start <= i < start + channels && i < |cur| ==> cur[i] == value
    ensures FilledUpTo(cur, values + [value], channels, start + channels)
  {
    forall i | 0 <= i < start + channels && i < |cur|
      ensures i / channels < |values| + 1 && cur[i] == (values + [value])[i / channels]
    {
      if start <= i {
        SlotInFrame(i, |values|, channels, start);
      }
    }
  }

  /** A buffer whose every slot holds the value of its frame is the
      filled buffer. */
  lemma SpreadFromSlots(buffer: seq<Sample>, values: seq<Sample>, channels: nat, len: nat, upto: nat)
    requires 0 < channels && |values| == FrameCount(len, channels) && |buffer| == len <= upto
    requires FilledUpTo(buffer, values, channels, upto)
    ensures buffer == Spread(values, channels, len)
  {
    forall i | 0 <= i < len
      ensures buffer[i] == Spread(values, channels, len)[i]
    {
      SpreadAt(values, channels, len, i);
    }
  }

  /** The callback: one generator call per frame, in frame order, its value
      written into every slot of the frame. */
  method WriteData(output: array<Sample>, channels: nat, next: SampleClock)
    requires 0 < channels && next.Valid()
    modifies output, next
    ensures next.Valid()
    ensures next.clock == ClockAfter(old(next.clock), FrameCount(output.Length, channels), next.rate)
    ensures next.emitted == old(next.emitted)
              + Outputs(next.wave, old(next.clock), FrameCount(output.Length, channels), next.rate)
    ensures output[..] == Spread(Outputs(next.wave, old(next.clock), FrameCount(output.Length, channels), next.rate),
                                 channels, output.Length)
  {
    ghost var before, phase := next.emitted, next.clock;
    var len := output.Length;
    var frames := FrameCount(len, channels);
    var start := 0;
    for k := 0 to frames
      invariant start == k * channels
      invariant next.Valid()
      invariant next.clock == ClockAfter(phase, k, next.rate)
      invariant next.emitted == before + Outputs(next.wave, phase, k, next.rate)
      invariant FilledUpTo(output[..], Outputs(next.wave, phase, k, next.rate), channels, start)
    {
      FrameStartsInside(len, channels, k);
      var end := Min(start + channels, len);
      ghost var prev := output[..];
      var value := next.Next();
      for j := start to end
        modifies output
        invariant forall i :: 0 <= i < start ==> output[i] == prev[i]
        invariant forall i :: start <= i < j ==> output[i] == value
      {
        output[j] := value;
      }
      FillFrameStep(prev, output[..], Outputs(next.wave, phase, k, next.rate), value, channels, start);
      MulSucc(k, channels);
      start := start + channels;
    }
    FramesCoverBuffer(len, channels);
    SpreadFromSlots(output[..], Outputs(next.wave, phase, frames, next.rate), channels, len, start);
  }
}
