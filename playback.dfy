/** How `main` and `run` tie the pieces together: the selected
    configuration fixes the generator's rate and the callback's channel
    count, and the generator starts at phase 0. Device discovery, stream
    construction and the audio driver are outside the model; one callback
    period stands for the driver's repeated calls. */
module Playback {

  import opened Generator
  import opened FrameWriter
  import opened ConfigSelection

  /** Select a configuration, build the generator for its rate, and fill
      one output period the way the first callback does. When no range
      matches, nothing is built and the period is untouched. */
  method Run(ranges: seq<ConfigRange>, wave: nat -> Sample, period: array<Sample>)
    returns (config: Option<SupportedConfig>)
    modifies period
    ensures config == SelectConfig(ranges)
    ensures config.None? ==> period[..] == old(period[..])
    ensures config.Some? ==>
              period[..] == Spread(Outputs(wave, 0, FrameCount(period.Length, 2), TargetRate), 2, period.Length)
  {
    config := SelectConfig(ranges);
    if config.Some? {
      var sampleRate := config.value.sampleRate;
      var channels := config.value.channels;
      var next := new SampleClock(sampleRate, wave);
      WriteData(period, channels, next);
    }
  }

  /** At 22050 Hz in stereo, a first period of four slots takes two
      generator calls and holds the first value twice, then the second
      value twice. */
  lemma FirstPeriodOfFour(wave: nat -> Sample)
    ensures Spread(Outputs(wave, 0, FrameCount(4, 2), TargetRate), 2, 4)
              == [wave(1), wave(1), wave(2), wave(2)]
  {
    var values := Outputs(wave, 0, 2, TargetRate);
    OutputsAt(wave, 0, 2, TargetRate, 0);
    OutputsAt(wave, 0, 2, TargetRate, 1);
    assert values == [wave(1), wave(2)];
    SpreadFrameValue(values, 2, 4, 0);
    SpreadFrameValue(values, 2, 4, 1);
  }
}
