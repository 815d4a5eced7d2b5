/** Start-up configuration choice in `main`: among the output configuration
    ranges the device reports, in the order it reports them, take the first
    that can play 32-bit float stereo at 22050 Hz, then fix the rate at
    22050 Hz. `None` stands for the abort at "no supported config found". */
module ConfigSelection {

  datatype Option<T> = None | Some(value: T)

  /** The sample formats an audio device may report. Only `F32` is ever
      accepted; the others matter only in being different from it. */
  datatype SampleFormat = I8 | I16 | I32 | I64 | U8 | U16 | U32 | U64 | F32 | F64

  /** One supported output configuration range: every rate from `minRate`
      to `maxRate`, with a fixed sample format and channel count. */
  datatype ConfigRange = ConfigRange(minRate: nat, maxRate: nat, format: SampleFormat, channels: nat)

  /** A concrete supported configuration, as `with_sample_rate` returns it:
      one rate, a channel count, a format. (The library's plain stream
      configuration, made from it by `into()`, drops the format.) */
  datatype SupportedConfig = SupportedConfig(channels: nat, sampleRate: nat, format: SampleFormat)

  /** The rate the program asks for, in Hz. */
  const TargetRate: nat := 22050

  /** The predicate given to `find`. Both rate bounds are strict, so a
      matching range always admits the target rate. */
  predicate Matches(range: ConfigRange): (ok: bool)
    ensures ok ==> range.minRate <= TargetRate <= range.maxRate
    ensures ok ==> range.format == F32 && range.channels == 2
  {
    range.maxRate > TargetRate && range.minRate < TargetRate
    && range.format == F32 && range.channels == 2
  }

  /** `Iterator::find` over the reported ranges with `Matches`. */
  function Find(ranges: seq<ConfigRange>): (found: Option<ConfigRange>)
    ensures found.Some? ==> found.value in ranges && Matches(found.value)
    ensures found.None? <==> forall r :: r in ranges ==> !Matches(r)
  {
    if ranges == [] then None
    else if Matches(ranges[0]) then Some(ranges[0])
    else Find(ranges[1..])
  }

  /** Narrowing a range to one rate inside it (`with_sample_rate`); the
      audio library refuses a rate outside the range. */
  function WithSampleRate(range: ConfigRange, rate: nat): (config: SupportedConfig)
    requires range.minRate <= rate <= range.maxRate
    ensures range.minRate <= config.sampleRate <= range.maxRate && config.sampleRate == rate
    ensures config.channels == range.channels && config.format == range.format
  {
    SupportedConfig(range.channels, rate, range.format)
  }

  /** The whole selection: find a range, then fix the rate at 22050 Hz.
      It fails exactly when no range matches; on success the rate lies
      strictly inside the chosen range, and the configuration is stereo
      32-bit float at 22050 Hz. */
  function SelectConfig(ranges: seq<ConfigRange>): (config: Option<SupportedConfig>)
    ensures config.None? <==> forall r :: r in ranges ==> !Matches(r)
    ensures config.Some? ==>
              config.value == SupportedConfig(2, TargetRate, F32)
              && Find(ranges).Some?
              && Find(ranges).value.minRate < config.value.sampleRate < Find(ranges).value.maxRate
  {
    match Find(ranges)
    case None => None
    case Some(range) => Some(WithSampleRate(range, TargetRate))
  }

  /** `find` returns the first matching range: if range `k` matches and no
      earlier one does, range `k` is the one found. */
  lemma {:induction false} FindIsFirst(ranges: seq<ConfigRange>, k: nat)
    requires k < |ranges| && Matches(ranges[k])
    requires forall j :: 0 <= j < k ==> !Matches(ranges[j])
    ensures Find(ranges) == Some(ranges[k])
  {
    if k > 0 {
      FindIsFirst(ranges[1..], k - 1);
    }
  }

  /** Conversely, whatever `find` returns sits at some position in the
      enumeration with no matching range before it. */
  lemma {:induction false} FoundIsFirst(ranges: seq<ConfigRange>)
    requires Find(ranges).Some?
    ensures exists k :: 0 <= k < |ranges| && ranges[k] == Find(ranges).value
              && forall j :: 0 <= j < k ==> !Matches(ranges[j])
  {
    if !Matches(ranges[0]) {
      FoundIsFirst(ranges[1..]);
      var k :| 0 <= k < |ranges[1..]| && ranges[1..][k] == Find(ranges[1..]).value
                && forall j :: 0 <= j < k ==> !Matches(ranges[1..][j]);
      assert ranges[k + 1] == Find(ranges).value;
      assert forall j :: 0 <= j < k + 1 ==> !Matches(ranges[j]) by {
        forall j | 0 < j < k + 1
          ensures !Matches(ranges[j])
        {
          assert ranges[j] == ranges[1..][j - 1];
        }
      }
    }
  }

  /** Ranges reported after the first match are never looked at: the
      result for a concatenation is decided by the first part when it
      contains a match. */
  lemma {:induction false} FindAppend(front: seq<ConfigRange>, back: seq<ConfigRange>)
    ensures Find(front + back) == if Find(front).Some? then Find(front) else Find(back)
  {
    if front != [] {
      assert (front + back)[0] == front[0];
      assert (front + back)[1..] == front[1..] + back;
      FindAppend(front[1..], back);
    } else {
      assert front + back == back;
    }
  }
}
