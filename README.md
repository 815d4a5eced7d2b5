# A verified model of a minimal sine-wave player

The program opens the default audio output device, picks an output
configuration, and plays a 440 Hz sine tone for one second. Almost all of it
is calls into the `cpal` audio library. This model covers the program's own
logic:

- **Configuration selection** (`ConfigSelection`, `config_selection.dfy`).
  The device reports its supported configuration ranges in some order. The
  program takes the first range whose maximum rate is above 22050 Hz, whose
  minimum rate is below 22050 Hz, whose format is 32-bit float and which has
  two channels. It then narrows that range to 22050 Hz. When no range
  matches, the program aborts; `SelectConfig` returns `None` for that case.
- **The tone generator** (`Generator`, `generator.dfy`). The `next_value`
  closure owns a phase counter `sample_clock`. It starts at 0. Each call adds
  one, reduces the result modulo the sample rate, and returns the sample for
  the new phase. `SampleClock` is that closure as a class with one mutable
  field, `clock`. The sine itself is left out: the constant `wave: nat ->
  Sample` maps a phase to its sample, and the model treats those values as
  opaque. The ghost field `emitted` records every value returned, in order.
  The class invariant `Valid()` ties that record and the counter to the
  number of calls since the counter started at 0, so facts about one run of
  calls hold for the generator's whole life.
- **The callback** (`FrameWriter`, `frame_writer.dfy`). `write_data` cuts the
  interleaved output buffer into consecutive frames of `channels` slots, as
  `chunks_mut` does, so the last frame may be shorter. It calls the generator
  once per frame and writes the value into every slot of that frame.
  `WriteData` is that method over an `array<Sample>`, with the same two
  nested loops. Two functions specify it. `FrameCount` counts the chunks, and
  `Spread` builds the filled buffer chunk by chunk from the generated values.
  Lemmas relate both to closed forms: the ceiling of `len / channels`, and
  slot `i` holding value `i / channels`.
- **Wiring** (`Playback`, `playback.dfy`). `Run` selects a configuration and
  builds the generator at the selected rate, starting from phase 0. It then
  fills one output period with the selected channel count, as the first
  callback does.

Facts about Euclidean division used by the proofs sit in `Arithmetic`
(`arithmetic.dfy`).

The phase counter is an `f32` in the program. The model uses a natural
number instead. Every value the counter takes is a whole number below the
rate, and every whole number up to 2^24 is exact in `f32`, so the two agree
for rates up to 2^24 Hz; the program uses 22050 Hz. The program's `%` on
`f32` truncates toward zero, but both operands are never negative, so it
agrees with Dafny's `%`.

`with_sample_rate` belongs to `cpal`, and `cpal` is not part of this model.
The model takes from the library's documented behaviour that it rejects a
rate outside the range; `WithSampleRate` makes that a precondition.
`SelectConfig` discharges it from the strict bounds in the `find`
predicate.

## Model

| member | source | states |
|---|---|---|
| `Generator.Advance` | src/main.rs:37 | one counter step stays below the rate; it adds one, except from `rate - 1`, where it wraps to 0 |
| `Generator.ClockAfterIsSum` | src/main.rs:35-37 | from a phase below the rate, `calls` steps give `(phase + calls) mod rate` |
| `Generator.ClockAfter` | src/main.rs:35-37 | the phase after a number of calls never leaves `[0, rate)` once it starts inside it |
| `Generator.ClockZeroIff` | src/main.rs:35-37 | from 0, the counter is back at 0 exactly when the number of calls is a multiple of the rate |
| `Generator.ClockPeriod` | src/main.rs:35-37 | from 0, the counter returns to 0 after exactly `rate` calls, and at no call in between |
| `Generator.Outputs` | src/main.rs:36-39 | `calls` generator calls produce exactly `calls` values |
| `Generator.OutputsAt` | src/main.rs:36-39 | the `j`-th value produced is the sample of phase `(phase + j + 1) mod rate`: the phase advances before the sample is taken |
| `Generator.OutputsPeriodic` | src/main.rs:36-39 | the produced values repeat with period `rate` |
| `Generator.SampleClock.constructor` | src/main.rs:31-36 | the generator gets the configured rate and starts at phase 0, before producing any value |
| `Generator.SampleClock.Next` | src/main.rs:36-39 | one call advances the phase by one modulo the rate, returns the sample of the new phase, and appends it to the record of returned values; it keeps the invariant that the record is the output of all calls since phase 0 |
| `Generator.EmittedPeriodic` | src/main.rs:35-39 | over the generator's whole life, the values it has returned repeat with period `rate` |
| `FrameWriter.FrameCount` | src/main.rs:59 | an empty buffer has no chunk, any other has at least one, and there are never more chunks than slots |
| `FrameWriter.FrameCountIsCeiling` | src/main.rs:59-60 | the generator is called ceil(len / channels) times: len / channels when the channels divide the length, one more when the last frame is short |
| `FrameWriter.FrameCountOfFull` | src/main.rs:59-60 | `q` full frames and a remainder of `r < channels` slots give `q` chunks, plus one when `r > 0` |
| `FrameWriter.FrameStartsInside` | src/main.rs:59-60 | every chunk starts inside the buffer, so no chunk is empty and no generator call is wasted |
| `FrameWriter.FramesCoverBuffer` | src/main.rs:59-63 | the chunks cover the whole buffer |
| `FrameWriter.Spread` | src/main.rs:59-63 | the filled buffer has the length of the original buffer |
| `FrameWriter.SpreadAt` | src/main.rs:59-63 | slot `i` lies in chunk `i / channels`, one of the chunks visited, and holds that chunk's value |
| `FrameWriter.SpreadFrameUniform` | src/main.rs:60-63 | two slots of the same chunk hold the same value |
| `FrameWriter.SpreadFrameValue` | src/main.rs:59-63 | chunk `k` (slots `k * channels` up to `(k + 1) * channels` or the end) is not empty and holds the `k`-th generated value |
| `FrameWriter.FillFrameStep` | src/main.rs:60-63 | writing the next value over the next chunk, and over nothing before it, extends the filled part by one chunk |
| `FrameWriter.SpreadFromSlots` | src/main.rs:59-63 | a buffer whose every slot holds its chunk's value is exactly the filled buffer |
| `FrameWriter.WriteData` | src/main.rs:58-65 | needs `channels > 0`; makes exactly one generator call per chunk, in chunk order; afterwards the buffer equals `Spread` of the values those calls produced, so every slot is overwritten and the length is unchanged |
| `ConfigSelection.Matches` | src/main.rs:18-23 | a matching range has format F32 and two channels, and its bounds admit 22050 Hz |
| `ConfigSelection.WithSampleRate` | src/main.rs:25 | the narrowed configuration has the requested rate, inside the range, and keeps the range's channel count and format |
| `ConfigSelection.Find` | src/main.rs:17-23 | a range found is one of the reported ranges and satisfies all four conditions; nothing is found exactly when no range satisfies them |
| `ConfigSelection.FindIsFirst` | src/main.rs:17-23 | if range `k` matches and no earlier range does, range `k` is the one found |
| `ConfigSelection.FoundIsFirst` | src/main.rs:17-23 | the range found sits at a position with no matching range before it |
| `ConfigSelection.FindAppend` | src/main.rs:17-23 | ranges after the first match are never considered |
| `ConfigSelection.SelectConfig` | src/main.rs:16-25 | fails exactly when no range matches; otherwise the configuration is 2 channels, F32, at exactly 22050 Hz, strictly inside the found range's bounds |
| `Playback.Run` | src/main.rs:16-46 | the configuration is the selected one; with no match nothing is built and the buffer is untouched; otherwise the first period equals `Spread` of the values produced from phase 0 at 22050 Hz, in stereo |
| `Playback.FirstPeriodOfFour` | src/main.rs:58-65 | at 22050 Hz in stereo, a four-slot period holds `[v1, v1, v2, v2]`, where `vk` is the sample of phase `k` |

## Left out

- Host and device discovery, `supported_output_configs`, `build_output_stream` and `stream.play()` (src/main.rs:8-14, 43-51): calls into `cpal` whose behaviour is not visible. The model starts from the list of reported ranges. The aborts when no device is found and when the configuration query fails are not modelled.
- The error callback (src/main.rs:41): it only prints a diagnostic.
- The one-second sleep and the driver's callback thread (src/main.rs:45-47, 53): timing and concurrency. `Run` shows a single callback period. Later periods are further calls of `WriteData` on the same `SampleClock`; its invariant carries the whole history of returned values from one call to the next.
- The sine and the 0.2 scaling (src/main.rs:38): floating-point numerics. `wave` stands for them, so no bound on the sample values, such as |value| <= 0.2, is stated.
- Generator.SampleClock.Next: uses an unbounded natural number for the `f32` counter. For rates above 2^24 Hz, `f32` would round the counter and the model would not show it. The selected rate is always 22050 Hz.
- The buffer-size field of the narrowed configuration and the `into()` conversion (src/main.rs:25, 27) are not modelled; `SupportedConfig` is the narrowed configuration, and `into()` would only drop its format. Without them, every successful selection gives the same configuration. The first-match order shows only in `Find`.
- The propagation of stream construction and start errors through `?` in `run` and `main` (src/main.rs:50-51).
- FrameWriter.WriteData: takes the program's generator, `SampleClock`, rather than any closure. The program passes no other closure to `write_data`.
