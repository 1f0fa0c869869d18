# Fractional delay line

A model of `FractionalDelay` from the Ircam fractional-delay library. This is a single-channel audio delay line whose delay time, in samples, need not be a whole number. The line has two stages:

- **Integer-delay stage.** A circular sample buffer has a write cursor and a read cursor `intDelay` slots behind it. Each input sample is written at the write cursor. Then the sample under the read cursor is read, and both cursors advance with wrap-around.
- **Fractional stage.** When the delay in samples has a fractional part `D`, the integer-delayed block goes through a first-order Thiran all-pass filter: `y = a1*x + x1 - a1*y1`, with `a1 = (1-D)/(1+D)`. The memories `x1` and `y1` carry over from one block to the next.

The project has three modules:

- `circular_buffer.dfy` — module `CircularBuffer`. Cursor arithmetic (`Next`, `Distance`), the buffer state `Ring`, and `IntegerDelay`, the integer stage over one block, stated on values. Its lemmas give the closed form of the output and show that consecutive blocks compose.
- `thiran.dfy` — module `Thiran`. The coefficient `Coefficient`, the filter `Filter` over one block with its carried `Memory`, the per-sample recurrence, and block composition.
- `fractional_delay.dfy` — module `FractionalDelayLine`. The class `FractionalDelay` with the buffer as an `array<real>` and the cursors, delay parameters, coefficient and memories as fields. Its methods are imperative and proved against the functions above:
  - `Process` against `ProcessBlock`;
  - `SetDelay` against `Retune`;
  - `FractionalThiranProcess` against `Filter`.

  The module also defines `parseInt` on numbers (`Trunc`) and the buffer size computation (`BufferSize`), and holds scenario methods that follow the repository's tests.

`Valid()` is the class invariant. It says:
- the delay parameters agree with the accepted delay time;
- `intDelay` is below the buffer length;
- both cursors are in range;
- the read cursor trails the write cursor by exactly `intDelay`.

The constructor establishes it, and `SetDelay`, `Process` and `IntegerDelayProcess` keep it. The private helpers (`UpdatePointers`, `Resample`, `UpdateThiranCoefficient`, `FractionalThiranProcess`) are stated on the fields they touch: `Resample` and `UpdateThiranCoefficient` run inside `SetDelay` while the invariant is being re-established. The invariant does not constrain `a1` when `fracDelay` is 0, because the source never reads it then.

## Model

| member | source | states |
|---|---|---|
| CircularBuffer.Next | es6/fractional-delay.js:110-126 | a cursor advanced by `updatePointers` stays in `[0, len)` |
| CircularBuffer.NextIsSuccessor | es6/fractional-delay.js:110-126 | advancing a cursor is `(cursor + 1) mod len` |
| CircularBuffer.Distance | es6/fractional-delay.js:141-148 | the forward distance from the read cursor to the write cursor lies in `[0, len)` |
| CircularBuffer.DistanceIsMod | es6/fractional-delay.js:141-148 | that distance equals `(posWrite - posRead) mod len` |
| CircularBuffer.Ring.Advance | es6/fractional-delay.js:110-126 | advancing both cursors keeps the buffer contents and the distance between the cursors |
| CircularBuffer.LagNext | es6/fractional-delay.js:110-126 | advancing both cursors preserves their distance, both as `Distance` and as `(posWrite - posRead) mod len` |
| CircularBuffer.Write | es6/fractional-delay.js:90 | storing a sample at the write cursor leaves both cursors and their distance as they were |
| CircularBuffer.IntegerDelay | es6/fractional-delay.js:88-95 | the integer stage over a block returns one sample per input sample, keeps the buffer length, and keeps the cursor distance |
| CircularBuffer.IntegerDelayOne | es6/fractional-delay.js:88-95 | a one-sample block writes the sample, reads the slot under the read cursor after that write, then advances both cursors |
| CircularBuffer.IntegerDelayCons | es6/fractional-delay.js:88-95 | the first sample is processed as in a one-sample block, then the rest from the advanced state |
| CircularBuffer.IntegerDelaySnoc | es6/fractional-delay.js:88-95 | one more loop iteration appends the sample read after writing `input[i]` and advances the cursors |
| CircularBuffer.AheadIsMod | es6/fractional-delay.js:88-95 | the slot `n` places after a cursor is `(cursor + n) mod len` |
| CircularBuffer.IntegerDelayAt | es6/fractional-delay.js:88-95 | output `i` is input `i - intDelay` when `i >= intDelay`, and otherwise the slot `i` places after the starting read cursor, which the block has not yet overwritten; `intDelay < len` |
| CircularBuffer.ZeroLagIsIdentity | es6/fractional-delay.js:88-95 | with `intDelay == 0` the integer stage returns its input unchanged |
| CircularBuffer.IntegerDelayConcat | es6/fractional-delay.js:88-95 | because buffer and cursors persist, two consecutive blocks give the same output and final state as one block holding both |
| CircularBuffer.IntegerDelayConcatOutput | es6/fractional-delay.js:88-95 | the output part of that composition, by induction on the first block |
| CircularBuffer.IntegerDelayConcatState | es6/fractional-delay.js:88-95 | the buffer-state part of that composition, by induction on the first block |
| Thiran.Coefficient | es6/fractional-delay.js:132-135 | for `0 <= D < 1`, `(1-D)/(1+D)` lies in `(0, 1]` and equals 1 exactly when `D == 0` |
| Thiran.CoefficientInvolutive | es6/fractional-delay.js:134 | the same formula maps the coefficient back to `D`, so distinct fractional delays give distinct coefficients |
| Thiran.Output | es6/fractional-delay.js:167 | one filter output `a1*x + xi1 - a1*yi1`, which is the all-pass difference equation `y - xi1 == a1*(x - yi1)` |
| Thiran.Filter | es6/fractional-delay.js:155-181 | the filter returns one sample per input sample; the memories are unchanged for an empty block and are the last input and last output otherwise |
| Thiran.FilterStep | es6/fractional-delay.js:162-175 | the first output is `a1*x + x1 - a1*y1`, after which `x` and that output become the memories |
| Thiran.FilterAt | es6/fractional-delay.js:162-175 | `y[i] = a1*x[i] + x[i-1] - a1*y[i-1]`, with the stored `fracXi1`, `fracYi1` as `x[-1]`, `y[-1]` |
| Thiran.FilterConcat | es6/fractional-delay.js:155-181 | because the memories persist, filtering two blocks in sequence equals filtering their concatenation |
| Thiran.FilterSnoc | es6/fractional-delay.js:162-175 | one more loop iteration appends `a1*x + xi1 - a1*yi1` and moves the memories to `x` and that output |
| Thiran.ImpulseResponseStart | es6/fractional-delay.js:162-175 | from cleared memories and a non-zero fraction, a unit impulse yields `a1` then `1 - a1*a1`, both non-zero, so the fractional stage is not a pure sample shift |
| FractionalDelayLine.Trunc | es6/fractional-delay.js:38 | `parseInt` of a number truncates toward zero, giving the integer part within one of the value |
| FractionalDelayLine.Samples | es6/fractional-delay.js:54 | a duration times the sample rate (also the buffer-size product at line 35); never negative for a non-negative duration and a positive rate |
| FractionalDelayLine.SamplesMonotone | es6/fractional-delay.js:50-54 | at a positive rate a shorter duration is fewer samples, which is why a delay below the maximum fits the buffer |
| FractionalDelayLine.MaxDelayOrDefault | es6/fractional-delay.js:33 | the given maximum, or 1 when it is missing or zero: the result is 1 or the given non-zero maximum, and positive for any non-negative argument |
| FractionalDelayLine.BufferSize | es6/fractional-delay.js:35-39 | the buffer length is the product of maximum delay and rate when that is whole, otherwise its integer part plus one: the ceiling of the product, and at least 1 |
| FractionalDelayLine.ResamplePosition | es6/fractional-delay.js:141-148 | the new read cursor lies in `[0, len)` and trails the write cursor by `intDelay`, so `(posWrite - posRead) mod len == intDelay` |
| FractionalDelayLine.DelayFitsBuffer | es6/fractional-delay.js:50-56 | an accepted delay `0 <= d < maxDelayTime` has a whole-sample part below the buffer length |
| FractionalDelayLine.Retune | es6/fractional-delay.js:50-64 | an accepted delay sets `intDelay` to the integer part of `d * sampleRate` and `fracDelay` to the rest, in `[0, 1)`; it places the read cursor `intDelay` behind the write cursor; it recomputes `a1` only when `fracDelay != 0` |
| FractionalDelayLine.RetuneIdempotent | es6/fractional-delay.js:49-64 | setting the same delay twice leaves the same parameters, coefficient included, as setting it once |
| FractionalDelayLine.ProcessBlock | es6/fractional-delay.js:83-104 | one `process` call returns one sample per input sample and keeps the cursor distance; with no fractional part it leaves the filter memories alone |
| FractionalDelayLine.WholeSampleDelay | es6/fractional-delay.js:88-98 | with no fractional part, output `i` is input `i - intDelay`, or buffer content before that |
| FractionalDelayLine.ProcessConcat | es6/fractional-delay.js:83-104 | two consecutive `process` calls equal one call on the concatenated input, in output, buffer state and memories |
| FractionalDelayLine.SilenceThenInput | es6/fractional-delay.js:88-98 | over a zero-filled buffer with no fractional part, the output is `intDelay` zeros followed by the input |
| FractionalDelayLine.FractionalDelay.CursorDistance | es6/fractional-delay.js:141-148 | in a valid line both cursors are in range and `(posWrite - posRead) mod len == intDelay < len` |
| FractionalDelayLine.FractionalDelay.constructor | es6/fractional-delay.js:18-42 | it applies the default maximum of 1 for a missing or zero argument and sizes the buffer by `BufferSize`; the buffer is zero-filled; the delay, both cursors, `intDelay`, `fracDelay` and both memories start at 0; the line is valid |
| FractionalDelayLine.FractionalDelay.SetDelay | es6/fractional-delay.js:49-68 | it accepts exactly when `d < maxDelayTime`, so `d == maxDelayTime` is refused; a refusal reports the source's message and changes nothing; an acceptance makes `getDelay()` return `d` and sets the parameters of `Retune`; buffer, write cursor and memories are untouched either way |
| FractionalDelayLine.FractionalDelay.GetDelay | es6/fractional-delay.js:74-76 | returns the last accepted delay, which in a valid line lies in `[0, maxDelayTime)`; what it returns after each call is stated by `SetDelay` (`status.Ok? ==> GetDelay() == delayTime`, and `unchanged(this)` on refusal) |
| FractionalDelayLine.FractionalDelay.Process | es6/fractional-delay.js:83-104 | the output, the new buffer state and the new memories are those of `ProcessBlock` from the old state; the line stays valid |
| FractionalDelayLine.FractionalDelay.IntegerDelayProcess | es6/fractional-delay.js:85-95 | the write-read-advance loop returns `IntegerDelay` of the old buffer state and leaves its final state; the line stays valid |
| FractionalDelayLine.FractionalDelay.UpdatePointers | es6/fractional-delay.js:110-126 | each cursor moves to `Next` of itself, wrapping at the end; the distance between the cursors, plain and modulo the length, is preserved |
| FractionalDelayLine.FractionalDelay.UpdateThiranCoefficient | es6/fractional-delay.js:132-135 | `a1` becomes `Coefficient(fracDelay)` |
| FractionalDelayLine.FractionalDelay.Resample | es6/fractional-delay.js:141-148 | the read cursor becomes `ResamplePosition`: in range and `intDelay` behind the write cursor |
| FractionalDelayLine.FractionalDelay.FractionalThiranProcess | es6/fractional-delay.js:155-181 | the output and the new memories are those of `Filter` from the old memories |
| FractionalDelayLine.DelayChangesAtDefaultMaximum | tests/tests.js:5-17 | a line at 44100 Hz with the default maximum accepts 0.5 s; it refuses 2 s with the error and still reports 0.5 s; it then accepts 0.3 s and reports it |
| FractionalDelayLine.TwoSampleLine | es6/fractional-delay.js:18-68 | a 4 Hz line with a 1 s maximum and a 0.5 s delay has four zeroed slots, two whole samples of delay and no fraction |
| FractionalDelayLine.ImpulseThroughWholeSampleDelay | es6/fractional-delay.js:83-104 | that line turns a six-sample impulse into the same impulse two samples later, across the wrap-around of its buffer |

## Left out

- Float32 storage: the source keeps the buffer and both output blocks in `Float32Array`s and computes in IEEE-754 doubles. Samples, delays and coefficients are exact `real`s here, so rounding in `delayTime * sampleRate` and in the filter is not modelled.
- Trunc: `parseInt` goes through a number's string form, and for magnitudes written in exponent notation it returns the digits before the exponent (5 for `5e-7`). `Trunc` models only truncation toward zero. What this hides: `setDelay(1e-11)` at 44100 Hz is 4.41e-7 samples, so the source sets `intDelay` to 4 and `fracDelay` to about -3.9999996. The coefficient then becomes about -1.67, the filter recurrence is unstable, and a near-zero delay comes out as four samples. The same path enlarges the buffer when `maxDelayTime * sampleRate` is below 1e-6. The model's `Trunc` gives 0 in both cases.
- Negative delays, and a non-positive sample rate or maximum delay, are preconditions (`SetDelay` requires `delayTime >= 0`; the constructor requires `sampleRate > 0` and a non-negative maximum). The guard in `setDelay` lets a negative delay through: `intDelay` can then be negative, and `resample` can place the read cursor past the end of the buffer.
- The falsy values that `optMaxDelayTime || 1` replaces by 1 are modelled as `None` and `0.0`. `NaN`, `null`, `false` and the empty string are not represented.
- `a1` starts as `undefined` in the source and as `0.0` here. It is never read before a delay with a fractional part has set it.
- The `process` input is a sequence of values, so the model cannot express a caller passing the line's own buffer as input (aliasing).
- The integer section of `process` is its own method, `IntegerDelayProcess`; `Process` calls it and then the fractional stage. The statements and their order are unchanged. In the source, the fractional stage's output is copied into a fresh `Float32Array`; that copy is not modelled.
- The refusal message is the source's, `"delayTime > maxDelayTime"`, although the guard also refuses a delay equal to the maximum.
- The all-pass filter's magnitude and phase properties are signal-processing approximations that the code does not state, so they are not modelled.
- `dist/fractional-delay.js` and `fractional-delay.umd.js` are generated copies of the same class plus module-loader and class-helper code, and are not part of this model.
- The repository's tests are a mocha suite; only their three assertions are modelled, by `DelayChangesAtDefaultMaximum`.
