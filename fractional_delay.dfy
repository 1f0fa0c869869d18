/**
 * A single-channel fractional delay line: a circular sample buffer gives the
 * whole-sample part of the delay, and a first-order Thiran all-pass filter
 * approximates the remaining fraction of a sample.
 */
module FractionalDelayLine {
  import opened CircularBuffer
  import opened Thiran

  datatype Option<T> = None | Some(value: T)

  /** Outcome of `SetDelay`: accepted, or refused with the error's message. */
  datatype Status = Ok | InvalidArgument(message: string)

  const DelayTooLong := "delayTime > maxDelayTime"

  /**
   * `parseInt` applied to a number: the integer part, truncated toward zero.
   */
  function Trunc(x: real): (n: int)
    ensures x >= 0.0 ==> 0 <= n && n as real <= x < n as real + 1.0
    ensures x < 0.0 ==> n <= 0 && n as real - 1.0 < x <= n as real
  {
    if x >= 0.0 then x.Floor else -((-x).Floor)
  }

  /** A duration in seconds expressed in samples: never negative for a non-negative duration. */
  function Samples(seconds: real, sampleRate: real): (n: real)
    ensures seconds >= 0.0 && sampleRate > 0.0 ==> n >= 0.0
  {
    seconds * sampleRate
  }

  /** A longer duration is more samples. */
  lemma SamplesMonotone(shorter: real, longer: real, sampleRate: real)
    requires shorter < longer && sampleRate > 0.0
    ensures Samples(shorter, sampleRate) < Samples(longer, sampleRate)
  {
    assert longer * sampleRate - shorter * sampleRate == (longer - shorter) * sampleRate;
  }

  /**
   * The buffer length for a maximum delay: the product of delay and rate
   * when it is a whole number, otherwise its integer part plus one. That is
   * the ceiling of the product, and at least one slot.
   */
  function BufferSize(maxDelayTime: real, sampleRate: real): (n: int)
    requires maxDelayTime > 0.0 && sampleRate > 0.0
    ensures n >= 1
    ensures Samples(maxDelayTime, sampleRate) <= n as real < Samples(maxDelayTime, sampleRate) + 1.0
  {
    var size := Samples(maxDelayTime, sampleRate);
    if size - Trunc(size) as real != 0.0 then Trunc(size) + 1 else Trunc(size)
  }

  /** `optMaxDelayTime || 1`: a missing or zero maximum becomes one second. */
  function MaxDelayOrDefault(optMaxDelayTime: Option<real>): (m: real)
    ensures optMaxDelayTime.None? || optMaxDelayTime.value >= 0.0 ==> m > 0.0
    ensures m == 1.0 || (optMaxDelayTime.Some? && m == optMaxDelayTime.value != 0.0)
  {
    if optMaxDelayTime.None? || optMaxDelayTime.value == 0.0 then 1.0 else optMaxDelayTime.value
  }

  /**
   * Where the read cursor goes so that it trails `write` by `intDelay` slots,
   * computed without a negative remainder.
   */
  function ResamplePosition(write: int, intDelay: int, len: int): (read: int)
    requires 0 <= write < len && 0 <= intDelay < len
    ensures 0 <= read < len
    ensures Distance(write, read, len) == intDelay
    ensures (write - read) % len == intDelay
  {
    var read := if write - intDelay < 0 then len - (intDelay - write) else write - intDelay;
    DistanceIsMod(write, read, len);
    read
  }

  /** A delay below the maximum splits into a whole-sample part that fits in the buffer. */
  lemma DelayFitsBuffer(delayTime: real, maxDelayTime: real, sampleRate: real)
    requires 0.0 <= delayTime < maxDelayTime && sampleRate > 0.0
    ensures 0.0 <= Samples(delayTime, sampleRate) < Samples(maxDelayTime, sampleRate)
    ensures 0 <= Trunc(Samples(delayTime, sampleRate)) < BufferSize(maxDelayTime, sampleRate)
  {
    SamplesMonotone(delayTime, maxDelayTime, sampleRate);
  }

  /** The delay parameters `SetDelay` recomputes. */
  datatype Tuning = Tuning(delayTime: real, intDelay: int, fracDelay: real, posRead: int, a1: real)

  /**
   * The parameters after an accepted delay change from write position
   * `posWrite`, where `a1` is the coefficient in force before the change.
   */
  function Retune(delayTime: real, sampleRate: real, maxDelayTime: real, posWrite: int, a1: real): (t: Tuning)
    requires 0.0 <= delayTime < maxDelayTime && sampleRate > 0.0
    requires 0 <= posWrite < BufferSize(maxDelayTime, sampleRate)
    ensures t.delayTime == delayTime
    ensures t.intDelay as real <= Samples(delayTime, sampleRate) < t.intDelay as real + 1.0
    ensures t.fracDelay == Samples(delayTime, sampleRate) - t.intDelay as real
    ensures 0 <= t.intDelay < BufferSize(maxDelayTime, sampleRate) && 0.0 <= t.fracDelay < 1.0
    ensures 0 <= t.posRead < BufferSize(maxDelayTime, sampleRate)
    ensures Distance(posWrite, t.posRead, BufferSize(maxDelayTime, sampleRate)) == t.intDelay
    ensures t.fracDelay != 0.0 ==> t.a1 == Coefficient(t.fracDelay)
    ensures t.fracDelay == 0.0 ==> t.a1 == a1
  {
    DelayFitsBuffer(delayTime, maxDelayTime, sampleRate);
    var samplesDelay := Samples(delayTime, sampleRate);
    var intDelay := Trunc(samplesDelay);
    var fracDelay := samplesDelay - intDelay as real;
    var posRead := ResamplePosition(posWrite, intDelay, BufferSize(maxDelayTime, sampleRate));
    Tuning(delayTime, intDelay, fracDelay, posRead,
           if fracDelay != 0.0 then Coefficient(fracDelay) else a1)
  }

  /** Setting the same delay twice leaves the same parameters as setting it once. */
  lemma RetuneIdempotent(delayTime: real, sampleRate: real, maxDelayTime: real, posWrite: int, a1: real)
    requires 0.0 <= delayTime < maxDelayTime && sampleRate > 0.0
    requires 0 <= posWrite < BufferSize(maxDelayTime, sampleRate)
    ensures var once := Retune(delayTime, sampleRate, maxDelayTime, posWrite, a1);
            Retune(delayTime, sampleRate, maxDelayTime, posWrite, once.a1) == once
  {
  }

  /**
   * One call of `process` on values: the integer stage, then the all-pass
   * filter when the fractional delay is non-zero.
   */
  function ProcessBlock(ring: Ring, mem: Memory, fracDelay: real, a1: real, xs: seq<real>)
    : (res: (seq<real>, Ring, Memory))
    requires ring.WellFormed()
    ensures |res.0| == |xs|
    ensures res.1.WellFormed() && |res.1.cells| == |ring.cells| && res.1.Lag() == ring.Lag()
    ensures fracDelay == 0.0 ==> res.2 == mem
  {
    var delayed := IntegerDelay(ring, xs);
    if fracDelay == 0.0 then (delayed.0, delayed.1, mem)
    else
      var filtered := Filter(a1, mem, delayed.0);
      (filtered.0, delayed.1, filtered.1)
  }

  /**
   * With no fractional part, output sample `i` is input sample `i - intDelay`,
   * and before that it is what the buffer held.
   */
  lemma WholeSampleDelay(ring: Ring, mem: Memory, a1: real, xs: seq<real>, i: int)
    requires ring.WellFormed() && 0 <= i < |xs|
    ensures ProcessBlock(ring, mem, 0.0, a1, xs).0[i] ==
      if i >= ring.Lag() then xs[i - ring.Lag()]
      else ring.cells[Ahead(ring.read, i, |ring.cells|)]
  {
    IntegerDelayAt(ring, xs, i);
  }

  /** Consecutive calls of `process` behave as one call on the concatenated blocks. */
  lemma ProcessConcat(ring: Ring, mem: Memory, fracDelay: real, a1: real, a: seq<real>, b: seq<real>)
    requires ring.WellFormed()
    ensures var first := ProcessBlock(ring, mem, fracDelay, a1, a);
            var second := ProcessBlock(first.1, first.2, fracDelay, a1, b);
            ProcessBlock(ring, mem, fracDelay, a1, a + b) == (first.0 + second.0, second.1, second.2)
  {
    IntegerDelayConcat(ring, a, b);
    var intA := IntegerDelay(ring, a);
    var intB := IntegerDelay(intA.1, b);
    if fracDelay != 0.0 {
      FilterConcat(a1, mem, intA.0, intB.0);
    }
  }

  class FractionalDelay {
    const sampleRate: real
    const maxDelayTime: real
    const buffer: array<real>
    var delayTime: real
    var posRead: int
    var posWrite: int
    var intDelay: int
    var fracDelay: real
    var a1: real
    var fracXi1: real
    var fracYi1: real

    /** The delay parameters agree with the accepted delay time. */
    ghost predicate Tuned()
      reads this`delayTime, this`intDelay, this`fracDelay, this`a1
    {
      sampleRate > 0.0 && maxDelayTime > 0.0 &&
      buffer.Length == BufferSize(maxDelayTime, sampleRate) &&
      0.0 <= delayTime < maxDelayTime &&
      intDelay == Trunc(Samples(delayTime, sampleRate)) &&
      fracDelay == Samples(delayTime, sampleRate) - intDelay as real &&
      0 <= intDelay < buffer.Length && 0.0 <= fracDelay < 1.0 &&
      (fracDelay != 0.0 ==> a1 == Coefficient(fracDelay))
    }

    /** Both cursors lie in the buffer, the read cursor `intDelay` slots behind. */
    ghost predicate Valid()
      reads this
    {
      Tuned() &&
      0 <= posWrite < buffer.Length && 0 <= posRead < buffer.Length &&
      Distance(posWrite, posRead, buffer.Length) == intDelay
    }

    /** In a valid line the read cursor trails the write cursor by `intDelay` modulo the length. */
    lemma CursorDistance()
      requires Valid()
      ensures 0 <= posRead < buffer.Length && 0 <= posWrite < buffer.Length
      ensures (posWrite - posRead) % buffer.Length == intDelay
      ensures intDelay < buffer.Length
    {
      DistanceIsMod(posWrite, posRead, buffer.Length);
    }

    /** The buffer contents and both cursors. */
    function State(): Ring
      reads this, buffer
    {
      Ring(buffer[..], posWrite, posRead)
    }

    /** The all-pass filter's memories. */
    function Memories(): Memory
      reads this
    {
      Memory(fracXi1, fracYi1)
    }

    /** The delay parameters `SetDelay` recomputes, as they stand. */
    function Settings(): Tuning
      reads this
    {
      Tuning(delayTime, intDelay, fracDelay, posRead, a1)
    }

    constructor (sampleRate: real, optMaxDelayTime: Option<real>)
      requires sampleRate > 0.0
      requires optMaxDelayTime.None? || optMaxDelayTime.value >= 0.0
      ensures Valid() && fresh(buffer)
      ensures this.sampleRate == sampleRate
      ensures maxDelayTime == if optMaxDelayTime.None? || optMaxDelayTime.value == 0.0 then 1.0
                              else optMaxDelayTime.value
      ensures buffer.Length == BufferSize(maxDelayTime, sampleRate)
      ensures forall i :: 0 <= i < buffer.Length ==> buffer[i] == 0.0
      ensures delayTime == 0.0 && posRead == 0 && posWrite == 0
      ensures intDelay == 0 && fracDelay == 0.0 && a1 == 0.0
      ensures fracXi1 == 0.0 && fracYi1 == 0.0
    {
      delayTime := 0.0;
      posRead := 0;
      posWrite := 0;
      fracXi1 := 0.0;
      fracYi1 := 0.0;
      intDelay := 0;
      fracDelay := 0.0;
      a1 := 0.0;
      this.sampleRate := sampleRate;
      maxDelayTime := MaxDelayOrDefault(optMaxDelayTime);
      buffer := new real[BufferSize(MaxDelayOrDefault(optMaxDelayTime), sampleRate)](_ => 0.0);
    }

    /**
     * Accepts a delay strictly below the maximum and recomputes the delay
     * parameters; otherwise refuses it and changes nothing.
     */
    method SetDelay(delayTime: real) returns (status: Status)
      requires Valid() && delayTime >= 0.0
      modifies this
      ensures Valid()
      ensures status.Ok? <==> delayTime < maxDelayTime
      ensures !status.Ok? ==> status == InvalidArgument(DelayTooLong) && unchanged(this)
      ensures status.Ok? ==> GetDelay() == delayTime
      ensures status.Ok? ==> Settings() == Retune(delayTime, sampleRate, maxDelayTime, old(posWrite), old(a1))
      ensures posWrite == old(posWrite) && Memories() == old(Memories()) && buffer[..] == old(buffer[..])
    {
      if delayTime < maxDelayTime {
        this.delayTime := delayTime;
        var samplesDelay := Samples(delayTime, sampleRate);
        intDelay := Trunc(samplesDelay);
        fracDelay := samplesDelay - intDelay as real;
        DelayFitsBuffer(delayTime, maxDelayTime, sampleRate);
        Resample();
        if fracDelay != 0.0 {
          UpdateThiranCoefficient();
        }
        status := Ok;
      } else {
        status := InvalidArgument(DelayTooLong);
      }
    }

    /** The last accepted delay time, which in a valid line is below the maximum. */
    function GetDelay(): (d: real)
      reads this
      ensures Valid() ==> 0.0 <= d < maxDelayTime
    {
      delayTime
    }

    /**
     * Runs one block through the line: the integer stage, then the all-pass
     * filter when the fractional delay is non-zero.
     */
    method Process(input: seq<real>) returns (output: array<real>)
      requires Valid()
      modifies this`posWrite, this`posRead, this`fracXi1, this`fracYi1, buffer
      ensures Valid() && fresh(output)
      ensures output[..] == ProcessBlock(old(State()), old(Memories()), fracDelay, a1, input).0
      ensures State() == ProcessBlock(old(State()), old(Memories()), fracDelay, a1, input).1
      ensures Memories() == ProcessBlock(old(State()), old(Memories()), fracDelay, a1, input).2
    {
      var out := IntegerDelayProcess(input);
      if fracDelay == 0.0 {
        output := out;
      } else {
        output := FractionalThiranProcess(out);
      }
    }

    /**
     * The integer-delay section of `process`: each input sample is written
     * before the delayed one is read, then both cursors advance.
     */
    method IntegerDelayProcess(input: seq<real>) returns (out: array<real>)
      requires Valid()
      modifies this`posWrite, this`posRead, buffer
      ensures Valid() && fresh(out)
      ensures out[..] == IntegerDelay(old(State()), input).0
      ensures State() == IntegerDelay(old(State()), input).1
    {
      ghost var start := State();
      ghost var ring := start;
      out := new real[|input|];
      var i := 0;
      assert input[..i] == [];
      while i < |input|
        invariant 0 <= i <= |input| && out.Length == |input|
        invariant buffer[..] == ring.cells && posWrite == ring.write && posRead == ring.read
        invariant out[..i] == IntegerDelay(start, input[..i]).0
        invariant ring == IntegerDelay(start, input[..i]).1
      {
        buffer[posWrite] := input[i];
        out[i] := buffer[posRead];
        ring := Write(ring, input[i]);
        UpdatePointers();
        ring := ring.Advance();
        assert out[..i + 1] == IntegerDelay(start, input[..i + 1]).0 by {
          IntegerDelaySnoc(start, input, i);
          assert out[..i + 1] == out[..i] + [out[i]];
        }
        assert ring == IntegerDelay(start, input[..i + 1]).1 by {
          IntegerDelaySnoc(start, input, i);
        }
        i := i + 1;
      }
      assert input[..i] == input;
      assert out[..] == out[..i];
    }

    /** Moves both cursors one slot forward, wrapping at the end of the buffer. */
    method UpdatePointers()
      requires 0 <= posWrite < buffer.Length && 0 <= posRead < buffer.Length
      modifies this`posWrite, this`posRead
      ensures posWrite == Next(old(posWrite), buffer.Length)
      ensures posRead == Next(old(posRead), buffer.Length)
      ensures Distance(posWrite, posRead, buffer.Length) == Distance(old(posWrite), old(posRead), buffer.Length)
      ensures (posWrite - posRead) % buffer.Length == (old(posWrite) - old(posRead)) % buffer.Length
    {
      LagNext(posWrite, posRead, buffer.Length);
      if posWrite == buffer.Length - 1 {
        posWrite := 0;
      } else {
        posWrite := posWrite + 1;
      }
      if posRead == buffer.Length - 1 {
        posRead := 0;
      } else {
        posRead := posRead + 1;
      }
    }

    method UpdateThiranCoefficient()
      requires 0.0 <= fracDelay < 1.0
      modifies this`a1
      ensures a1 == Coefficient(fracDelay)
    {
      a1 := (1.0 - fracDelay) / (1.0 + fracDelay);
    }

    /** Places the read cursor `intDelay` slots behind the write cursor. */
    method Resample()
      requires 0 <= posWrite < buffer.Length && 0 <= intDelay < buffer.Length
      modifies this`posRead
      ensures posRead == ResamplePosition(posWrite, intDelay, buffer.Length)
      ensures 0 <= posRead < buffer.Length && (posWrite - posRead) % buffer.Length == intDelay
      ensures Distance(posWrite, posRead, buffer.Length) == intDelay
    {
      if posWrite - intDelay < 0 {
        var pos := intDelay - posWrite;
        posRead := buffer.Length - pos;
      } else {
        posRead := posWrite - intDelay;
      }
    }

    /** The all-pass filter over one block, carrying its memories to the next block. */
    method FractionalThiranProcess(input: array<real>) returns (output: array<real>)
      modifies this`fracXi1, this`fracYi1
      ensures fresh(output)
      ensures output[..] == Filter(a1, old(Memories()), input[..]).0
      ensures Memories() == Filter(a1, old(Memories()), input[..]).1
    {
      output := new real[input.Length];
      var xi1 := fracXi1;
      var yi1 := fracYi1;
      var i := 0;
      ghost var xs := input[..];
      ghost var m0 := Memories();
      assert xs[..i] == [];
      while i < input.Length
        invariant 0 <= i <= input.Length && output.Length == input.Length
        invariant input[..] == xs
        invariant output[..i] == Filter(a1, m0, xs[..i]).0
        invariant Memory(xi1, yi1) == Filter(a1, m0, xs[..i]).1
      {
        var x := input[i];
        var y := a1 * x + xi1 - a1 * yi1;
        assert y == Output(a1, Memory(xi1, yi1), x);
        FilterSnoc(a1, m0, xs, i);
        xi1 := x;
        yi1 := y;
        output[i] := y;
        assert output[..i + 1] == output[..i] + [y];
        i := i + 1;
      }
      assert xs[..i] == xs;
      assert output[..] == output[..i];
      fracXi1 := xi1;
      fracYi1 := yi1;
    }
  }

  /**
   * A line at 44100 Hz with the default maximum of one second accepts 0.5 s,
   * refuses 2 s without losing the 0.5 s setting, then accepts 0.3 s.
   */
  method DelayChangesAtDefaultMaximum() returns (first: real, refused: Status, kept: real, last: real)
    ensures first == 0.5 && refused == InvalidArgument(DelayTooLong) && kept == 0.5 && last == 0.3
  {
    var line := new FractionalDelay(44100.0, None);
    var status := line.SetDelay(0.5);
    first := line.GetDelay();
    refused := line.SetDelay(2.0);
    kept := line.GetDelay();
    status := line.SetDelay(0.3);
    last := line.GetDelay();
  }

  /**
   * Over a zero-filled buffer and with no fractional part, the line outputs
   * `Lag()` zeros and then the input, `Lag()` samples late.
   */
  lemma SilenceThenInput(ring: Ring, mem: Memory, a1: real, xs: seq<real>)
    requires ring.WellFormed()
    requires forall k :: 0 <= k < |ring.cells| ==> ring.cells[k] == 0.0
    ensures forall i :: 0 <= i < |xs| ==>
      ProcessBlock(ring, mem, 0.0, a1, xs).0[i] == if i >= ring.Lag() then xs[i - ring.Lag()] else 0.0
  {
    forall i | 0 <= i < |xs|
      ensures ProcessBlock(ring, mem, 0.0, a1, xs).0[i] == if i >= ring.Lag() then xs[i - ring.Lag()] else 0.0
    {
      WholeSampleDelay(ring, mem, a1, xs, i);
    }
  }

  /**
   * A fresh line of four slots at 4 Hz, delayed by 0.5 s: two whole samples
   * and no fraction, over a zero-filled buffer.
   */
  method TwoSampleLine() returns (line: FractionalDelay)
    ensures fresh(line) && fresh(line.buffer) && line.Valid()
    ensures line.buffer.Length == 4 && line.intDelay == 2 && line.fracDelay == 0.0
    ensures line.State().WellFormed() && line.State().Lag() == 2
    ensures forall k :: 0 <= k < line.buffer.Length ==> line.buffer[k] == 0.0
  {
    line := new FractionalDelay(4.0, Some(1.0));
    var status := line.SetDelay(0.5);
  }

  /**
   * The two-sample line turns a six-sample impulse into the same impulse two
   * samples later, across the wrap-around of its four-slot buffer.
   */
  method ImpulseThroughWholeSampleDelay() returns (out: seq<real>)
    ensures out == [0.0, 0.0, 1.0, 0.0, 0.0, 0.0]
  {
    var line := TwoSampleLine();
    var impulse := [1.0, 0.0, 0.0, 0.0, 0.0, 0.0];
    SilenceThenInput(line.State(), line.Memories(), line.a1, impulse);
    var output := line.Process(impulse);
    out := output[..];
  }
}
