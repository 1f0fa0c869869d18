/**
 * The integer-delay stage of the fractional delay line, stated on values:
 * a circular buffer of samples with a write cursor and a read cursor that
 * advance together, one slot per sample, wrapping at the buffer length.
 */
module CircularBuffer {

  /** A value already in `[0, len)` is its own remainder. */
  lemma ModBelow(x: int, len: int)
    requires 0 <= x < len
    ensures x % len == x
  {
    assert x == 0 * len + x;
  }

  /** A value in `[len, 2*len)` loses one `len`. */
  lemma ModAbove(x: int, len: int)
    requires len <= x < 2 * len
    ensures x % len == x - len
  {
    assert x == 1 * len + (x - len);
  }

  /** A value in `[-len, 0)` gains one `len`. */
  lemma ModNegative(x: int, len: int)
    requires -len <= x < 0
    ensures x % len == x + len
  {
    assert x == -1 * len + (x + len);
  }

  /** The position after `p` in a circular buffer of `len` slots. */
  function Next(p: int, len: int): (q: int)
    requires 0 <= p < len
    ensures 0 <= q < len
  {
    if p == len - 1 then 0 else p + 1
  }

  /** Advancing a cursor is adding one modulo the buffer length. */
  lemma NextIsSuccessor(p: int, len: int)
    requires 0 <= p < len
    ensures Next(p, len) == (p + 1) % len
  {
    if p == len - 1 {
      ModAbove(p + 1, len);
    } else {
      ModBelow(p + 1, len);
    }
  }

  /**
   * How many slots a read cursor at `r` trails a write cursor at `w`,
   * counted forward around the buffer.
   */
  function Distance(w: int, r: int, len: int): (d: int)
    requires 0 <= w < len && 0 <= r < len
    ensures 0 <= d < len
  {
    if w >= r then w - r else w - r + len
  }

  /** The distance is `(w - r) mod len`. */
  lemma DistanceIsMod(w: int, r: int, len: int)
    requires 0 <= w < len && 0 <= r < len
    ensures Distance(w, r, len) == (w - r) % len
  {
    if w < r {
      ModNegative(w - r, len);
    } else {
      ModBelow(w - r, len);
    }
  }

  /** The buffer contents together with both cursors. */
  datatype Ring = Ring(cells: seq<real>, write: int, read: int)
  {
    predicate WellFormed() {
      |cells| >= 1 && 0 <= write < |cells| && 0 <= read < |cells|
    }

    /** How many slots the read cursor trails the write cursor. */
    function Lag(): int
      requires WellFormed()
    {
      Distance(write, read, |cells|)
    }

    /** Both cursors moved one slot forward, contents untouched. */
    function Advance(): (r: Ring)
      requires WellFormed()
      ensures r.WellFormed() && r.cells == cells
      ensures r.Lag() == Lag()
    {
      LagNext(write, read, |cells|);
      Ring(cells, Next(write, |cells|), Next(read, |cells|))
    }
  }

  /** Advancing both cursors keeps the distance between them. */
  lemma LagNext(w: int, r: int, len: int)
    requires 0 <= w < len && 0 <= r < len
    ensures Distance(Next(w, len), Next(r, len), len) == Distance(w, r, len)
    ensures (Next(w, len) - Next(r, len)) % len == (w - r) % len
  {
    DistanceIsMod(w, r, len);
    DistanceIsMod(Next(w, len), Next(r, len), len);
  }

  /**
   * One call of the integer stage over the block `xs`: for each sample in
   * order, write it at the write cursor, read the slot under the read
   * cursor, then advance both cursors. Returns the samples read and the
   * final buffer state.
   */
  function IntegerDelay(ring: Ring, xs: seq<real>): (res: (seq<real>, Ring))
    requires ring.WellFormed()
    ensures |res.0| == |xs|
    ensures res.1.WellFormed() && |res.1.cells| == |ring.cells|
    ensures res.1.Lag() == ring.Lag()
    decreases |xs|
  {
    if xs == [] then ([], ring)
    else
      var cells := ring.cells[ring.write := xs[0]];
      var y := cells[ring.read];
      var rest := IntegerDelay(Write(ring, xs[0]).Advance(), xs[1..]);
      ([y] + rest.0, rest.1)
  }

  /** The state after writing `x` at the write cursor, before the cursors move. */
  function Write(ring: Ring, x: real): (r: Ring)
    requires ring.WellFormed()
    ensures r.WellFormed() && r.Lag() == ring.Lag()
  {
    Ring(ring.cells[ring.write := x], ring.write, ring.read)
  }

  /** A block of one sample: write it, read under the read cursor, advance. */
  lemma IntegerDelayOne(ring: Ring, x: real)
    requires ring.WellFormed()
    ensures IntegerDelay(ring, [x]).0 == [Write(ring, x).cells[ring.read]]
    ensures IntegerDelay(ring, [x]).1 == Write(ring, x).Advance()
  {
    var next := Write(ring, x).Advance();
    assert [x][0] == x && [x][1..] == [];
    assert IntegerDelay(next, []) == ([], next);
  }

  /** The first sample of a block, then the rest from the advanced state. */
  lemma IntegerDelayCons(ring: Ring, xs: seq<real>)
    requires ring.WellFormed() && xs != []
    ensures IntegerDelay(ring, xs).0 ==
            [Write(ring, xs[0]).cells[ring.read]] + IntegerDelay(Write(ring, xs[0]).Advance(), xs[1..]).0
    ensures IntegerDelay(ring, xs).1 == IntegerDelay(Write(ring, xs[0]).Advance(), xs[1..]).1
  {
    assert IntegerDelay(ring, xs).0[0] == Write(ring, xs[0]).cells[ring.read];
  }

  /** One more sample appended to a block. */
  lemma IntegerDelaySnoc(ring: Ring, xs: seq<real>, i: int)
    requires ring.WellFormed() && 0 <= i < |xs|
    ensures var p := IntegerDelay(ring, xs[..i]).1;
            IntegerDelay(ring, xs[..i + 1]).0 == IntegerDelay(ring, xs[..i]).0 + [Write(p, xs[i]).cells[p.read]]
    ensures var p := IntegerDelay(ring, xs[..i]).1;
            IntegerDelay(ring, xs[..i + 1]).1 == Write(p, xs[i]).Advance()
  {
    assert xs[..i + 1] == xs[..i] + [xs[i]];
    IntegerDelayConcat(ring, xs[..i], [xs[i]]);
    IntegerDelayOne(IntegerDelay(ring, xs[..i]).1, xs[i]);
  }

  /** The slot `n` places after `p`, for `n` short of the buffer length. */
  function Ahead(p: int, n: int, len: int): (q: int)
    requires 0 <= p < len && 0 <= n < len
    ensures 0 <= q < len
  {
    if p + n < len then p + n else p + n - len
  }

  /** Counting ahead is adding modulo the buffer length. */
  lemma AheadIsMod(p: int, n: int, len: int)
    requires 0 <= p < len && 0 <= n < len
    ensures Ahead(p, n, len) == (p + n) % len
  {
    if p + n < len {
      ModBelow(p + n, len);
    } else {
      ModAbove(p + n, len);
    }
  }

  /** Counting `n + 1` from `p` is counting `n` from the slot after `p`. */
  lemma AheadOfNext(p: int, n: int, len: int)
    requires 0 <= p < len && 0 <= n && n + 1 < len
    ensures Ahead(Next(p, len), n, len) == Ahead(p, n + 1, len)
  {
  }

  /** Counting forward from the read cursor meets the write cursor after exactly `Lag()` slots. */
  lemma AheadOfRead(ring: Ring, i: int)
    requires ring.WellFormed() && 0 <= i <= ring.Lag()
    ensures (Ahead(ring.read, i, |ring.cells|) == ring.write) <==> i == ring.Lag()
  {
  }

  /**
   * Sample `i` of the integer stage's output is the input sample `Lag()`
   * positions earlier; before that it is the slot the read cursor passes
   * over, which the block has not yet overwritten.
   */
  lemma {:induction false} IntegerDelayAt(ring: Ring, xs: seq<real>, i: int)
    requires ring.WellFormed() && 0 <= i < |xs|
    ensures ring.Lag() < |ring.cells|
    ensures IntegerDelay(ring, xs).0[i] ==
      if i >= ring.Lag() then xs[i - ring.Lag()]
      else ring.cells[Ahead(ring.read, i, |ring.cells|)]
    decreases |xs|
  {
    var len, k := |ring.cells|, ring.Lag();
    var w := Write(ring, xs[0]);
    var next := w.Advance();
    var out := IntegerDelay(ring, xs).0;
    IntegerDelayCons(ring, xs);
    if i == 0 {
      assert out[0] == w.cells[ring.read];
      AheadOfRead(ring, 0);
    } else {
      IntegerDelayAt(next, xs[1..], i - 1);
      assert out[i] == IntegerDelay(next, xs[1..]).0[i - 1];
      if i - 1 < k {
        AheadOfNext(ring.read, i - 1, len);
        AheadOfRead(ring, i);
      }
    }
  }

  /** With the cursors together the integer stage passes its input straight through. */
  lemma ZeroLagIsIdentity(ring: Ring, xs: seq<real>)
    requires ring.WellFormed() && ring.write == ring.read
    ensures IntegerDelay(ring, xs).0 == xs
  {
    forall i | 0 <= i < |xs|
      ensures IntegerDelay(ring, xs).0[i] == xs[i]
    {
      IntegerDelayAt(ring, xs, i);
    }
  }

  /** Buffer and cursors persist: two consecutive blocks behave as their concatenation. */
  lemma IntegerDelayConcat(ring: Ring, a: seq<real>, b: seq<real>)
    requires ring.WellFormed()
    ensures IntegerDelay(ring, a + b).0 ==
            IntegerDelay(ring, a).0 + IntegerDelay(IntegerDelay(ring, a).1, b).0
    ensures IntegerDelay(ring, a + b).1 == IntegerDelay(IntegerDelay(ring, a).1, b).1
  {
    IntegerDelayConcatOutput(ring, a, b);
    IntegerDelayConcatState(ring, a, b);
  }

  /** The output half of `IntegerDelayConcat`. */
  lemma {:induction false} IntegerDelayConcatOutput(ring: Ring, a: seq<real>, b: seq<real>)
    requires ring.WellFormed()
    ensures IntegerDelay(ring, a + b).0 ==
            IntegerDelay(ring, a).0 + IntegerDelay(IntegerDelay(ring, a).1, b).0
    decreases |a|
  {
    if a == [] {
      assert a + b == b;
      assert IntegerDelay(ring, a).0 == [] && IntegerDelay(ring, a).1 == ring;
      assert [] + IntegerDelay(ring, b).0 == IntegerDelay(ring, b).0;
    } else {
      var next := Write(ring, a[0]).Advance();
      var y := [Write(ring, a[0]).cells[ring.read]];
      var restA := IntegerDelay(next, a[1..]);
      var second := IntegerDelay(restA.1, b);
      assert (a + b)[0] == a[0] && (a + b)[1..] == a[1..] + b;
      IntegerDelayCons(ring, a);
      IntegerDelayCons(ring, a + b);
      IntegerDelayConcatOutput(next, a[1..], b);
      assert y + (restA.0 + second.0) == (y + restA.0) + second.0;
    }
  }

  /** The buffer-state half of `IntegerDelayConcat`. */
  lemma {:induction false} IntegerDelayConcatState(ring: Ring, a: seq<real>, b: seq<real>)
    requires ring.WellFormed()
    ensures IntegerDelay(ring, a + b).1 == IntegerDelay(IntegerDelay(ring, a).1, b).1
    decreases |a|
  {
    if a == [] {
      assert a + b == b;
    } else {
      var next := Write(ring, a[0]).Advance();
      assert (a + b)[0] == a[0] && (a + b)[1..] == a[1..] + b;
      IntegerDelayCons(ring, a);
      IntegerDelayCons(ring, a + b);
      IntegerDelayConcatState(next, a[1..], b);
    }
  }

}
