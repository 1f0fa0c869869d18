/**
 * The fractional stage of the delay line: a first-order Thiran all-pass
 * filter whose one-sample memories carry over from one block to the next.
 */
module Thiran {

  /**
   * The first-order Thiran coefficient `(1 - D) / (1 + D)` for a fractional
   * delay `D` in `[0, 1)`: it lies in `(0, 1]` and is 1 exactly for `D == 0`.
   */
  function Coefficient(d: real): (a: real)
    requires 0.0 <= d < 1.0
    ensures 0.0 < a <= 1.0
    ensures a == 1.0 <==> d == 0.0
  {
    var a := (1.0 - d) / (1.0 + d);
    assert a * (1.0 + d) == 1.0 - d;
    ScaleByPositive(a, 1.0 + d);
    a
  }

  /** Scaling by a positive factor keeps the sign and the order against 1. */
  lemma ScaleByPositive(x: real, c: real)
    requires c > 0.0
    ensures x <= 0.0 ==> x * c <= 0.0
    ensures x > 1.0 ==> x * c > c
  {
    if x > 1.0 {
      assert x * c == c + (x - 1.0) * c;
    }
  }

  /** The same formula maps the coefficient back to the fractional delay, so `a1` determines `D`. */
  lemma CoefficientInvolutive(d: real)
    requires 0.0 <= d < 1.0
    ensures var a := Coefficient(d); d == (1.0 - a) / (1.0 + a)
  {
    var a := Coefficient(d);
    assert a * (1.0 + d) == 1.0 - d;
    assert (1.0 - a) * (1.0 + d) == 2.0 * d;
    assert (1.0 + a) * (1.0 + d) == 2.0;
  }

  /** The previous input `x1` and previous output `y1` of the filter. */
  datatype Memory = Memory(x1: real, y1: real)

  /**
   * The filter's output for input `x`: `a1 * x + x1 - a1 * y1`, that is, the
   * all-pass difference equation `y - x1 == a1 * (x - y1)`.
   */
  function Output(a1: real, mem: Memory, x: real): (y: real)
    ensures y - mem.x1 == a1 * (x - mem.y1)
  {
    a1 * x + mem.x1 - a1 * mem.y1
  }

  /**
   * The filter run over `xs` from memory `mem`: each output is
   * `a1 * x + x1 - a1 * y1`, after which `x` and the output become the
   * memories. Returns the outputs and the final memory.
   */
  function Filter(a1: real, mem: Memory, xs: seq<real>): (res: (seq<real>, Memory))
    ensures |res.0| == |xs|
    ensures xs == [] ==> res.1 == mem
    ensures xs != [] ==> res.1 == Memory(xs[|xs| - 1], res.0[|xs| - 1])
    decreases |xs|
  {
    if xs == [] then ([], mem)
    else
      var y := Output(a1, mem, xs[0]);
      var rest := Filter(a1, Memory(xs[0], y), xs[1..]);
      ([y] + rest.0, rest.1)
  }

  /** One sample of the filter followed by the rest of the block. */
  lemma FilterStep(a1: real, mem: Memory, x: real, rest: seq<real>)
    ensures Filter(a1, mem, [x] + rest).0 ==
            [Output(a1, mem, x)] + Filter(a1, Memory(x, Output(a1, mem, x)), rest).0
    ensures Filter(a1, mem, [x] + rest).1 == Filter(a1, Memory(x, Output(a1, mem, x)), rest).1
  {
    var xs := [x] + rest;
    assert xs[0] == x && xs[1..] == rest;
    assert Filter(a1, mem, xs).0[0] == Output(a1, mem, x);
  }

  /**
   * The recurrence `y[i] = a1*x[i] + x[i-1] - a1*y[i-1]`, with the stored
   * memories standing in for `x[-1]` and `y[-1]`.
   */
  lemma {:induction false} FilterAt(a1: real, mem: Memory, xs: seq<real>, i: int)
    requires 0 <= i < |xs|
    ensures var ys := Filter(a1, mem, xs).0;
            ys[i] == a1 * xs[i] + (if i == 0 then mem.x1 else xs[i - 1])
                     - a1 * (if i == 0 then mem.y1 else ys[i - 1])
    decreases |xs|
  {
    var y := Output(a1, mem, xs[0]);
    var rest := Filter(a1, Memory(xs[0], y), xs[1..]);
    assert Filter(a1, mem, xs).0[0] == y;
    assert Filter(a1, mem, xs).0 == [y] + rest.0;
    if i > 0 {
      FilterAt(a1, Memory(xs[0], y), xs[1..], i - 1);
    }
  }

  /** Filtering two blocks in sequence equals filtering their concatenation. */
  lemma {:induction false} FilterConcat(a1: real, mem: Memory, a: seq<real>, b: seq<real>)
    ensures var first := Filter(a1, mem, a);
            var second := Filter(a1, first.1, b);
            Filter(a1, mem, a + b) == (first.0 + second.0, second.1)
    decreases |a|
  {
    if a == [] {
      assert a + b == b;
      assert Filter(a1, mem, a) == ([], mem);
      assert [] + Filter(a1, mem, b).0 == Filter(a1, mem, b).0;
    } else {
      var y := Output(a1, mem, a[0]);
      var m := Memory(a[0], y);
      assert (a + b)[0] == a[0];
      assert (a + b)[1..] == a[1..] + b;
      FilterConcat(a1, m, a[1..], b);
      var restA := Filter(a1, m, a[1..]);
      var second := Filter(a1, restA.1, b);
      assert Filter(a1, mem, a).0[0] == y;
      assert Filter(a1, mem, a) == ([y] + restA.0, restA.1);
      assert Filter(a1, mem, a + b).0[0] == y;
      assert Filter(a1, mem, a + b).1 == second.1;
      calc {
        Filter(a1, mem, a + b).0;
        [y] + Filter(a1, m, a[1..] + b).0;
        [y] + (restA.0 + second.0);
        ([y] + restA.0) + second.0;
      }
    }
  }

  /** Filtering one more sample extends the output by that sample's filter output. */
  lemma FilterSnoc(a1: real, mem: Memory, xs: seq<real>, i: int)
    requires 0 <= i < |xs|
    ensures var p := Filter(a1, mem, xs[..i]);
            Filter(a1, mem, xs[..i + 1]).0 == p.0 + [Output(a1, p.1, xs[i])]
    ensures var p := Filter(a1, mem, xs[..i]);
            Filter(a1, mem, xs[..i + 1]).1 == Memory(xs[i], Output(a1, p.1, xs[i]))
  {
    var p := Filter(a1, mem, xs[..i]);
    assert xs[..i + 1] == xs[..i] + [xs[i]];
    FilterConcat(a1, mem, xs[..i], [xs[i]]);
    FilterStep(a1, p.1, xs[i], []);
    assert [xs[i]] + [] == [xs[i]];
  }

  /**
   * With a non-zero fractional delay and cleared memories, a block starting
   * with a unit impulse does not come out as a single delayed impulse: the
   * first two outputs are `a1` and `1 - a1*a1`, both non-zero.
   */
  lemma ImpulseResponseStart(d: real, xs: seq<real>)
    requires 0.0 < d < 1.0
    requires |xs| >= 2 && xs[0] == 1.0 && xs[1] == 0.0
    ensures var a := Coefficient(d);
            var ys := Filter(a, Memory(0.0, 0.0), xs).0;
            ys[0] == a && ys[1] == 1.0 - a * a
    ensures var a := Coefficient(d); a != 0.0 && 1.0 - a * a != 0.0
  {
    var a := Coefficient(d);
    FilterAt(a, Memory(0.0, 0.0), xs, 0);
    FilterAt(a, Memory(0.0, 0.0), xs, 1);
    assert a * a < 1.0 by {
      assert a * a <= a * 1.0;
    }
  }
}
