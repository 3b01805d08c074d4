/**
 A single valve: a binary splitter that divides an input amount into two
 outputs according to a percentage. Amounts are exact reals, so the split
 conserves its input exactly.
 */
module Valve {

  /** The recorded state of one valve after a run: its input and its two outputs. */
  datatype ValveData = ValveData(input: real, out1: real, out2: real)

  /** The three amounts a valve records; the outputs are what later valves read. */
  datatype Port = In | Out1 | Out2

  function Amount(v: ValveData, port: Port): real
  {
    match port
    case In => v.input
    case Out1 => v.out1
    case Out2 => v.out2
  }

  /** A valve conserves flow when its two outputs add up to its input. */
  predicate Conserves(v: ValveData)
  {
    v.out1 + v.out2 == v.input
  }

  /** Splits `x` into `percent` per cent of it and the remainder. */
  function Split(x: real, percent: real): (r: (real, real))
    ensures r.0 + r.1 == x
    ensures percent == 0.0 ==> r == (0.0, x)
    ensures percent == 100.0 ==> r == (x, 0.0)
  {
    var x1 := percent * x / 100.0;
    assert percent == 0.0 ==> x1 == 0.0;
    assert percent == 100.0 ==> x1 == x;
    (x1, x - x1)
  }

  /** The first output is `percent` per cent of the input. */
  lemma SplitShare(x: real, percent: real)
    ensures 100.0 * Split(x, percent).0 == percent * x
  {
  }

  /** With a percentage in [0, 100], a non-negative input splits into two parts each within [0, x]. */
  lemma SplitBounds(x: real, percent: real)
    requires 0.0 <= percent <= 100.0 && 0.0 <= x
    ensures 0.0 <= Split(x, percent).0 <= x
    ensures 0.0 <= Split(x, percent).1 <= x
  {
    assert 0.0 <= percent * x;
    assert percent * x <= 100.0 * x by {
      assert (100.0 - percent) * x >= 0.0;
    }
  }

  /** Runs one valve on `x`, recording the input beside the two outputs. */
  function Run(x: real, percent: real): (v: ValveData)
    ensures v.input == x
    ensures Conserves(v)
  {
    var (x1, x2) := Split(x, percent);
    ValveData(x, x1, x2)
  }
}
