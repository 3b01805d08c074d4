/**
 Consequences of the routing rule and the exact split: every layer receives
 the whole initial amount, every amount stays within [0, initial amount]
 when the percentages are in [0, 100], and fully closed or fully open valves
 send everything down one edge of the triangle.
 */
module FlowLaws {
  import opened Valve
  import opened Triangle
  import opened Network

  /** The sum of one amount over the valves lo .. hi-1 of a table. */
  function Total(t: seq<ValveData>, lo: nat, hi: nat, port: Port): real
    requires lo <= hi <= |t|
    decreases hi - lo
  {
    if lo == hi then 0.0 else Total(t, lo, hi - 1, port) + Amount(t[hi - 1], port)
  }

  /** The sum of the inputs of the valves of `layer`. */
  function LayerInflow(t: seq<ValveData>, layer: nat): real
    requires LayerStart(layer + 1) <= |t|
  {
    NextLayerStart(layer);
    Total(t, LayerStart(layer), LayerStart(layer + 1), In)
  }

  /** Over valves that each conserve flow, the inputs add up to all first plus all second outputs. */
  lemma {:induction false} TotalConserves(t: seq<ValveData>, lo: nat, hi: nat)
    requires lo <= hi <= |t|
    requires forall j :: lo <= j < hi ==> Conserves(t[j])
    ensures Total(t, lo, hi, In) == Total(t, lo, hi, Out1) + Total(t, lo, hi, Out2)
    decreases hi - lo
  {
    if lo < hi {
      TotalConserves(t, lo, hi - 1);
    }
  }

  /**
   The first `j` valves of a layer take in the first outputs of the first `j`
   valves of the layer before and the second outputs of the first `j - 1`.
   */
  lemma {:induction false} LayerPrefixInflow(s: ValveSystem, layer: nat, j: nat)
    requires Valid(s) && 1 <= layer < s.numLayers && 1 <= j <= layer
    ensures LayerStart(layer) + j <= |Table(s)|
    ensures
      var t := Table(s);
      var p := LayerStart(layer - 1);
      Total(t, LayerStart(layer), LayerStart(layer) + j, In) == Total(t, p, p + j, Out1) + Total(t, p, p + j - 1, Out2)
  {
    var t := Table(s);
    var c := LayerStart(layer);
    var p := LayerStart(layer - 1);
    NextLayerStart(layer - 1);
    Routing(s.initialAmount, s.percentages, s.numLayers, layer, j - 1);
    if j == 1 {
      assert Total(t, c, c, In) == 0.0 && Total(t, p, p, Out1) == 0.0 && Total(t, p, p, Out2) == 0.0;
    } else {
      LayerPrefixInflow(s, layer, j - 1);
    }
  }

  /** What a layer passes on is exactly what the next layer takes in. */
  lemma LayerHandOver(s: ValveSystem, layer: nat)
    requires Valid(s) && 1 <= layer < s.numLayers
    ensures LayerStart(layer + 1) <= |Table(s)|
    ensures
      var t := Table(s);
      LayerInflow(t, layer) == Total(t, LayerStart(layer - 1), LayerStart(layer), Out1)
                             + Total(t, LayerStart(layer - 1), LayerStart(layer), Out2)
  {
    var t := Table(s);
    NextLayerStart(layer - 1);
    NextLayerStart(layer);
    LayerStartMonotone(layer + 1, s.numLayers);
    Routing(s.initialAmount, s.percentages, s.numLayers, layer, layer);
    LayerPrefixInflow(s, layer, layer);
  }

  /** Every layer receives the whole initial amount: the routing neither loses nor duplicates flow. */
  lemma {:induction false} LayerConservation(s: ValveSystem, layer: nat)
    requires Valid(s) && layer < s.numLayers
    ensures LayerStart(layer + 1) <= |Table(s)|
    ensures LayerInflow(Table(s), layer) == s.initialAmount
  {
    var t := Table(s);
    NextLayerStart(layer);
    LayerStartMonotone(layer + 1, s.numLayers);
    if layer == 0 {
      Routing(s.initialAmount, s.percentages, s.numLayers, 0, 0);
      assert LayerInflow(t, 0) == t[0].input;
    } else {
      LayerConservation(s, layer - 1);
      LayerHandOver(s, layer);
      NextLayerStart(layer - 1);
      TotalConserves(t, LayerStart(layer - 1), LayerStart(layer));
    }
  }

  /** The ranges the input form enforces: a non-negative amount and percentages within [0, 100]. */
  predicate InRange(s: ValveSystem)
  {
    && 0.0 <= s.initialAmount
    && forall j :: 0 <= j < |s.percentages| ==> 0.0 <= s.percentages[j] <= 100.0
  }

  predicate NonNegative(v: ValveData)
  {
    0.0 <= v.input && 0.0 <= v.out1 && 0.0 <= v.out2
  }

  /** With amounts and percentages in range, every amount of a layer is non-negative. */
  lemma {:induction false} LayerNonNegative(s: ValveSystem, layer: nat)
    requires Valid(s) && InRange(s) && layer < s.numLayers
    ensures LayerStart(layer + 1) <= |Table(s)|
    ensures forall j :: LayerStart(layer) <= j < LayerStart(layer + 1) ==> NonNegative(Table(s)[j])
  {
    var t := Table(s);
    NextLayerStart(layer);
    LayerStartMonotone(layer + 1, s.numLayers);
    if 1 <= layer {
      LayerNonNegative(s, layer - 1);
      NextLayerStart(layer - 1);
    }
    forall j | LayerStart(layer) <= j < LayerStart(layer + 1)
      ensures NonNegative(t[j])
    {
      var pos := j - LayerStart(layer);
      Routing(s.initialAmount, s.percentages, s.numLayers, layer, pos);
      SplitBounds(t[j].input, s.percentages[j]);
    }
  }

  /** With non-negative amounts, no single valve's amount exceeds the total over a range holding it. */
  lemma {:induction false} BelowTotal(t: seq<ValveData>, lo: nat, hi: nat, j: nat)
    requires lo <= j < hi <= |t|
    requires forall k :: lo <= k < hi ==> NonNegative(t[k])
    ensures t[j].input <= Total(t, lo, hi, In)
    decreases hi - lo
  {
    if j < hi - 1 {
      BelowTotal(t, lo, hi - 1, j);
    } else {
      TotalNonNegative(t, lo, hi - 1);
    }
  }

  lemma {:induction false} TotalNonNegative(t: seq<ValveData>, lo: nat, hi: nat)
    requires lo <= hi <= |t|
    requires forall k :: lo <= k < hi ==> NonNegative(t[k])
    ensures 0.0 <= Total(t, lo, hi, In)
    decreases hi - lo
  {
    if lo < hi {
      TotalNonNegative(t, lo, hi - 1);
    }
  }

  /** In range, every recorded input and output lies within [0, initial amount], including the reset entry. */
  lemma Bounded(s: ValveSystem)
    requires Valid(s) && InRange(s)
    ensures forall j :: j in ProcessFlow(s) ==>
      var v := ProcessFlow(s)[j];
      && 0.0 <= v.input <= s.initialAmount
      && 0.0 <= v.out1 <= s.initialAmount
      && 0.0 <= v.out2 <= s.initialAmount
  {
    var m := ProcessFlow(s);
    var t := Table(s);
    forall j | j in m
      ensures 0.0 <= m[j].input <= s.initialAmount
      ensures 0.0 <= m[j].out1 <= s.initialAmount
      ensures 0.0 <= m[j].out2 <= s.initialAmount
    {
      if 1 <= s.numLayers {
        var layer, pos := Locate(s.numLayers, j);
        NextLayerStart(layer);
        LayerStartMonotone(layer + 1, s.numLayers);
        LayerNonNegative(s, layer);
        LayerConservation(s, layer);
        BelowTotal(t, LayerStart(layer), LayerStart(layer + 1), j);
        assert m[j] == t[j];
        Routing(s.initialAmount, s.percentages, s.numLayers, layer, pos);
        SplitBounds(t[j].input, s.percentages[j]);
      }
    }
  }

  /** Every valve of the system is set to `percent`. */
  predicate AllSetTo(s: ValveSystem, percent: real)
  {
    forall j :: 0 <= j < |s.percentages| ==> s.percentages[j] == percent
  }

  /** With every valve at 0 per cent, each valve passes its whole input to its second output. */
  lemma ClosedValve(s: ValveSystem, layer: nat, pos: nat)
    requires Valid(s) && AllSetTo(s, 0.0)
    requires layer < s.numLayers && pos <= layer
    ensures LayerStart(layer) + pos < |Table(s)|
    ensures Table(s)[LayerStart(layer) + pos].out1 == 0.0
    ensures Table(s)[LayerStart(layer) + pos].out2 == Table(s)[LayerStart(layer) + pos].input
  {
    Routing(s.initialAmount, s.percentages, s.numLayers, layer, pos);
    assert s.percentages[LayerStart(layer) + pos] == 0.0;
  }

  /** With every valve at 100 per cent, each valve passes its whole input to its first output. */
  lemma OpenValve(s: ValveSystem, layer: nat, pos: nat)
    requires Valid(s) && AllSetTo(s, 100.0)
    requires layer < s.numLayers && pos <= layer
    ensures LayerStart(layer) + pos < |Table(s)|
    ensures Table(s)[LayerStart(layer) + pos].out1 == Table(s)[LayerStart(layer) + pos].input
    ensures Table(s)[LayerStart(layer) + pos].out2 == 0.0
  {
    Routing(s.initialAmount, s.percentages, s.numLayers, layer, pos);
    assert s.percentages[LayerStart(layer) + pos] == 100.0;
  }

  /** With every valve at 0 per cent, a valve below the root receives exactly what its upper-left parent received, and nothing at the left end. */
  lemma ClosedInput(s: ValveSystem, layer: nat, pos: nat)
    requires Valid(s) && AllSetTo(s, 0.0)
    requires 1 <= layer < s.numLayers && pos <= layer
    ensures LayerStart(layer) + pos < |Table(s)|
    ensures
      var t := Table(s);
      t[LayerStart(layer) + pos].input == (if pos == 0 then 0.0 else t[LayerStart(layer - 1) + pos - 1].input)
  {
    Routing(s.initialAmount, s.percentages, s.numLayers, layer, pos);
    NextLayerStart(layer - 1);
    if 0 < pos {
      ClosedValve(s, layer - 1, pos - 1);
    }
    if pos < layer {
      ClosedValve(s, layer - 1, pos);
    }
  }

  /** With every valve at 100 per cent, a valve below the root receives exactly what its upper-right parent received, and nothing at the right end. */
  lemma OpenInput(s: ValveSystem, layer: nat, pos: nat)
    requires Valid(s) && AllSetTo(s, 100.0)
    requires 1 <= layer < s.numLayers && pos <= layer
    ensures LayerStart(layer) + pos < |Table(s)|
    ensures
      var t := Table(s);
      t[LayerStart(layer) + pos].input == (if pos == layer then 0.0 else t[LayerStart(layer - 1) + pos].input)
  {
    Routing(s.initialAmount, s.percentages, s.numLayers, layer, pos);
    NextLayerStart(layer - 1);
    if 0 < pos {
      OpenValve(s, layer - 1, pos - 1);
    }
    if pos < layer {
      OpenValve(s, layer - 1, pos);
    }
  }

  /** With every valve at 0 per cent, the whole amount runs down the right edge and every other valve receives nothing. */
  lemma {:induction false} AllClosedRightEdge(s: ValveSystem, layer: nat, pos: nat)
    requires Valid(s) && AllSetTo(s, 0.0)
    requires layer < s.numLayers && pos <= layer
    ensures LayerStart(layer) + pos < |Table(s)|
    ensures Table(s)[LayerStart(layer) + pos].input == (if pos == layer then s.initialAmount else 0.0)
  {
    if layer == 0 {
      Routing(s.initialAmount, s.percentages, s.numLayers, 0, 0);
    } else {
      ClosedInput(s, layer, pos);
      if 0 < pos {
        AllClosedRightEdge(s, layer - 1, pos - 1);
      }
    }
  }

  /** With every valve at 100 per cent, the whole amount runs down the left edge and every other valve receives nothing. */
  lemma {:induction false} AllOpenLeftEdge(s: ValveSystem, layer: nat, pos: nat)
    requires Valid(s) && AllSetTo(s, 100.0)
    requires layer < s.numLayers && pos <= layer
    ensures LayerStart(layer) + pos < |Table(s)|
    ensures Table(s)[LayerStart(layer) + pos].input == (if pos == 0 then s.initialAmount else 0.0)
  {
    if layer == 0 {
      Routing(s.initialAmount, s.percentages, s.numLayers, 0, 0);
    } else {
      OpenInput(s, layer, pos);
      if pos < layer {
        AllOpenLeftEdge(s, layer - 1, pos);
      }
    }
  }
}
