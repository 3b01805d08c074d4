/**
 A worked run of the recurrence: three layers, an initial amount of 1000 and
 every valve at 50 per cent. The middle valve of the last layer merges the
 inward halves of both its parents and so carries twice what its
 neighbours carry.
 */
module Examples {
  import opened Valve
  import opened Triangle
  import opened Network
  import opened FlowLaws

  /** A system of three layers with 1000 units entering and every valve half open. */
  predicate HalfSplit(s: ValveSystem)
  {
    && Valid(s)
    && s.initialAmount == 1000.0
    && s.numLayers == 3
    && AllSetTo(s, 50.0)
  }

  /** The form's way of building such a system: a new system of the default three layers, then every valve set to 50 in index order. */
  function HalfSplitSystem(): (s: ValveSystem)
    ensures HalfSplit(s)
  {
    DefaultLayers(1000.0);
    var s0 := NewSystem(1000.0);
    var s1 := SetPercentage(s0, 0, 50.0);
    var s2 := SetPercentage(s1, 1, 50.0);
    var s3 := SetPercentage(s2, 2, 50.0);
    var s4 := SetPercentage(s3, 3, 50.0);
    var s5 := SetPercentage(s4, 4, 50.0);
    SetPercentage(s5, 5, 50.0)
  }

  /** A half-open valve splits its input into two equal halves. */
  lemma HalfValve(s: ValveSystem, layer: nat, pos: nat)
    requires HalfSplit(s) && layer < 3 && pos <= layer
    ensures LayerStart(layer) + pos < |Table(s)|
    ensures
      var v := Table(s)[LayerStart(layer) + pos];
      v.out1 == v.out2 == v.input / 2.0
  {
    Routing(s.initialAmount, s.percentages, s.numLayers, layer, pos);
    assert s.percentages[LayerStart(layer) + pos] == 50.0;
  }

  lemma HalfSplitRoot(s: ValveSystem)
    requires HalfSplit(s)
    ensures |Table(s)| == 6
    ensures Table(s)[0] == ValveData(1000.0, 500.0, 500.0)
  {
    Routing(s.initialAmount, s.percentages, s.numLayers, 0, 0);
    HalfValve(s, 0, 0);
  }

  lemma HalfSplitSecondLayer(s: ValveSystem)
    requires HalfSplit(s)
    ensures |Table(s)| == 6
    ensures Table(s)[1] == ValveData(500.0, 250.0, 250.0)
    ensures Table(s)[2] == ValveData(500.0, 250.0, 250.0)
  {
    HalfSplitRoot(s);
    Routing(s.initialAmount, s.percentages, s.numLayers, 1, 0);
    HalfValve(s, 1, 0);
    Routing(s.initialAmount, s.percentages, s.numLayers, 1, 1);
    HalfValve(s, 1, 1);
  }

  lemma HalfSplitThirdLayer(s: ValveSystem)
    requires HalfSplit(s)
    ensures |Table(s)| == 6
    ensures Table(s)[3] == ValveData(250.0, 125.0, 125.0)
    ensures Table(s)[4] == ValveData(500.0, 250.0, 250.0)
    ensures Table(s)[5] == ValveData(250.0, 125.0, 125.0)
  {
    HalfSplitSecondLayer(s);
    Routing(s.initialAmount, s.percentages, s.numLayers, 2, 0);
    HalfValve(s, 2, 0);
    Routing(s.initialAmount, s.percentages, s.numLayers, 2, 1);
    HalfValve(s, 2, 1);
    Routing(s.initialAmount, s.percentages, s.numLayers, 2, 2);
    HalfValve(s, 2, 2);
  }

  /** The whole result table of the worked run. */
  lemma {:induction false} HalfSplitExample(s: ValveSystem)
    requires HalfSplit(s)
    ensures ProcessFlow(s) == map[
      0 := ValveData(1000.0, 500.0, 500.0),
      1 := ValveData(500.0, 250.0, 250.0),
      2 := ValveData(500.0, 250.0, 250.0),
      3 := ValveData(250.0, 125.0, 125.0),
      4 := ValveData(500.0, 250.0, 250.0),
      5 := ValveData(250.0, 125.0, 125.0)]
  {
    HalfSplitRoot(s);
    HalfSplitSecondLayer(s);
    HalfSplitThirdLayer(s);
    var m := ProcessFlow(s);
    var e := map[
      0 := ValveData(1000.0, 500.0, 500.0),
      1 := ValveData(500.0, 250.0, 250.0),
      2 := ValveData(500.0, 250.0, 250.0),
      3 := ValveData(250.0, 125.0, 125.0),
      4 := ValveData(500.0, 250.0, 250.0),
      5 := ValveData(250.0, 125.0, 125.0)];
    assert forall j :: j in m <==> j in e;
    assert forall j :: j in m ==> m[j] == e[j];
  }
}
