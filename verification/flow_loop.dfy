/**
 The program's process_flow as it is written: the result table is a map from
 valve index to (input, out1, out2); it is cleared and given the reset root
 entry, then two nested loops walk the layers and the positions within each
 layer, read each valve's parents from the map and record the split.
 */
module FlowLoop {
  import opened Valve
  import opened Triangle
  import opened Network

  /**
   Runs the system. `stale` is whatever the table held from an earlier run;
   the result does not depend on it, because the table is cleared first.
   */
  method ProcessFlow(s: ValveSystem, stale: map<int, ValveData>) returns (data: map<int, ValveData>)
    requires Valid(s)
    ensures data == Network.ProcessFlow(s)
    ensures 1 <= s.numLayers ==> forall j :: j in data <==> 0 <= j < NumValves(s.numLayers)
    ensures 1 <= s.numLayers ==> forall j :: j in data ==> Conserves(data[j])
  {
    var initial := s.initialAmount;
    var pcts := s.percentages;
    data := stale;
    // reset_outputs: clear the table, then seed the root entry
    data := map[];
    data := data[0 := ResetEntry(s)];
    var valveId := 0;
    var layer := 0;
    while layer < s.numLayers
      invariant layer <= s.numLayers
      invariant valveId == LayerStart(layer) <= |pcts|
      invariant Records(s, data, FlowTable(initial, pcts, layer))
    {
      var valvesInLayer := layer + 1;
      LayerStartMonotone(layer + 1, s.numLayers);
      NextLayerStart(layer);
      ghost var prior := FlowTable(initial, pcts, layer);
      ghost var row := LayerRow(initial, pcts, prior, layer);
      ghost var done := prior;
      var i := 0;
      while i < valvesInLayer
        invariant i <= valvesInLayer
        invariant valveId == LayerStart(layer) + i
        invariant done == prior + row[..i]
        invariant Records(s, data, done)
      {
        var inputAmount := ReadInput(s, data, done, layer, i);
        var split := Split(inputAmount, pcts[valveId]);
        var valve := ValveData(inputAmount, split.0, split.1);
        assert valve == row[i] by {
          InputReadsEarlierLayers(initial, done, prior, layer, i);
          RowEntry(initial, pcts, prior, layer, i);
          assert Run(inputAmount, pcts[valveId]) == valve;
        }
        AppendNext(prior, row, i);
        data := data[valveId := valve];
        done := done + [valve];
        valveId := valveId + 1;
        i := i + 1;
      }
      assert done == FlowTable(initial, pcts, layer + 1);
      layer := layer + 1;
    }
    RecordsAll(s, data, FlowTable(initial, pcts, s.numLayers));
  }

  /**
   The map holds the reset root entry overwritten by the valves `done`, in
   index order: exactly the keys 0 .. |done|-1 (or just 0 before any valve
   has run), each holding its valve.
   */
  ghost predicate Records(s: ValveSystem, data: map<int, ValveData>, done: seq<ValveData>)
  {
    && (forall j :: j in data <==> j == 0 || 0 <= j < |done|)
    && (forall j :: 0 <= j < |done| ==> data[j] == done[j])
    && (|done| == 0 ==> data[0] == ResetEntry(s))
  }

  /** Reads the input of the valve at `pos` of `layer` from the map, as the program does. */
  method ReadInput(s: ValveSystem, data: map<int, ValveData>, ghost done: seq<ValveData>, layer: nat, pos: nat)
    returns (inputAmount: real)
    requires pos <= layer
    requires LayerStart(layer) <= |done|
    requires Records(s, data, done)
    ensures inputAmount == ValveInput(s.initialAmount, done, layer, pos)
  {
    var valvesInLayer := layer + 1;
    if layer == 0 {
      inputAmount := s.initialAmount;
    } else {
      var prevLayerStart := PrevLayerStart(layer);
      if pos == 0 {
        inputAmount := data[prevLayerStart].out1;
      } else if pos == valvesInLayer - 1 {
        inputAmount := data[prevLayerStart + layer - 1].out2;
      } else {
        inputAmount := data[prevLayerStart + pos - 1].out2 + data[prevLayerStart + pos].out1;
      }
    }
  }

  /** A map recording the whole table is the table as a map, seeded with the reset entry. */
  lemma RecordsAll(s: ValveSystem, data: map<int, ValveData>, done: seq<ValveData>)
    requires Records(s, data, done)
    ensures data == map[0 := ResetEntry(s)] + SeqToMap(done)
  {
    var m := map[0 := ResetEntry(s)] + SeqToMap(done);
    assert forall j :: j in data <==> j in m;
    assert forall j :: j in data ==> data[j] == m[j];
  }

  lemma AppendNext<T>(prior: seq<T>, row: seq<T>, i: nat)
    requires i < |row|
    ensures prior + row[..i + 1] == (prior + row[..i]) + [row[i]]
  {
  }
}
