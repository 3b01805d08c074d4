/**
 The valve system: its configuration, the guarded percentage update, and the
 layered routing recurrence that computes every valve's input and outputs.
 The recurrence is given here as pure functions; FlowLoop mirrors the
 program's nested loops over a map and is proved to compute the same table.
 */
module Network {
  import opened Valve
  import opened Triangle

  /** Configuration of a run: the amount fed to the root valve, the layer count and one percentage per valve. */
  datatype ValveSystem = ValveSystem(initialAmount: real, numLayers: nat, percentages: seq<real>)

  /** The system holds exactly one percentage per valve. */
  predicate Valid(s: ValveSystem)
  {
    |s.percentages| == NumValves(s.numLayers)
  }

  /** A fresh system: every valve starts at 0 per cent. Without a layer count there are three layers. */
  function NewSystem(initialAmount: real, numLayers: nat := 3): (s: ValveSystem)
    ensures Valid(s)
    ensures 2 * |s.percentages| == numLayers * (numLayers + 1)
    ensures s.initialAmount == initialAmount && s.numLayers == numLayers
    ensures forall j :: 0 <= j < |s.percentages| ==> s.percentages[j] == 0.0
  {
    NumValvesClosedForm(numLayers);
    ValveSystem(initialAmount, numLayers, seq(NumValves(numLayers), _ => 0.0))
  }

  /** Without a layer count a new system has three layers and six valves. */
  lemma DefaultLayers(initialAmount: real)
    ensures NewSystem(initialAmount).numLayers == 3
    ensures |NewSystem(initialAmount).percentages| == 6
  {
    NumValvesClosedForm(3);
  }

  /** Sets the percentage of one valve; an index outside the table is ignored. */
  function SetPercentage(s: ValveSystem, index: int, percent: real): (s': ValveSystem)
    ensures s'.initialAmount == s.initialAmount && s'.numLayers == s.numLayers
    ensures |s'.percentages| == |s.percentages|
    ensures Valid(s) ==> Valid(s')
    ensures 0 <= index < |s.percentages| ==> s'.percentages[index] == percent
    ensures forall j :: 0 <= j < |s.percentages| && j != index ==> s'.percentages[j] == s.percentages[j]
    ensures !(0 <= index < |s.percentages|) ==> s' == s
  {
    if 0 <= index < |s.percentages| then s.(percentages := s.percentages[index := percent])
    else s
  }

  /**
   The input of the valve at `pos` of `layer`, read from the table `t` of the
   valves computed so far (at least every layer before `layer`). Parents are
   addressed by absolute index from the start of the previous layer.
   */
  function ValveInput(initial: real, t: seq<ValveData>, layer: nat, pos: nat): real
    requires pos <= layer
    requires LayerStart(layer) <= |t|
  {
    if layer == 0 then initial
    else
      var prevLayerStart := PrevLayerStart(layer);
      if pos == 0 then t[prevLayerStart].out1
      else if pos == layer then t[prevLayerStart + layer - 1].out2
      else t[prevLayerStart + pos - 1].out2 + t[prevLayerStart + pos].out1
  }

  /**
   A valve's input depends only on the layers before it: two tables that
   agree on those valves give the same input, so it makes no difference
   whether later valves have been recorded yet.
   */
  lemma InputReadsEarlierLayers(initial: real, t1: seq<ValveData>, t2: seq<ValveData>, layer: nat, pos: nat)
    requires pos <= layer
    requires LayerStart(layer) <= |t1| && LayerStart(layer) <= |t2|
    requires t1[..LayerStart(layer)] == t2[..LayerStart(layer)]
    ensures ValveInput(initial, t1, layer, pos) == ValveInput(initial, t2, layer, pos)
  {
    if 1 <= layer {
      var p := PrevLayerStart(layer);
      assert forall j :: 0 <= j < LayerStart(layer) ==> t1[j] == t1[..LayerStart(layer)][j];
      assert forall j :: 0 <= j < LayerStart(layer) ==> t2[j] == t2[..LayerStart(layer)][j];
    }
  }

  /** The sum of the amounts the sources `srcs` deliver, counting positions from `base`. */
  function Gathered(t: seq<ValveData>, base: nat, srcs: seq<Source>): real
    requires forall src :: src in srcs ==> base + src.pos < |t|
  {
    if |srcs| == 0 then 0.0
    else
      var last := srcs[|srcs| - 1];
      Gathered(t, base, srcs[..|srcs| - 1]) + Amount(t[base + last.pos], last.port)
  }

  /**
   Below the root, a valve's input is exactly what its feeding outputs of the
   previous layer deliver; together with FeedsExactlyOnce this says every
   output of a layer is taken in by exactly one valve of the next.
   */
  lemma InputIsGathered(initial: real, t: seq<ValveData>, layer: nat, pos: nat)
    requires 1 <= layer && pos <= layer
    requires LayerStart(layer) <= |t|
    ensures forall src :: src in Feeds(layer, pos) ==> LayerStart(layer - 1) + src.pos < |t|
    ensures ValveInput(initial, t, layer, pos) == Gathered(t, LayerStart(layer - 1), Feeds(layer, pos))
  {
    var srcs := Feeds(layer, pos);
    var base := LayerStart(layer - 1);
    if |srcs| == 2 {
      assert srcs[..1] == [srcs[0]];
      assert Gathered(t, base, srcs[..1]) == Amount(t[base + srcs[0].pos], srcs[0].port) by {
        assert srcs[..1][..0] == [];
      }
    } else {
      assert srcs[..0] == [];
    }
  }

  /** The valves of `layer`, computed left to right from the table `prior` of all earlier layers. */
  function LayerRow(initial: real, pcts: seq<real>, prior: seq<ValveData>, layer: nat): (row: seq<ValveData>)
    requires |prior| == LayerStart(layer)
    requires LayerStart(layer + 1) <= |pcts|
    ensures |row| == layer + 1
    ensures forall i :: 0 <= i < |row| ==> Conserves(row[i])
  {
    NextLayerStart(layer);
    seq(layer + 1, i requires 0 <= i < layer + 1 =>
      Run(ValveInput(initial, prior, layer, i), pcts[LayerStart(layer) + i]))
  }

  /** The table of the first `layers` layers, indexed by valve number. */
  function FlowTable(initial: real, pcts: seq<real>, layers: nat): (t: seq<ValveData>)
    requires NumValves(layers) <= |pcts|
    ensures |t| == NumValves(layers)
    ensures forall j :: 0 <= j < |t| ==> Conserves(t[j])
    decreases layers
  {
    if layers == 0 then []
    else
      var prior := FlowTable(initial, pcts, layers - 1);
      NextLayerStart(layers - 1);
      prior + LayerRow(initial, pcts, prior, layers - 1)
  }

  /** The table of every valve of the system. */
  function Table(s: ValveSystem): (t: seq<ValveData>)
    requires Valid(s)
    ensures |t| == |s.percentages|
  {
    FlowTable(s.initialAmount, s.percentages, s.numLayers)
  }

  /** The entry the table is reset to before a run: the root input with both outputs zero. */
  function ResetEntry(s: ValveSystem): (v: ValveData)
    ensures v.input == s.initialAmount
  {
    ValveData(s.initialAmount, 0.0, 0.0)
  }

  /** The reset entry balances its outputs only when nothing flows in. */
  lemma ResetBalance(s: ValveSystem)
    ensures Conserves(ResetEntry(s)) <==> s.initialAmount == 0.0
  {
  }

  function SeqToMap(t: seq<ValveData>): (m: map<int, ValveData>)
    ensures forall j :: j in m <==> 0 <= j < |t|
    ensures forall j :: 0 <= j < |t| ==> m[j] == t[j]
  {
    map j | 0 <= j < |t| :: t[j]
  }

  /**
   The result of a run: the table is cleared, the root entry is reset, and
   every valve of every layer is then recorded in index order. With at least
   one layer the reset entry is overwritten by the root valve.
   */
  function ProcessFlow(s: ValveSystem): (m: map<int, ValveData>)
    requires Valid(s)
    ensures 1 <= s.numLayers ==> forall j :: j in m <==> 0 <= j < NumValves(s.numLayers)
    ensures 1 <= s.numLayers ==> forall j :: j in m ==> Conserves(m[j])
    ensures 1 <= s.numLayers ==> m[0] == Run(s.initialAmount, s.percentages[0])
    ensures s.numLayers == 0 ==> m == map[0 := ResetEntry(s)]
  {
    var t := Table(s);
    var m := map[0 := ResetEntry(s)] + SeqToMap(t);
    if 1 <= s.numLayers then
      Routing(s.initialAmount, s.percentages, s.numLayers, 0, 0);
      m
    else
      m
  }

  /** A smaller network's table is a prefix of a larger one's: later layers never rewrite earlier valves. */
  lemma {:induction false} FlowPrefix(initial: real, pcts: seq<real>, l1: nat, l2: nat)
    requires l1 <= l2 && NumValves(l2) <= |pcts|
    ensures NumValves(l1) <= NumValves(l2)
    ensures FlowTable(initial, pcts, l1) == FlowTable(initial, pcts, l2)[..NumValves(l1)]
    decreases l2 - l1
  {
    LayerStartMonotone(l1, l2);
    if l1 < l2 {
      FlowPrefix(initial, pcts, l1, l2 - 1);
      var prior := FlowTable(initial, pcts, l2 - 1);
      assert FlowTable(initial, pcts, l2)[..|prior|] == prior;
    } else {
      assert FlowTable(initial, pcts, l2)[..NumValves(l2)] == FlowTable(initial, pcts, l2);
    }
  }

  /** Valve `pos` of `layer` in the full table is the run of that valve on its routed input. */
  lemma TableEntry(initial: real, pcts: seq<real>, layers: nat, layer: nat, pos: nat)
    requires NumValves(layers) <= |pcts|
    requires layer < layers && pos <= layer
    ensures LayerStart(layer) + pos < NumValves(layers)
    ensures
      var v := LayerStart(layer) + pos;
      FlowTable(initial, pcts, layers)[v]
        == Run(ValveInput(initial, FlowTable(initial, pcts, layer), layer, pos), pcts[v])
  {
    NextLayerStart(layer);
    LayerStartMonotone(layer + 1, layers);
    FlowPrefix(initial, pcts, layer + 1, layers);
    LastLayerEntry(initial, pcts, layer + 1, pos);
    RowEntry(initial, pcts, FlowTable(initial, pcts, layer), layer, pos);
  }

  /** The valves of the last layer of a table are the entries of that layer's row. */
  lemma LastLayerEntry(initial: real, pcts: seq<real>, layers: nat, pos: nat)
    requires 1 <= layers && NumValves(layers) <= |pcts|
    requires pos < layers
    ensures LayerStart(layers - 1) + pos < NumValves(layers)
    ensures
      var prior := FlowTable(initial, pcts, layers - 1);
      FlowTable(initial, pcts, layers)[LayerStart(layers - 1) + pos]
        == LayerRow(initial, pcts, prior, layers - 1)[pos]
  {
    NextLayerStart(layers - 1);
  }

  /** The valve at position `pos` of a freshly computed layer runs on its routed input with its own percentage. */
  lemma RowEntry(initial: real, pcts: seq<real>, prior: seq<ValveData>, layer: nat, pos: nat)
    requires |prior| == LayerStart(layer)
    requires LayerStart(layer + 1) <= |pcts|
    requires pos <= layer
    ensures LayerStart(layer) + pos < |pcts|
    ensures LayerRow(initial, pcts, prior, layer)[pos]
         == Run(ValveInput(initial, prior, layer, pos), pcts[LayerStart(layer) + pos])
  {
    NextLayerStart(layer);
  }

  /** Reading a valve's parents from the finished table gives the same input as reading them from the earlier layers alone. */
  lemma InputFromFullTable(initial: real, pcts: seq<real>, layers: nat, layer: nat, pos: nat)
    requires NumValves(layers) <= |pcts|
    requires layer < layers && pos <= layer
    ensures LayerStart(layer) <= NumValves(layers)
    ensures ValveInput(initial, FlowTable(initial, pcts, layer), layer, pos)
         == ValveInput(initial, FlowTable(initial, pcts, layers), layer, pos)
  {
    FlowPrefix(initial, pcts, layer, layers);
    var prior := FlowTable(initial, pcts, layer);
    assert prior[..LayerStart(layer)] == prior;
    InputReadsEarlierLayers(initial, prior, FlowTable(initial, pcts, layers), layer, pos);
  }

  /**
   The routing rule, read off the finished table: the root takes the initial
   amount, the leftmost valve of a layer takes its parent's first output, the
   rightmost the second output of the previous layer's last valve, and a
   middle valve the left parent's second output plus the right parent's first.
   Every valve is split by its own percentage.
   */
  lemma Routing(initial: real, pcts: seq<real>, layers: nat, layer: nat, pos: nat)
    requires NumValves(layers) <= |pcts|
    requires layer < layers && pos <= layer
    ensures LayerStart(layer) + pos < NumValves(layers)
    ensures
      var t := FlowTable(initial, pcts, layers);
      var v := LayerStart(layer) + pos;
      && t[v] == Run(t[v].input, pcts[v])
      && (layer == 0 ==> t[v].input == initial)
      && (1 <= layer ==>
            var p := LayerStart(layer - 1);
            && (pos == 0 ==> t[v].input == t[p].out1)
            && (pos == layer ==> t[v].input == t[p + layer - 1].out2)
            && (0 < pos < layer ==> t[v].input == t[p + pos - 1].out2 + t[p + pos].out1))
  {
    TableEntry(initial, pcts, layers, layer, pos);
    InputFromFullTable(initial, pcts, layers, layer, pos);
    if 1 <= layer {
      assert PrevLayerStart(layer) == LayerStart(layer - 1);
    }
  }
}
