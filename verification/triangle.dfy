/**
 Index arithmetic of the triangular valve network. Layer k (counting from 0)
 holds k+1 valves, and valves are numbered layer by layer, left to right.
 This module relates the running sums the program computes to the closed
 forms, locates every valve index in exactly one (layer, position), and
 describes which outputs of the previous layer feed each valve.
 */
module Triangle {
  import opened Valve

  /** The sum lo + (lo+1) + ... + (hi-1), which is 0 when the range is empty. */
  function SumRange(lo: int, hi: int): (r: int)
    ensures 0 <= lo ==> 0 <= r
    decreases hi - lo
  {
    if hi <= lo then 0 else SumRange(lo, hi - 1) + (hi - 1)
  }

  /** Gauss's closed form of the running sum. */
  lemma {:induction false} SumRangeClosedForm(lo: int, hi: int)
    requires lo <= hi
    ensures 2 * SumRange(lo, hi) == hi * (hi - 1) - lo * (lo - 1)
    decreases hi - lo
  {
    if lo < hi {
      SumRangeClosedForm(lo, hi - 1);
      assert hi * (hi - 1) == (hi - 1) * (hi - 2) + 2 * (hi - 1);
    }
  }

  /** Starting the running sum at 0 or at 1 makes no difference. */
  lemma {:induction false} SumFromZero(hi: nat)
    ensures SumRange(0, hi) == SumRange(1, hi)
  {
    if 1 < hi {
      SumFromZero(hi - 1);
    }
  }

  /** The number of valves of a network with `layers` layers, 1 + 2 + ... + layers. */
  function NumValves(layers: nat): nat
  {
    SumRange(1, layers + 1)
  }

  /** A network of L layers has L(L+1)/2 valves. */
  lemma NumValvesClosedForm(layers: nat)
    ensures 2 * NumValves(layers) == layers * (layers + 1)
  {
    SumRangeClosedForm(1, layers + 1);
  }

  /** The index of the first valve of `layer`: the number of valves in the layers before it. */
  function LayerStart(layer: nat): nat
  {
    NumValves(layer)
  }

  /** The start of the previous layer as the program computes it: 0 + 1 + ... + (layer-1). */
  function PrevLayerStart(layer: nat): (start: nat)
    ensures 1 <= layer ==> start == LayerStart(layer - 1)
    ensures start + layer == LayerStart(layer)
  {
    SumFromZero(layer);
    SumRange(0, layer)
  }

  /** Layer k holds k+1 valves: the next layer starts k+1 indices later. */
  lemma NextLayerStart(layer: nat)
    ensures LayerStart(layer + 1) == LayerStart(layer) + layer + 1
  {
  }

  lemma {:induction false} LayerStartMonotone(k1: nat, k2: nat)
    requires k1 <= k2
    ensures LayerStart(k1) + (k2 - k1) <= LayerStart(k2)
    decreases k2 - k1
  {
    if k1 < k2 {
      LayerStartMonotone(k1 + 1, k2);
      NextLayerStart(k1);
    }
  }

  /** Every valve index of a network with `layers` layers lies at some position of some layer. */
  lemma {:induction false} Locate(layers: nat, v: int) returns (layer: nat, pos: nat)
    requires 0 <= v < NumValves(layers)
    ensures layer < layers && pos <= layer
    ensures v == LayerStart(layer) + pos
  {
    var last := layers - 1;
    NextLayerStart(last);
    if v < LayerStart(last) {
      layer, pos := Locate(last, v);
    } else {
      layer, pos := last, v - LayerStart(last);
    }
  }

  /** A valve index determines its layer and position uniquely. */
  lemma Unique(k1: nat, i1: nat, k2: nat, i2: nat)
    requires i1 <= k1 && i2 <= k2
    requires LayerStart(k1) + i1 == LayerStart(k2) + i2
    ensures k1 == k2 && i1 == i2
  {
    if k1 < k2 {
      NextLayerStart(k1);
      LayerStartMonotone(k1 + 1, k2);
    } else if k2 < k1 {
      NextLayerStart(k2);
      LayerStartMonotone(k2 + 1, k1);
    }
  }

  /** An output of the previous layer: the valve's position within that layer and which output. */
  datatype Source = Source(pos: nat, port: Port)

  /**
   The outputs of layer `layer - 1` that flow into the valve at `pos` of
   `layer`: the leftmost valve takes the first output of the leftmost parent,
   the rightmost valve the second output of the rightmost parent, and a
   middle valve both inward outputs of its two neighbouring parents.
   */
  function Feeds(layer: nat, pos: nat): (srcs: seq<Source>)
    requires 1 <= layer && pos <= layer
    ensures 1 <= |srcs| <= 2
    ensures forall s :: s in srcs ==> s.pos < layer && s.port != In
    ensures forall s :: s in srcs ==> s.pos == pos || s.pos + 1 == pos
  {
    if pos == 0 then [Source(0, Out1)]
    else if pos == layer then [Source(layer - 1, Out2)]
    else [Source(pos - 1, Out2), Source(pos, Out1)]
  }

  /** The position in the next layer that receives an output: first outputs go down-left, second down-right. */
  function Receiver(src: Source): nat
  {
    if src.port == Out1 then src.pos else src.pos + 1
  }

  /** Each output of a layer feeds exactly one valve of the next layer. */
  lemma FeedsExactlyOnce(layer: nat, src: Source)
    requires 1 <= layer && src.pos < layer && src.port != In
    ensures Receiver(src) <= layer && src in Feeds(layer, Receiver(src))
    ensures forall pos: nat :: pos <= layer && src in Feeds(layer, pos) ==> pos == Receiver(src)
  {
  }

  /** Every parent index lies in the previous layer, so strictly before the child's own index. */
  lemma ParentsPrecede(layer: nat, pos: nat, src: Source)
    requires 1 <= layer && pos <= layer && src in Feeds(layer, pos)
    ensures LayerStart(layer - 1) <= PrevLayerStart(layer) + src.pos < LayerStart(layer) <= LayerStart(layer) + pos
  {
  }
}
