# Valve cascade: a verified model of the flow recurrence

The program simulates a triangle of binary flow splitters called valves.
Layer k (counting from 0) holds k+1 valves. Valves are numbered layer by
layer, left to right. Each valve splits its input x into `percent * x / 100`
(the first output) and the remainder (the second output). The root valve
takes the initial amount. Below the root, a valve's input depends on its
position in the layer:

- the leftmost valve takes the first output of the leftmost valve above it;
- the rightmost valve takes the second output of the rightmost valve above it;
- a middle valve takes the second output of its left parent plus the first
  output of its right parent.

`ValveSystem.process_flow` clears its result table and seeds it with a reset
root entry. It then walks the layers and positions in index order and
records (input, out1, out2) for every valve. `set_percentage` changes one
valve's percentage and ignores an index outside the table.

This project models that core in Dafny. Amounts and percentages are exact
`real`s.

- `valve.dfy` (module `Valve`): the split and the record of one valve.
- `triangle.dfy` (module `Triangle`): index arithmetic. It covers the
  program's running sums and their closed forms, where each layer starts,
  how every index maps to exactly one (layer, position), and which outputs
  of the previous layer feed each valve.
- `network.dfy` (module `Network`): the system's configuration, the guarded
  update, and the recurrence as pure functions. `FlowTable` builds the table
  by valve index, and `ProcessFlow` gives the resulting map, reset entry
  included. The file also holds the routing rule, read off the finished
  table.
- `flow_loop.dfy` (module `FlowLoop`): the program's nested loops over a
  map, proved to compute exactly `Network.ProcessFlow`.
- `flow_laws.dfy` (module `FlowLaws`): consequences of the recurrence. Each
  layer's inputs add up to the initial amount. With in-range inputs every
  amount lies in [0, initial amount]. With all valves at 0 % everything runs
  down the right edge, and with all at 100 % everything runs down the left
  edge.
- `examples_flow.dfy` (module `Examples`): a worked run with three layers,
  an initial amount of 1000 and every valve at 50 %.

The model keeps one edge case exactly as the code has it. With zero layers
no valve runs, so the result map still holds only the reset entry
`0 -> (initial_amount, 0, 0)`. This entry does not conserve flow unless the
amount is 0. The input form never allows zero layers.

## Model

| member | source | states |
|---|---|---|
| Triangle.SumRangeClosedForm | streamlit_weights.py:12 | twice the running sum lo + … + (hi-1) equals hi(hi-1) - lo(lo-1) (Gauss's formula) |
| Triangle.NumValvesClosedForm | streamlit_weights.py:12-13 | a network of L layers has 1 + 2 + … + L = L(L+1)/2 valves |
| Triangle.NumValves | streamlit_weights.py:12 | the valve count of L layers is the running sum 1 + 2 + … + L, as the program sums it; its closed form is NumValvesClosedForm |
| Triangle.PrevLayerStart | streamlit_weights.py:46 | `sum(range(layer))` is the index of the first valve of layer-1; adding `layer` gives the first valve of the current layer |
| Triangle.NextLayerStart | streamlit_weights.py:37 | layer k holds k+1 valves, so layer k+1 starts k+1 indices after layer k |
| Triangle.Locate | streamlit_weights.py:35-40 | every valve index below the valve count is at some position `pos <= layer` of some layer below the layer count |
| Triangle.Unique | streamlit_weights.py:35-40 | a valve index determines its layer and position uniquely, so the loops visit each index once |
| Triangle.Feeds | streamlit_weights.py:47-58 | a valve below the root is fed by one or two outputs, all from the previous layer, from the parent at the same position or the one to its left |
| Triangle.FeedsExactlyOnce | streamlit_weights.py:47-58 | each output of a layer feeds exactly one valve of the next layer: first outputs go down-left and second outputs go down-right |
| Triangle.ParentsPrecede | streamlit_weights.py:46-58 | every parent index lies in the previous layer and is strictly less than the child's `valve_id`, so computing in index order is well-defined |
| Valve.Split | streamlit_weights.py:24-28 | the two outputs add up to the input; percent 0 gives (0, x) and percent 100 gives (x, 0) |
| Valve.SplitShare | streamlit_weights.py:26 | the first output is `percent` per cent of the input |
| Valve.SplitBounds | streamlit_weights.py:26-27 | with percent in [0, 100] and x ≥ 0, both outputs lie in [0, x] |
| Valve.Run | streamlit_weights.py:61-62 | a recorded valve holds its input and conserves it |
| Network.Valid | streamlit_weights.py:12-13 | a system holds exactly one percentage per valve, as the constructor sizes the list and `set_percentage` never resizes it |
| Network.NewSystem | streamlit_weights.py:7-13 | a new system has L(L+1)/2 percentages, all 0, and keeps the given amount and layer count, which defaults to 3 |
| Network.DefaultLayers | streamlit_weights.py:7-13 | a system built without a layer count has the default 3 layers and 6 valves |
| Network.SetPercentage | streamlit_weights.py:71-74 | an in-range index sets exactly that percentage and leaves the others unchanged; an out-of-range index changes nothing; the length never changes |
| Network.ValveInput | streamlit_weights.py:42-58 | the routing rule: the root takes the initial amount; below it the leftmost valve takes `out1` of the previous layer's start, the rightmost takes `out2` of the previous layer's last valve, and a middle valve takes `out2` of its left parent plus `out1` of its right parent, all read from the valves computed so far |
| Network.InputReadsEarlierLayers | streamlit_weights.py:42-58 | a valve's input depends only on the valves of earlier layers |
| Network.InputIsGathered | streamlit_weights.py:47-58 | below the root, a valve's input is exactly the sum of the outputs that feed it |
| Network.LayerRow | streamlit_weights.py:37-63 | one pass of the inner loop: a layer yields one record per valve, `layer + 1` of them, and every record conserves its input |
| Network.ResetEntry | streamlit_weights.py:18-22 | the reset root entry holds the initial amount as its input |
| Network.ResetBalance | streamlit_weights.py:22 | the reset root entry balances its outputs exactly when the initial amount is 0 |
| Network.FlowTable | streamlit_weights.py:30-65 | the table of L layers has one entry per valve, and every entry conserves its input |
| Network.ProcessFlow | streamlit_weights.py:18-65 | with at least one layer, the result has keys exactly 0 .. n-1, every entry conserves, and the root is the split of the initial amount by `percentages[0]`; with no layers only the reset entry remains |
| Network.FlowPrefix | streamlit_weights.py:36-63 | the table of fewer layers is a prefix of the table of more layers: later layers never rewrite earlier valves |
| Network.TableEntry | streamlit_weights.py:40-62 | the valve at position `pos` of `layer` is the split, by its own percentage, of the input routed from the earlier layers |
| Network.LastLayerEntry | streamlit_weights.py:36-63 | the valves of the last layer of a table are, position by position, the entries of the row that layer computes |
| Network.RowEntry | streamlit_weights.py:59-62 | the valve at position `pos` of a freshly computed layer runs on its routed input with the percentage at its own index |
| Network.Routing | streamlit_weights.py:42-62 | in the finished table the root takes the initial amount; the leftmost valve takes `out1` of the previous layer's start; the rightmost takes `out2` of the previous layer's last valve; a middle valve at `i` takes `out2` of `start+i-1` plus `out1` of `start+i`; each valve is split by its own percentage |
| FlowLoop.ProcessFlow | streamlit_weights.py:30-65 | the nested loops over a map compute exactly `Network.ProcessFlow`, whatever the table held before, because it is cleared first |
| FlowLoop.ReadInput | streamlit_weights.py:42-58 | reading parents from the partially filled map gives the routed input |
| FlowLaws.TotalConserves | streamlit_weights.py:26-27 | over valves that each conserve, the inputs add up to all first outputs plus all second outputs |
| FlowLaws.LayerPrefixInflow | streamlit_weights.py:47-58 | the first j valves of a layer take in the first outputs of the first j parents and the second outputs of the first j-1 |
| FlowLaws.LayerHandOver | streamlit_weights.py:47-58 | the inputs of a layer add up to all outputs of the previous layer |
| FlowLaws.LayerConservation | streamlit_weights.py:42-62 | the inputs of every layer add up to the initial amount |
| FlowLaws.LayerNonNegative | streamlit_weights.py:217-228 | with a non-negative amount and percentages in [0, 100], every input and output of a layer is non-negative |
| FlowLaws.Bounded | streamlit_weights.py:217-228 | with a non-negative amount and percentages in [0, 100], every recorded input and output lies in [0, initial amount] |
| FlowLaws.ClosedValve | streamlit_weights.py:24-28 | with every valve at 0 %, each valve's first output is 0 and its second output is its input |
| FlowLaws.OpenValve | streamlit_weights.py:24-28 | with every valve at 100 %, each valve's first output is its input and its second output is 0 |
| FlowLaws.ClosedInput | streamlit_weights.py:47-58 | with every valve at 0 %, a valve below the root receives what its upper-left parent received, and the leftmost valve receives 0 |
| FlowLaws.OpenInput | streamlit_weights.py:47-58 | with every valve at 100 %, a valve below the root receives what its upper-right parent received, and the rightmost valve receives 0 |
| FlowLaws.AllClosedRightEdge | streamlit_weights.py:47-58 | with every valve at 0 %, the rightmost valve of every layer receives the whole amount and every other valve receives 0 |
| FlowLaws.AllOpenLeftEdge | streamlit_weights.py:47-58 | with every valve at 100 %, the leftmost valve of every layer receives the whole amount and every other valve receives 0 |
| Examples.HalfValve | streamlit_weights.py:24-28 | at 50 % a valve's two outputs are each half its input |
| Examples.HalfSplitExample | streamlit_weights.py:30-65 | for any system with three layers, amount 1000 and all valves at 50 %, the result map is 1000→(500,500); 500→(250,250) twice; then 250→(125,125), 500→(250,250), 250→(125,125) |

## Left out

- `draw_valve_system` (streamlit_weights.py:76-209): this is rendering over a plotting and graph library. The layout, colours and widths are not modelled.
- `main` (streamlit_weights.py:211-256): this is the web form. Only its input ranges are modelled, as the precondition `FlowLaws.InRange` of the bound lemmas. These ranges are a non-negative amount and percentages in [0, 100]. The 5 % step is not modelled, and neither is the 1–5 layer range.
- `get_outputs` (streamlit_weights.py:67-69): a plain accessor that returns the table.
- Floating point: amounts and percentages are exact reals. This makes conservation exact, where the program only conserves up to rounding.
- Network.NewSystem: the layer count is a natural number; its default of 3 is kept. The program would also accept a negative count and give 0 valves, as for 0 layers. The form's minimum is 1.
- Dynamic typing: the program accepts any number as a percentage. The model takes any real and does not reject values outside [0, 100], just as the program does not. Only the bound lemmas assume the range.
- Object state: the system object's fields are modelled as an immutable `ValveSystem` value. `set_percentage` returns an updated value instead of changing the object in place.
