# Optical network core, modelled in Dafny

This project models `core/elements.py` of a small optical-network simulator.

**Signals.** A `SignalInformation` carries:
- a signal power and an accumulated noise power, in watts;
- an accumulated latency, in seconds;
- the list of node labels it still has to visit.

**Nodes and lines.** A `Node` owns its position, the labels of its neighbours and a `successive` table. A `Line` owns its length in km and its own `successive` table.

**The network.** A `Network` is built from a topology. It creates one line per label `a+b` for every node `a` and every listed neighbour `b`; when two pairs give the same label, the first one wins. Then it *connects* the network: every `successive` table is cleared and rebuilt by decoding each line label. The network can:
- enumerate the simple paths between two nodes with a breadth-first search over a FIFO queue of partial paths;
- *propagate* a signal. Each node drops its own label from the front of the path and hands the signal to the line towards the next label. Each line adds its latency, `length*1000/FIBER_SPEED`, and its noise, `1e-9*power*length`, and then hands the signal to the node at its far end.

**How the model represents this.**
- Node and line objects are not modelled as a heap graph. The `Network` class owns label-keyed maps instead:
  - `nodes`: label → position and neighbour list;
  - `lines`: label → length;
  - `lineOrder`: the insertion order of the line dictionary;
  - `nodeSucc`: node → next label → line;
  - `lineSucc`: line → destination label → node.
- `SignalInformation` is a class whose methods update its fields in place.
- Propagation is a pair of mutually recursive methods. They are proved equal to the pure functions `NodeStep`/`LineStep`, which return the final signal state and an `Outcome`: `Done`, or `Failed(IndexError)` / `Failed(KeyError(label))` where the Python code raises.
- `Connect` and `FindPaths` are loops, proved against specification functions (`NodeWiring`, `LineWiring`) and the loop invariant `Searching`.
- Lengths, latency and noise are exact reals. `FIBER_SPEED` is `(2/3)*3e8` (core/math_utils.py:4-7), which equals `2e8`.

**Line labels.** `connect` decodes a line label from its first two characters only (core/elements.py:173-175). The model keeps this:
- `Wiring.SingleCharLineWired` proves the decoding correct for one-character node labels;
- `Wiring.NoSingleCharNodeWiresNothing` and `Wiring.NoSingleCharLineWiresNothing` prove that when no node label is a single character, connect wires nothing at all;
- `Wiring.MultiCharLabelsUnwired` is the concrete case: with only the nodes N1 and N2, the lines N1N2 and N2N1 are not wired. Labels of mixed lengths can still be misread: with nodes N and 1 also present, line N1N2 would wire N to 1.

Modules, one per file: `Seqs` (sequence vocabulary), `Signal`, `Fiber` (per-line latency and noise), `Topology` (line creation), `Wiring` (what `connect` builds), `Propagation`, `Paths` (the search invariant) and `Elements` (the `Network` class).

## Model

| member | source | states |
|---|---|---|
| Signal.SignalInformation.constructor | core/elements.py:8-12 | a new signal has the given power and path, zero noise and zero latency |
| Signal.SignalInformation.GetPath | core/elements.py:24-25 | returns the path's contents (a value copy) and changes nothing |
| Signal.SignalInformation.AddSignalPower | core/elements.py:41-42 | power grows by exactly the increment; noise, latency and path are unchanged |
| Signal.SignalInformation.AddNoisePower | core/elements.py:44-45 | noise grows by exactly the increment; nothing else changes |
| Signal.SignalInformation.AddLatency | core/elements.py:47-48 | latency grows by exactly the increment; nothing else changes |
| Signal.SignalInformation.DropNode | core/elements.py:50-52 | a non-empty path loses exactly its first element; an empty path stays empty; power, noise and latency are unchanged |
| Signal.SignalInformation.NextNode | core/elements.py:54-56 | None exactly when the path is empty, otherwise the path's first label; reads only, changes nothing |
| Signal.DropFirst | core/elements.py:50-52 | the first element followed by the result gives back the path, which is one shorter; empty stays empty |
| Signal.Head | core/elements.py:54-56 | None exactly on the empty path; otherwise the head followed by `DropFirst` gives back the path |
| Fiber.LatencyGeneration | core/elements.py:128-129 | the latency times FIBER_SPEED is length*1000; it is non-negative for non-negative length |
| Fiber.NoiseGeneration | core/elements.py:131-132 | the noise is zero when power or length is zero, and non-negative when both are non-negative |
| Propagation.NodeStepDrops | core/elements.py:93-98 | a node hop removes the front label; a path then empty ends with Done; a next label with no successor entry fails with KeyError naming it; otherwise the line towards that label continues the trial |
| Propagation.LineStepAccumulates | core/elements.py:135-140 | a line hop adds its latency and the noise at the power the signal has on entry, leaves power and path alone, ends on an empty path, fails with KeyError on a missing successor, and otherwise forwards to the successor node |
| Propagation.WellWiredRun | core/elements.py:93-98 | from its front node, a path whose consecutive nodes are all linked is consumed completely with Done; power is unchanged, and latency and noise grow by exactly the per-line sums |
| Propagation.WellWiredLaunch | core/elements.py:197-199 | a new signal on a well-wired path that starts at a node ends with an empty path, unchanged power, the summed noise and latency, and Done |
| Propagation.GapRun | core/elements.py:96-98 | a path with a first unlinked pair at position i fails with KeyError on the label at i+1, and that label is still at the front of the path |
| Propagation.DoneIffWellWired | core/elements.py:93-98 | a trial started at the path's front node succeeds if and only if every consecutive pair is linked |
| Propagation.FirstGapExists | core/elements.py:96-97 | a path that is not well wired has a first unlinked pair |
| Propagation.RunMonotone | core/elements.py:135-140 | whatever the outcome: power never changes, latency never decreases, noise never decreases at non-negative power, the path is only consumed from the front, and Done leaves it empty |
| Propagation.OneLineExample | core/elements.py:128-140 | on hand-written tables, a 1 mW signal over one 5 km line ends with 5e-12 W noise, 2.5e-5 s latency, an empty path and Done |
| Topology.Pairs | core/elements.py:156-158 | in a closed topology every visited (node, neighbour) pair joins two nodes |
| Topology.PairsSnoc | core/elements.py:156-158 | the pairs for the first i+1 nodes are the pairs for the first i followed by node i's neighbour row |
| Topology.PairsCover | core/elements.py:156-158 | every listed neighbour b of a visited node a gives the pair (a, b) |
| Topology.PlanLinesOrder | core/elements.py:162-164 | the line table lists each label once, and lists exactly the labels that have a length |
| Topology.PlanLinesLabels | core/elements.py:162-164 | a label has a line if and only if some visited pair produces it |
| Topology.PlanLinesFirstWins | core/elements.py:162-164 | a label's length is the one computed for the first pair that produces the label |
| Topology.PlanLinesCover | core/elements.py:156-164 | every (node, listed neighbour) pair of a closed topology has a line labelled by their concatenation |
| Topology.PlanLinesTwoChar | core/elements.py:156-164 | with one-character node labels every line label is two characters, the first and second naming nodes |
| Topology.PlanLinesNonNegative | core/elements.py:159-164 | with a non-negative distance function every line length is non-negative |
| Elements.BuildLines | core/elements.py:155-164 | the nested line-creation loops produce exactly the line table of the first-wins plan, in insertion order |
| Wiring.Cleared | core/elements.py:168-171 | every key gets an empty successor table |
| Wiring.NodeWiring | core/elements.py:172-177 | the node tables have exactly the node labels as keys |
| Wiring.LineWiring | core/elements.py:172-178 | the line tables have exactly the line labels as keys |
| Wiring.NodeWiringSpec | core/elements.py:172-177 | node a reaches b if and only if some line label decodes to (a, b); the line stored is the last such label in dictionary order |
| Wiring.UniqueLinkWired | core/elements.py:172-177 | when only one line decodes to (a, b), node a reaches b through that line |
| Wiring.LineWiringSpec | core/elements.py:172-178 | a line's table maps its second character to itself when its label decodes to two nodes, and is empty otherwise, including labels shorter than two characters |
| Wiring.NodeSuccessorCoherent | core/elements.py:176-178 | the line that node a uses towards b exists and leads to exactly b |
| Wiring.LineSuccessorCoherent | core/elements.py:176-178 | a line only leads to node labels, each mapped to itself |
| Wiring.SingleCharLineWired | core/elements.py:173-177 | with one-character labels, a line a+b wires node a to b through a line that decodes to (a, b) |
| Wiring.MultiCharLabelsUnwired | core/elements.py:173-176 | with the labels N1 and N2, the lines N1N2 and N2N1 wire nothing |
| Wiring.NoSingleCharNodeWiresNothing | core/elements.py:172-177 | when no node label is one character, every node's successor table stays empty whatever the lines are |
| Wiring.NoSingleCharLineWiresNothing | core/elements.py:172-178 | when no node label is one character, every line's successor table stays empty whatever the lines are |
| Elements.WiredWellFormed | core/elements.py:167-178 | the wired tables only name existing lines and nodes, and every line leads to its own destination |
| Elements.Network.constructor | core/elements.py:148-165 | the network holds the topology's nodes and the first-wins line table, and is connected and valid |
| Elements.Network.Connect | core/elements.py:167-178 | after the call both successor tables are exactly the decoded wiring, whatever they held before; on an already connected network they are unchanged, so a second call changes nothing |
| Elements.Network.ClearNodeTables | core/elements.py:168-169 | every node's successor table becomes empty |
| Elements.Network.ClearLineTables | core/elements.py:170-171 | every line's successor table becomes empty |
| Elements.Network.WireLines | core/elements.py:172-178 | the wiring loop, visiting lines in insertion order and skipping short labels, yields exactly the decoded node and line tables |
| Elements.Network.FindPaths | core/elements.py:180-195 | [] when src or dst is unknown; a path is returned if and only if it is a simple walk from src to dst along neighbour lists; with duplicate-free neighbour lists each path appears once; lengths never decrease; src == dst gives [[src]] |
| Elements.Network.Enqueue | core/elements.py:191-194 | appends to the queue, in neighbour order, one extension of the current path per neighbour not already on it |
| Paths.SearchStart | core/elements.py:183-184 | the initial queue [[src]] with no results satisfies the search invariant |
| Paths.SearchDone | core/elements.py:186-190 | dequeuing a path that ends at dst and appending it to the results keeps the invariant |
| Paths.SearchExpand | core/elements.py:186-194 | dequeuing any other path and enqueuing its extensions keeps the invariant and strictly lowers the remaining-work measure |
| Paths.SearchEnd | core/elements.py:185-195 | with an empty queue the results are exactly the routes, each once under duplicate-free neighbour lists, shortest first |
| Paths.PrefixExtends | core/elements.py:191-194 | a queued proper prefix of a route has the route's next node among its children |
| Elements.Network.NodePropagate | core/elements.py:93-98 | the signal's final state and the outcome are those of the node step |
| Elements.Network.LinePropagate | core/elements.py:135-140 | the signal's final state and the outcome are those of the line step |
| Elements.Network.Propagate | core/elements.py:197-199 | the final state and outcome are those of the launch: IndexError on an empty path, KeyError on an unknown start label, otherwise the front node's run |
| Elements.Network.RouteWired | core/elements.py:172-177 | with one-character labels, consecutive nodes on any route are linked after connecting |
| Elements.Network.RoutePropagates | core/elements.py:180-199 | with one-character labels, every path the search can return propagates to the end with unchanged power and exactly the per-line sums of noise and latency |
| Elements.Network.SingleCharHop | core/elements.py:172-177 | with one-character node labels and two-character line labels, node a reaches each listed neighbour b through line a+b, whose length is the hop's length |
| Elements.TriangleTrial | core/elements.py:148-199 | the three-node example built by the constructor: the search from A to C returns exactly [A-C, A-B-C], and a 1 mW signal on A-C ends with Done, 5e-12 W of noise and 2.5e-5 s of latency |
| Elements.TwoRoutesListed | core/elements.py:180-195 | when A-C and A-B-C are the only routes, a duplicate-free result list holding exactly the routes, shortest first, is A-C followed by A-B-C |
| Elements.TriangleRoutesOnly | core/elements.py:148-153 | in the three-node triangle no node lists a neighbour twice, and every route from A to C is A-C or A-B-C |
| Elements.ShortestRouteFirst | core/elements.py:180-195 | a result list holding exactly the routes, shortest first, starts with the one-hop route A-C when A-C and A-B-C are both routes |
| Elements.DirectLineSums | core/elements.py:128-140 | one 5 km hop from A to C gives a 1 mW signal 5e-12 W of noise and 2.5e-5 s of latency |

## Left out

- Reading the topology from a JSON file (core/elements.py:145-147) is file I/O. The constructor takes the topology as a map plus its key order.
- `math.hypot` (core/elements.py:160) is floating point. It is a parameter of the constructor, and the model requires it to be non-negative.
- Python's recursion limit: `Node.propagate` and `Line.propagate` call each other (core/elements.py:98, 140), two stack frames per hop, so with the default limit of 1000 a path of roughly 500 labels raises RecursionError. The model's mutually recursive methods have no such bound.
- Elements.TriangleNorm stands in for `math.hypot` in the three-node example. It is exact only on that example's offsets (axis-parallel ones and the 3000-4000 diagonal).
- A topology that names an unknown neighbour makes the source fail with a KeyError while building lines (core/elements.py:159). The model makes a closed topology a precondition of the constructor instead.
- Floating-point rounding: lengths, latency and noise are exact reals. `FIBER_SPEED` rounds to exactly 2e8 in binary64 as well.
- Node and line objects and their `label` fields are not separate entities. Each is identified by its label key in the network's maps.
- The trivial getters and setters (core/elements.py:15-38, 67-90, 107-125, 202-213) are not modelled. `GetPath` is the exception, because it copies.
- `Network.draw` (core/elements.py:215-227) is plotting.
- The driver script `tasks/lab3_main.py` (data frames, SNR in dB, CSV output) is not part of this model.
- Elements.Network.FindPaths: it requires the topology to be closed, as built networks are. The source would raise a KeyError on a neighbour that is not a node.
- Elements.Network.Propagate, NodePropagate, LinePropagate: they require a connected network (`Valid`). The source would also run on hand-edited successor tables.
