/**
 * The network of core/elements.py: it owns the nodes and lines, rebuilds
 * the successor tables in `Connect`, enumerates simple paths in
 * `FindPaths`, and drives a signal through the node/line chain.
 */
module Elements {
  import opened Seqs
  import opened Signal
  import opened Fiber
  import opened Topology
  import opened Wiring
  import opened Propagation
  import opened Paths

  /**
   * The line-creation loops of the network constructor: for every node a, in
   * topology order, and every listed neighbour b, a line labelled a+b of
   * length hypot(dx, dy)/1000 is added unless that label already exists.
   */
  method BuildLines(order: seq<string>, topology: map<string, NodeRec>, hypot: (real, real) -> real)
    returns (table: LineTable)
    requires forall x :: x in order ==> x in topology
    requires Closed(topology)
    ensures Endpoints(topology, Pairs(topology, order))
    ensures table == PlanLines(topology, Pairs(topology, order), hypot)
  {
    table := LineTable([], map[]);
    for i := 0 to |order|
      invariant Endpoints(topology, Pairs(topology, order[..i]))
      invariant table == PlanLines(topology, Pairs(topology, order[..i]), hypot)
    {
      var a := order[i];
      var conn := topology[a].connected;
      ghost var done := Pairs(topology, order[..i]);
      PairsSnoc(topology, order, i);
      assert done + RowPairs(a, conn[..0]) == done;
      for j := 0 to |conn|
        invariant table == PlanLines(topology, done + RowPairs(a, conn[..j]), hypot)
      {
        PlanLinesSnoc(topology, done, a, conn, j, hypot);
        var b := conn[j];
        var length := LineLength(topology, a, b, hypot);
        if a + b !in table.lengths {
          table := LineTable(table.order + [a + b], table.lengths[a + b := length]);
        }
      }
      assert conn[..|conn|] == conn;
    }
    assert order[..|order|] == order;
  }

  /** Tables built by the wiring functions are fit for propagation. */
  lemma WiredWellFormed(nodes: set<string>, lengths: map<string, real>, order: seq<string>)
    requires forall l :: l in order ==> l in lengths
    ensures WellFormed(Wires(NodeWiring(nodes, order), LineWiring(nodes, lengths.Keys, order), lengths))
  {
    var nw := NodeWiring(nodes, order);
    var lw := LineWiring(nodes, lengths.Keys, order);
    forall a, b | a in nw && b in nw[a]
      ensures nw[a][b] in lengths && nw[a][b] in lw && lw[nw[a][b]] == map[b := b]
    {
      NodeSuccessorCoherent(nodes, lengths.Keys, order, a, b);
    }
    forall l, b | l in lw && b in lw[l]
      ensures lw[l][b] in nw
    {
      LineSuccessorCoherent(nodes, lengths.Keys, order, l, b);
    }
  }

  class Network {
    /** Node label -> position and neighbour labels. */
    var nodes: map<string, NodeRec>
    /** Line label -> length in km. */
    var lines: map<string, real>
    /** Line labels in insertion order (the iteration order of the source's dict). */
    var lineOrder: seq<string>
    /** Node label -> (next node label -> line label): each node's `successive`. */
    var nodeSucc: map<string, map<string, string>>
    /** Line label -> (destination label -> node label): each line's `successive`. */
    var lineSucc: map<string, map<string, string>>

    /** What construction establishes, whatever the successor tables hold. */
    ghost predicate Built()
      reads this
    {
      Closed(nodes) &&
      nodeSucc.Keys == nodes.Keys && lineSucc.Keys == lines.Keys &&
      Distinct(lineOrder) && (forall l :: l in lineOrder <==> l in lines) &&
      (forall l :: l in lines ==> lines[l] >= 0.0) &&
      (forall a, b :: a in nodes && b in nodes[a].connected ==> a + b in lines)
    }

    /** A built network whose successor tables are the ones `Connect` produces. */
    ghost predicate Valid()
      reads this
    {
      Built() &&
      nodeSucc == NodeWiring(nodes.Keys, lineOrder) &&
      lineSucc == LineWiring(nodes.Keys, lines.Keys, lineOrder) &&
      WellFormed(Wired())
    }

    /** The tables propagation reads. */
    function Wired(): Wires
      reads this
    {
      Wires(nodeSucc, lineSucc, lines)
    }

    /** Every node label is a single character, the case in which `Connect` decodes line labels correctly. */
    ghost predicate SingleCharLabels()
      reads this
    {
      SingleChar(nodes)
    }

    /**
     * Builds the network from a topology whose keys, in insertion order, are
     * `order`: one node per entry, then one line per label a+b over every
     * listed neighbour b of every a (the first pair producing a label wins),
     * then the wiring.
     */
    constructor (order: seq<string>, topology: map<string, NodeRec>, hypot: (real, real) -> real)
      requires Distinct(order) && forall x :: x in order <==> x in topology
      requires Closed(topology)
      requires forall dx, dy :: hypot(dx, dy) >= 0.0
      ensures Valid()
      ensures nodes == topology
      ensures LineTable(lineOrder, lines) == PlanLines(topology, Pairs(topology, order), hypot)
    {
      var table := BuildLines(order, topology, hypot);
      PlanLinesCover(topology, order, hypot);
      PlanLinesOrder(topology, Pairs(topology, order), hypot);
      PlanLinesNonNegative(topology, Pairs(topology, order), hypot);
      nodes := topology;
      lines := table.lengths;
      lineOrder := table.order;
      nodeSucc := Cleared(topology.Keys);
      lineSucc := Cleared(table.lengths.Keys);
      new;
      Connect();
    }

    /**
     * Clears every node's and line's successor table, then wires each line
     * whose label's first two characters name two nodes a and b: node a
     * reaches b through it, and it leads to node b.
     */
    method Connect()
      requires Built()
      modifies this`nodeSucc, this`lineSucc
      ensures nodeSucc == NodeWiring(nodes.Keys, lineOrder)
      ensures lineSucc == LineWiring(nodes.Keys, lines.Keys, lineOrder)
      ensures Valid()
      ensures old(Valid()) ==> nodeSucc == old(nodeSucc) && lineSucc == old(lineSucc)
    {
      ClearNodeTables();
      ClearLineTables();
      WireLines();
      WiredWellFormed(nodes.Keys, lines, lineOrder);
    }

    /** The first loop of `Connect`: every node's successor table becomes empty. */
    method ClearNodeTables()
      requires nodeSucc.Keys == nodes.Keys
      modifies this`nodeSucc
      ensures nodeSucc == Cleared(nodes.Keys)
    {
      var pending := nodes.Keys;
      while pending != {}
        invariant pending <= nodes.Keys && nodeSucc.Keys == nodes.Keys
        invariant forall n :: n in nodes.Keys - pending ==> nodeSucc[n] == map[]
        decreases pending
      {
        var n :| n in pending;
        nodeSucc := nodeSucc[n := map[]];
        pending := pending - {n};
      }
    }

    /** The second loop of `Connect`: every line's successor table becomes empty. */
    method ClearLineTables()
      requires lineSucc.Keys == lines.Keys
      modifies this`lineSucc
      ensures lineSucc == Cleared(lines.Keys)
    {
      var pending := lines.Keys;
      while pending != {}
        invariant pending <= lines.Keys && lineSucc.Keys == lines.Keys
        invariant forall l :: l in lines.Keys - pending ==> lineSucc[l] == map[]
        decreases pending
      {
        var l :| l in pending;
        lineSucc := lineSucc[l := map[]];
        pending := pending - {l};
      }
    }

    /**
     * The last loop of `Connect`: each line, in insertion order, whose label's
     * first two characters name nodes a and b becomes a's way to b and leads to b.
     */
    method WireLines()
      requires forall l :: l in lineOrder ==> l in lines
      requires nodeSucc == Cleared(nodes.Keys) && lineSucc == Cleared(lines.Keys)
      modifies this`nodeSucc, this`lineSucc
      ensures nodeSucc == NodeWiring(nodes.Keys, lineOrder)
      ensures lineSucc == LineWiring(nodes.Keys, lines.Keys, lineOrder)
    {
      for i := 0 to |lineOrder|
        invariant nodeSucc == NodeWiring(nodes.Keys, lineOrder[..i])
        invariant lineSucc == LineWiring(nodes.Keys, lines.Keys, lineOrder[..i])
      {
        assert lineOrder[..i + 1][..i] == lineOrder[..i];
        var l := lineOrder[i];
        if |l| < 2 {
          continue;
        }
        var a, b := l[..1], l[1..2];
        if a in nodes && b in nodes {
          nodeSucc := nodeSucc[a := nodeSucc[a][b := l]];
          lineSucc := lineSucc[l := lineSucc[l][b := b]];
        }
      }
      assert lineOrder[..|lineOrder|] == lineOrder;
    }

    /**
     * All simple paths from `src` to `dst` along neighbour lists, found by a
     * breadth-first search over a FIFO queue of partial paths.
     */
    method FindPaths(src: string, dst: string) returns (found: seq<seq<string>>)
      requires Closed(nodes)
      ensures src !in nodes || dst !in nodes ==> found == []
      ensures forall p :: p in found <==> Route(nodes, src, dst, p)
      ensures NoDuplicateNeighbours(nodes) ==> Distinct(found)
      ensures forall i, j :: 0 <= i <= j < |found| ==> |found[i]| <= |found[j]|
      ensures src in nodes && src == dst ==> found == [[src]]
    {
      if src !in nodes || dst !in nodes {
        return [];
      }
      var paths := [[src]];
      found := [];
      SearchStart(nodes, src, dst);
      while paths != []
        invariant Searching(nodes, src, dst, paths, found)
        decreases QueueWeight(nodes, dst, paths)
      {
        SearchWeight(nodes, src, dst, paths, found);
        var current := paths[0];
        var last := current[|current| - 1];
        if last == dst {
          SearchDone(nodes, src, dst, paths, found);
          paths := paths[1..];
          found := found + [current];
          continue;
        }
        SearchExpand(nodes, src, dst, paths, found);
        paths := Enqueue(paths[1..], current, nodes[last].connected);
      }
      SearchEnd(nodes, src, dst, found);
    }

    /** The neighbour loop of the search: append `current` + [n] for each listed n not on `current`. */
    static method Enqueue(queue: seq<seq<string>>, current: seq<string>, ns: seq<string>)
      returns (extended: seq<seq<string>>)
      ensures extended == queue + Children(current, ns)
    {
      extended := queue;
      for k := 0 to |ns|
        invariant extended == queue + Children(current, ns[..k])
      {
        assert ns[..k + 1][..k] == ns[..k];
        var nbr := ns[k];
        if nbr !in current {
          extended := extended + [current + [nbr]];
        }
      }
      assert ns[..|ns|] == ns;
    }

    /** `Node.propagate` of the node labelled `here`. */
    method NodePropagate(here: string, signal: SignalInformation) returns (outcome: Outcome)
      requires Valid() && here in nodeSucc
      modifies signal
      ensures (signal.State(), outcome) == NodeStep(Wired(), here, old(signal.State()))
      decreases |signal.path|, 0
    {
      signal.DropNode();
      var next := signal.NextNode();
      if next.None? {
        return Done;
      }
      if next.value !in nodeSucc[here] {
        return Failed(KeyError(next.value));
      }
      outcome := LinePropagate(nodeSucc[here][next.value], signal);
    }

    /** `Line.propagate` of the line labelled `line`. */
    method LinePropagate(line: string, signal: SignalInformation) returns (outcome: Outcome)
      requires Valid() && line in lineSucc && line in lines
      modifies signal
      ensures (signal.State(), outcome) == LineStep(Wired(), line, old(signal.State()))
      decreases |signal.path|, 1
    {
      signal.AddLatency(LatencyGeneration(lines[line]));
      signal.AddNoisePower(NoiseGeneration(signal.signalPower, lines[line]));
      var next := signal.NextNode();
      if next.None? {
        return Done;
      }
      if next.value !in lineSucc[line] {
        return Failed(KeyError(next.value));
      }
      outcome := NodePropagate(lineSucc[line][next.value], signal);
    }

    /** `Network.propagate`: hand the signal to the node at the front of its path. */
    method Propagate(signal: SignalInformation) returns (outcome: Outcome)
      requires Valid()
      modifies signal
      ensures (signal.State(), outcome) == Launch(Wired(), old(signal.State()))
    {
      if signal.path == [] {
        return Failed(IndexError);
      }
      var start := signal.path[0];
      if start !in nodes {
        return Failed(KeyError(start));
      }
      outcome := NodePropagate(start, signal);
    }

    /** With one-character node labels, each step of a route has a wired line. */
    lemma RouteWired(src: string, dst: string, p: seq<string>)
      requires Valid() && SingleCharLabels()
      requires Route(nodes, src, dst, p)
      ensures WellWired(Wired(), p)
    {
      forall i | 0 <= i < |p| - 1 ensures Linked(Wired(), p[i], p[i + 1]) {
        var a, b := p[i], p[i + 1];
        assert a in nodes && b in nodes[a].connected;
        assert b in nodes && |a| == 1 && |b| == 1;
        assert a + b in lineOrder;
        SingleCharLineWired(nodes.Keys, lineOrder, a, b);
      }
    }

    /** When node and line labels have one and two characters, node a reaches each listed neighbour b through line a+b. */
    lemma SingleCharHop(a: string, b: string)
      requires Valid() && SingleCharLabels()
      requires forall l :: l in lines ==> |l| == 2
      requires a in nodes && b in nodes[a].connected
      ensures Linked(Wired(), a, b) && nodeSucc[a][b] == a + b
      ensures HopLength(Wired(), a, b) == lines[a + b]
    {
      assert b in nodes && a + b in lineOrder;
      SingleCharLineWired(nodes.Keys, lineOrder, a, b);
      var l := nodeSucc[a][b];
      assert l in lines;
      assert l == l[..1] + l[1..2];
    }

    /**
     * With one-character node labels, every path `FindPaths` can return
     * propagates to the end: the trial succeeds, the power is unchanged, and
     * latency and noise are the per-line sums.
     */
    lemma RoutePropagates(src: string, dst: string, p: seq<string>, power: real)
      requires Valid() && SingleCharLabels()
      requires Route(nodes, src, dst, p)
      ensures WellWired(Wired(), p)
      ensures Launch(Wired(), SignalState(power, 0.0, 0.0, p)) ==
        (SignalState(power, PathNoise(Wired(), p, power), PathLatency(Wired(), p), []), Done)
    {
      RouteWired(src, dst, p);
      WellWiredLaunch(Wired(), p, power);
    }
  }

  /** The three-node triangle A(0,0), B(0,3000), C(4000,3000), every node listing both others. */
  function Triangle(): map<string, NodeRec>
  {
    map["A" := NodeRec((0.0, 0.0), ["B", "C"]),
        "B" := NodeRec((0.0, 3000.0), ["A", "C"]),
        "C" := NodeRec((4000.0, 3000.0), ["A", "B"])]
  }

  /** A Euclidean norm that is exact on the triangle's offsets: axis-parallel ones and the 3-4-5 diagonal. */
  function TriangleNorm(dx: real, dy: real): real
  {
    if dx * dx + dy * dy == 25000000.0 then 5000.0
    else if dx >= 0.0 && dy >= 0.0 then dx + dy
    else if dx >= 0.0 then dx - dy
    else if dy >= 0.0 then dy - dx
    else -dx - dy
  }

  /**
   * The triangle run end to end: the search from A to C returns exactly the
   * direct path A-C followed by the detour A-B-C, and a 1 mW signal sent
   * along A-C arrives with 5e-12 W of noise and 2.5e-5 s of latency.
   */
  method TriangleTrial() returns (found: seq<seq<string>>, outcome: Outcome, noise: real, latency: real)
    ensures found == [["A", "C"], ["A", "B", "C"]]
    ensures outcome == Done && noise == 5e-12 && latency == 2.5e-5
  {
    var net := TriangleNetwork();
    found := net.FindPaths("A", "C");
    TwoRoutesListed(net.nodes, found);
    net.RoutePropagates("A", "C", found[0], 0.001);
    DirectLineSums(net.Wired());
    var signal := new SignalInformation(0.001, found[0]);
    outcome := net.Propagate(signal);
    noise, latency := signal.noisePower, signal.latency;
  }

  /** The network the constructor builds from the triangle: connected, with A reaching C over 5 km. */
  method TriangleNetwork() returns (net: Network)
    ensures fresh(net) && net.Valid() && net.SingleCharLabels()
    ensures Route(net.nodes, "A", "C", ["A", "C"]) && Route(net.nodes, "A", "C", ["A", "B", "C"])
    ensures NoDuplicateNeighbours(net.nodes)
    ensures forall p :: Route(net.nodes, "A", "C", p) ==> p == ["A", "C"] || p == ["A", "B", "C"]
    ensures Linked(net.Wired(), "A", "C") && HopLength(net.Wired(), "A", "C") == 5.0
  {
    var g, order := TriangleTopology();
    net := new Network(order, g, TriangleNorm);
    net.SingleCharHop("A", "C");
  }

  /**
   * The triangle as the constructor receives it, described by what the trial
   * needs: a closed topology of one-character labels in which A lists C,
   * no node lists a neighbour twice, A-C and A-B-C are the only routes from
   * A to C, and line AC is 5 km long.
   */
  method TriangleTopology() returns (g: map<string, NodeRec>, order: seq<string>)
    ensures Closed(g) && SingleChar(g) && "A" in g && "C" in g["A"].connected
    ensures Distinct(order) && forall x :: x in order <==> x in g
    ensures forall dx, dy :: TriangleNorm(dx, dy) >= 0.0
    ensures Route(g, "A", "C", ["A", "C"]) && Route(g, "A", "C", ["A", "B", "C"])
    ensures NoDuplicateNeighbours(g)
    ensures forall p :: Route(g, "A", "C", p) ==> p == ["A", "C"] || p == ["A", "B", "C"]
    ensures forall l :: l in PlanLines(g, Pairs(g, order), TriangleNorm).lengths ==> |l| == 2
    ensures "A" + "C" in PlanLines(g, Pairs(g, order), TriangleNorm).lengths
    ensures PlanLines(g, Pairs(g, order), TriangleNorm).lengths["A" + "C"] == 5.0
  {
    g, order := Triangle(), ["A", "B", "C"];
    TriangleShape(g, order);
    TriangleRoutes(g);
    TriangleRoutesOnly(g);
    TriangleNormNonNegative();
    TriangleLabels(g, order);
    TriangleLineAC(g, order);
    assert "A" + "C" == "AC";
  }

  /** Every label of `g` is one character. */
  ghost predicate SingleChar(g: map<string, NodeRec>)
  {
    forall n :: n in g ==> |n| == 1
  }

  /**
   * When A-C and A-B-C are both routes, a result list holding exactly the
   * routes, shortest first, starts with A-C and has at least two entries.
   */
  lemma ShortestRouteFirst(g: map<string, NodeRec>, found: seq<seq<string>>)
    requires Route(g, "A", "C", ["A", "C"]) && Route(g, "A", "C", ["A", "B", "C"])
    requires forall p :: p in found <==> Route(g, "A", "C", p)
    requires forall i, j :: 0 <= i <= j < |found| ==> |found[i]| <= |found[j]|
    ensures |found| >= 2 && found[0] == ["A", "C"] && ["A", "B", "C"] in found
  {
    var direct, detour := ["A", "C"], ["A", "B", "C"];
    var k :| 0 <= k < |found| && found[k] == direct;
    assert Route(g, "A", "C", found[0]);
    assert |found[0]| <= |found[k]|;
    assert found[0] == direct;
    assert detour in found && detour != found[0];
  }

  /**
   * When A-C and A-B-C are the only routes, a duplicate-free result list
   * holding exactly the routes, shortest first, is A-C followed by A-B-C.
   */
  lemma TwoRoutesListed(g: map<string, NodeRec>, found: seq<seq<string>>)
    requires Route(g, "A", "C", ["A", "C"]) && Route(g, "A", "C", ["A", "B", "C"])
    requires forall p :: Route(g, "A", "C", p) ==> p == ["A", "C"] || p == ["A", "B", "C"]
    requires forall p :: p in found <==> Route(g, "A", "C", p)
    requires Distinct(found)
    requires forall i, j :: 0 <= i <= j < |found| ==> |found[i]| <= |found[j]|
    ensures found == [["A", "C"], ["A", "B", "C"]]
  {
    ShortestRouteFirst(g, found);
    forall i | 0 < i < |found|
      ensures found[i] == ["A", "B", "C"]
    {
      assert Route(g, "A", "C", found[i]);
      assert found[i] != found[0];
    }
    assert found[1] == found[|found| - 1];
    assert |found| == 2;
  }

  /** A single 5 km hop from A to C gives a 1 mW signal 5e-12 W of noise and 2.5e-5 s of latency. */
  lemma DirectLineSums(w: Wires)
    requires WellFormed(w) && Linked(w, "A", "C") && HopLength(w, "A", "C") == 5.0
    ensures WellWired(w, ["A", "C"])
    ensures PathNoise(w, ["A", "C"], 0.001) == 5e-12 && PathLatency(w, ["A", "C"]) == 2.5e-5
  {
    var p := ["A", "C"];
    assert p[1..] == ["C"];
    assert PathNoise(w, p, 0.001) == NoiseGeneration(0.001, 5.0) + PathNoise(w, ["C"], 0.001);
    assert PathLatency(w, p) == LatencyGeneration(5.0) + PathLatency(w, ["C"]);
  }

  /** The triangle's first two (node, neighbour) pairs are (A, B) and (A, C). */
  lemma TrianglePairs(g: map<string, NodeRec>, order: seq<string>)
    requires g == Triangle() && order == ["A", "B", "C"]
    ensures |Pairs(g, order)| >= 2 && Pairs(g, order)[0] == ("A", "B") && Pairs(g, order)[1] == ("A", "C")
  {
    assert order[..0] == [];
    PairsSnoc(g, order, 0);
    assert Pairs(g, order[..1]) == [("A", "B"), ("A", "C")];
    PairsSnoc(g, order, 1);
    PairsSnoc(g, order, 2);
    assert order[..3] == order;
  }

  /** The triangle is closed, its labels are single characters listed once in `order`, and A lists C. */
  lemma TriangleShape(g: map<string, NodeRec>, order: seq<string>)
    requires g == Triangle() && order == ["A", "B", "C"]
    ensures Closed(g) && SingleChar(g) && "A" in g && "C" in g["A"].connected
    ensures Distinct(order) && forall x :: x in order <==> x in g
  {
  }

  /** In the triangle both A-C and A-B-C are routes from A to C. */
  lemma TriangleRoutes(g: map<string, NodeRec>)
    requires g == Triangle()
    ensures Route(g, "A", "C", ["A", "C"]) && Route(g, "A", "C", ["A", "B", "C"])
  {
  }

  /** In the triangle every route from A to C is A-C or A-B-C. */
  lemma TriangleRoutesOnly(g: map<string, NodeRec>)
    requires g == Triangle()
    ensures NoDuplicateNeighbours(g)
    ensures forall p :: Route(g, "A", "C", p) ==> p == ["A", "C"] || p == ["A", "B", "C"]
  {
    forall p | Route(g, "A", "C", p)
      ensures p == ["A", "C"] || p == ["A", "B", "C"]
    {
      TriangleRouteCases(g, p);
    }
  }

  /**
   * A route starts at A and ends at C, so it has a second node, a neighbour
   * of A. If that is C the route ends there; otherwise it is B, whose only
   * neighbour not yet visited is C.
   */
  lemma TriangleRouteCases(g: map<string, NodeRec>, p: seq<string>)
    requires g == Triangle() && Route(g, "A", "C", p)
    ensures p == ["A", "C"] || p == ["A", "B", "C"]
  {
    assert p[0] == "A" && p[|p| - 1] == "C";
    assert |p| >= 2;
    assert p[1] in g["A"].connected;
    if |p| == 2 {
      assert p == ["A", "C"];
    } else {
      assert p[1] != p[0] && p[1] != p[|p| - 1];
      assert p[1] == "B";
      assert p[2] in g["B"].connected && p[2] != p[0];
      assert p[2] == "C";
      assert |p| == 3;
      assert p == ["A", "B", "C"];
    }
  }

  /** The stand-in norm is never negative. */
  lemma TriangleNormNonNegative()
    ensures forall dx, dy :: TriangleNorm(dx, dy) >= 0.0
  {
  }

  /** Every line label of the triangle is two characters. */
  lemma TriangleLabels(g: map<string, NodeRec>, order: seq<string>)
    requires Closed(g) && SingleChar(g) && forall x :: x in order ==> x in g
    ensures forall l :: l in PlanLines(g, Pairs(g, order), TriangleNorm).lengths ==> |l| == 2
  {
    PlanLinesTwoChar(g, Pairs(g, order), TriangleNorm);
  }

  /** The triangle's line AC is 5 km long: its first producing pair is (A, C), 5000 m apart. */
  lemma TriangleLineAC(g: map<string, NodeRec>, order: seq<string>)
    requires g == Triangle() && order == ["A", "B", "C"]
    requires Closed(g)
    ensures "AC" in PlanLines(g, Pairs(g, order), TriangleNorm).lengths
    ensures PlanLines(g, Pairs(g, order), TriangleNorm).lengths["AC"] == 5.0
  {
    TrianglePairs(g, order);
    var pairs := Pairs(g, order);
    assert LineLabel(pairs[0]) == "AB" && LineLabel(pairs[1]) == "AC";
    PlanLinesFirstWins(g, pairs, TriangleNorm, 1);
    assert g["A"].position == (0.0, 0.0) && g["C"].position == (4000.0, 3000.0);
    assert TriangleNorm(4000.0 - 0.0, 3000.0 - 0.0) == 5000.0;
  }


}
