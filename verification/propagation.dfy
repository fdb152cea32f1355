/**
 * Signal propagation (core/elements.py:93-98, 135-140, 197-199) as pure
 * functions over the successor tables: a node drops the front label and
 * hands the signal to the line towards the next label; a line adds its
 * latency and noise and hands the signal to the node at its far end.
 */
module Propagation {
  import opened Signal
  import opened Fiber

  /** What makes a propagation trial fail: an empty path, or a label with no successor entry. */
  datatype Fault = IndexError | KeyError(missing: string)

  datatype Outcome = Done | Failed(fault: Fault)

  /** The network as propagation reads it: node and line successor tables, and line lengths in km. */
  datatype Wires = Wires(nodeSucc: map<string, map<string, string>>,
                         lineSucc: map<string, map<string, string>>,
                         lengths: map<string, real>)

  /** Successor entries only name lines and nodes that exist, and a line leads to its own destination. */
  ghost predicate WellFormed(w: Wires)
  {
    (forall a, b :: a in w.nodeSucc && b in w.nodeSucc[a] ==> w.nodeSucc[a][b] in w.lengths) &&
    (forall a, b :: a in w.nodeSucc && b in w.nodeSucc[a] ==> w.nodeSucc[a][b] in w.lineSucc) &&
    (forall a, b :: a in w.nodeSucc && b in w.nodeSucc[a] && w.nodeSucc[a][b] in w.lineSucc ==>
       w.lineSucc[w.nodeSucc[a][b]] == map[b := b]) &&
    (forall l, b :: l in w.lineSucc && b in w.lineSucc[l] ==> w.lineSucc[l][b] in w.nodeSucc)
  }

  ghost predicate NonNegativeLengths(w: Wires)
  {
    forall l :: l in w.lengths ==> w.lengths[l] >= 0.0
  }

  /** `Node.propagate` of the node labelled `here`. */
  function NodeStep(w: Wires, here: string, s: SignalState): (SignalState, Outcome)
    requires WellFormed(w) && here in w.nodeSucc
    decreases |s.path|, 0
  {
    var dropped := s.(path := DropFirst(s.path));
    match Head(dropped.path)
    case None => (dropped, Done)
    case Some(next) =>
      if next in w.nodeSucc[here] then LineStep(w, w.nodeSucc[here][next], dropped)
      else (dropped, Failed(KeyError(next)))
  }

  /** `Line.propagate` of the line labelled `line`. */
  function LineStep(w: Wires, line: string, s: SignalState): (SignalState, Outcome)
    requires WellFormed(w) && line in w.lineSucc && line in w.lengths
    decreases |s.path|, 1
  {
    var length := w.lengths[line];
    var delayed := s.(latency := s.latency + LatencyGeneration(length));
    var noisy := delayed.(noise := delayed.noise + NoiseGeneration(delayed.power, length));
    match Head(noisy.path)
    case None => (noisy, Done)
    case Some(next) =>
      if next in w.lineSucc[line] then NodeStep(w, w.lineSucc[line][next], noisy)
      else (noisy, Failed(KeyError(next)))
  }

  /** `Network.propagate`: start at the node named by the front of the path. */
  function Launch(w: Wires, s: SignalState): (SignalState, Outcome)
    requires WellFormed(w)
  {
    match Head(s.path)
    case None => (s, Failed(IndexError))
    case Some(start) =>
      if start in w.nodeSucc then NodeStep(w, start, s) else (s, Failed(KeyError(start)))
  }

  /**
   * One node hop: the node's own label leaves the path; an exhausted path
   * ends the trial, a next label with no successor entry fails naming it,
   * and otherwise the line towards it takes over. Nothing else changes.
   */
  lemma NodeStepDrops(w: Wires, here: string, s: SignalState)
    requires WellFormed(w) && here in w.nodeSucc
    ensures |s.path| <= 1 ==> NodeStep(w, here, s) == (s.(path := []), Done)
    ensures |s.path| >= 2 && s.path[1] !in w.nodeSucc[here] ==>
      NodeStep(w, here, s) == (s.(path := s.path[1..]), Failed(KeyError(s.path[1])))
    ensures |s.path| >= 2 && s.path[1] in w.nodeSucc[here] ==>
      w.nodeSucc[here][s.path[1]] in w.lineSucc && w.nodeSucc[here][s.path[1]] in w.lengths &&
      NodeStep(w, here, s) == LineStep(w, w.nodeSucc[here][s.path[1]], s.(path := s.path[1..]))
  {
  }

  /**
   * One line hop: latency grows by the line's delay and noise by the noise
   * the line adds at the power the signal has on entry, before the path is
   * looked at; the path and the power are left alone.
   */
  lemma LineStepAccumulates(w: Wires, line: string, s: SignalState)
    requires WellFormed(w) && line in w.lineSucc && line in w.lengths
    ensures var entered := s.(latency := s.latency + LatencyGeneration(w.lengths[line]),
                              noise := s.noise + NoiseGeneration(s.power, w.lengths[line]));
      && (s.path == [] ==> LineStep(w, line, s) == (entered, Done))
      && (s.path != [] && s.path[0] !in w.lineSucc[line] ==>
            LineStep(w, line, s) == (entered, Failed(KeyError(s.path[0]))))
      && (s.path != [] && s.path[0] in w.lineSucc[line] ==>
            LineStep(w, line, s) == NodeStep(w, w.lineSucc[line][s.path[0]], entered))
  {
  }

  /** Node `a` has an outgoing line towards `b`. */
  predicate Linked(w: Wires, a: string, b: string)
  {
    a in w.nodeSucc && b in w.nodeSucc[a]
  }

  /** Every consecutive pair of the path is joined by a line. */
  predicate WellWired(w: Wires, p: seq<string>)
  {
    forall i :: 0 <= i < |p| - 1 ==> Linked(w, p[i], p[i + 1])
  }

  /** Position `i` is the first consecutive pair of `p` that no line joins. */
  predicate FirstGap(w: Wires, p: seq<string>, i: int)
  {
    0 <= i < |p| - 1 && !Linked(w, p[i], p[i + 1]) &&
    forall j :: 0 <= j < i ==> Linked(w, p[j], p[j + 1])
  }

  /** Length in km of the line node `a` uses to reach `b`. */
  ghost function HopLength(w: Wires, a: string, b: string): real
    requires WellFormed(w) && Linked(w, a, b)
  {
    w.lengths[w.nodeSucc[a][b]]
  }

  /** Sum over the consecutive lines of `p` of their latency. */
  ghost function PathLatency(w: Wires, p: seq<string>): real
    requires WellFormed(w) && WellWired(w, p)
  {
    if |p| < 2 then 0.0
    else LatencyGeneration(HopLength(w, p[0], p[1])) + PathLatency(w, p[1..])
  }

  /** Sum over the consecutive lines of `p` of the noise each adds to a signal of `power` watts. */
  ghost function PathNoise(w: Wires, p: seq<string>, power: real): real
    requires WellFormed(w) && WellWired(w, p)
  {
    if |p| < 2 then 0.0
    else NoiseGeneration(power, HopLength(w, p[0], p[1])) + PathNoise(w, p[1..], power)
  }

  /**
   * A path whose consecutive nodes are all joined, started at its own front
   * node, is consumed completely: power is unchanged, latency and noise grow
   * by exactly the per-line sums, and the trial succeeds.
   */
  lemma {:induction false} WellWiredRun(w: Wires, s: SignalState)
    requires WellFormed(w) && |s.path| >= 1 && s.path[0] in w.nodeSucc
    requires WellWired(w, s.path)
    ensures NodeStep(w, s.path[0], s) ==
      (SignalState(s.power, s.noise + PathNoise(w, s.path, s.power), s.latency + PathLatency(w, s.path), []), Done)
    decreases |s.path|
  {
    var p := s.path;
    if |p| >= 2 {
      var line := w.nodeSucc[p[0]][p[1]];
      assert Linked(w, p[0], p[1]);
      var length := w.lengths[line];
      var next := s.(path := p[1..],
                     latency := s.latency + LatencyGeneration(length),
                     noise := s.noise + NoiseGeneration(s.power, length));
      assert w.lineSucc[line] == map[p[1] := p[1]];
      assert w.lineSucc[line][p[1]] in w.nodeSucc;
      assert WellWired(w, p[1..]) by {
        forall i | 0 <= i < |p[1..]| - 1 ensures Linked(w, p[1..][i], p[1..][i + 1]) {
          assert Linked(w, p[i + 1], p[i + 2]);
        }
      }
      WellWiredRun(w, next);
      assert NodeStep(w, p[0], s) == LineStep(w, line, s.(path := p[1..]));
    }
  }

  /** `Network.propagate` of a fresh signal along a well-wired path whose front is a node runs it to the end. */
  lemma WellWiredLaunch(w: Wires, p: seq<string>, power: real)
    requires WellFormed(w) && |p| >= 1 && p[0] in w.nodeSucc
    requires WellWired(w, p)
    ensures Launch(w, SignalState(power, 0.0, 0.0, p)) ==
      (SignalState(power, PathNoise(w, p, power), PathLatency(w, p), []), Done)
  {
    WellWiredRun(w, SignalState(power, 0.0, 0.0, p));
  }

  /**
   * A path with a missing line fails at its first gap, naming the label it
   * could not reach, with that label still at the front of the path.
   */
  lemma {:induction false} GapRun(w: Wires, s: SignalState, i: int)
    requires WellFormed(w) && |s.path| >= 1 && s.path[0] in w.nodeSucc
    requires FirstGap(w, s.path, i)
    ensures NodeStep(w, s.path[0], s).1 == Failed(KeyError(s.path[i + 1]))
    ensures NodeStep(w, s.path[0], s).0.path == s.path[i + 1..]
    decreases |s.path|
  {
    var p := s.path;
    if i > 0 {
      var line := w.nodeSucc[p[0]][p[1]];
      assert Linked(w, p[0], p[1]);
      var length := w.lengths[line];
      var next := s.(path := p[1..],
                     latency := s.latency + LatencyGeneration(length),
                     noise := s.noise + NoiseGeneration(s.power, length));
      assert w.lineSucc[line] == map[p[1] := p[1]];
      assert w.lineSucc[line][p[1]] in w.nodeSucc;
      assert FirstGap(w, p[1..], i - 1) by {
        forall j | 0 <= j < i - 1 ensures Linked(w, p[1..][j], p[1..][j + 1]) {
          assert Linked(w, p[j + 1], p[j + 2]);
        }
      }
      GapRun(w, next, i - 1);
      assert p[1..][i..] == p[i + 1..];
      assert NodeStep(w, p[0], s) == LineStep(w, line, s.(path := p[1..]));
    }
  }

  /** A trial started at its front node succeeds exactly when the path is well wired. */
  lemma DoneIffWellWired(w: Wires, s: SignalState)
    requires WellFormed(w) && |s.path| >= 1 && s.path[0] in w.nodeSucc
    ensures NodeStep(w, s.path[0], s).1 == Done <==> WellWired(w, s.path)
  {
    if WellWired(w, s.path) {
      WellWiredRun(w, s);
    } else {
      var i := FirstGapExists(w, s.path);
      GapRun(w, s, i);
    }
  }

  /** A path that is not well wired has a first gap. */
  lemma {:induction false} FirstGapExists(w: Wires, p: seq<string>) returns (i: int)
    requires !WellWired(w, p)
    ensures FirstGap(w, p, i)
  {
    var k :| 0 <= k < |p| - 1 && !Linked(w, p[k], p[k + 1]);
    i := 0;
    while Linked(w, p[i], p[i + 1])
      invariant 0 <= i <= k
      invariant forall j :: 0 <= j < i ==> Linked(w, p[j], p[j + 1])
      decreases k - i
    {
      i := i + 1;
    }
  }

  /**
   * Whatever the outcome, a trial never changes the power, only consumes the
   * path from the front, and never lowers latency; with non-negative power it
   * never lowers noise either.
   */
  lemma {:induction false} RunMonotone(w: Wires, here: string, s: SignalState)
    requires WellFormed(w) && NonNegativeLengths(w) && here in w.nodeSucc
    ensures NodeStep(w, here, s).0.power == s.power
    ensures NodeStep(w, here, s).0.latency >= s.latency
    ensures s.power >= 0.0 ==> NodeStep(w, here, s).0.noise >= s.noise
    ensures |NodeStep(w, here, s).0.path| <= |s.path|
    ensures NodeStep(w, here, s).0.path == s.path[|s.path| - |NodeStep(w, here, s).0.path|..]
    ensures NodeStep(w, here, s).1 == Done ==> NodeStep(w, here, s).0.path == []
    decreases |s.path|
  {
    var dropped := s.(path := DropFirst(s.path));
    if |dropped.path| > 0 {
      var next := dropped.path[0];
      if next in w.nodeSucc[here] {
        var line := w.nodeSucc[here][next];
        var length := w.lengths[line];
        var noisy := dropped.(latency := s.latency + LatencyGeneration(length),
                              noise := s.noise + NoiseGeneration(s.power, length));
        assert w.lineSucc[line] == map[next := next];
        RunMonotone(w, next, noisy);
        assert NodeStep(w, here, s) == NodeStep(w, next, noisy);
        assert s.path[1..][|noisy.path| - |NodeStep(w, next, noisy).0.path|..]
            == s.path[|s.path| - |NodeStep(w, next, noisy).0.path|..];
      }
    }
  }

  /**
   * A one-line check of the step functions on hand-written tables: a 1 mW
   * signal over one 5 km line ends with 5e-12 W of noise and 2.5e-5 s of
   * latency. Elements.TriangleTrial derives the same figures for a network
   * built and connected by the constructor.
   */
  lemma OneLineExample()
    ensures var w := Wires(map["A" := map["C" := "AC"], "C" := map[]], map["AC" := map["C" := "C"]], map["AC" := 5.0]);
      WellFormed(w) &&
      Launch(w, SignalState(0.001, 0.0, 0.0, ["A", "C"])) == (SignalState(0.001, 5e-12, 2.5e-5, []), Done)
  {
    var w := Wires(map["A" := map["C" := "AC"], "C" := map[]], map["AC" := map["C" := "C"]], map["AC" := 5.0]);
    var s := SignalState(0.001, 0.0, 0.0, ["A", "C"]);
    assert WellFormed(w);
    NodeStepDrops(w, "A", s);
    LineStepAccumulates(w, "AC", s.(path := ["C"]));
  }
}
