/**
 * The in-memory topology a network is built from, and the line table that
 * the network's constructor derives from it (core/elements.py:144-165).
 */
module Topology {
  import opened Seqs

  /** One topology entry: a position in metres and the labels of the neighbours. */
  datatype NodeRec = NodeRec(position: (real, real), connected: seq<string>)

  /** Every neighbour a node names is itself a node of the topology. */
  ghost predicate Closed(g: map<string, NodeRec>)
  {
    forall a, b :: a in g && b in g[a].connected ==> b in g
  }

  /** The label of the line from `p.0` to `p.1`: the two labels concatenated. */
  function LineLabel(p: (string, string)): string
  {
    p.0 + p.1
  }

  /** Length in kilometres of the line a -> b; `hypot` is the Euclidean norm on metres. */
  function LineLength(g: map<string, NodeRec>, a: string, b: string, hypot: (real, real) -> real): real
    requires a in g && b in g
  {
    hypot(g[b].position.0 - g[a].position.0, g[b].position.1 - g[a].position.1) / 1000.0
  }

  /** The pairs (a, n) for each neighbour n of `a`, in neighbour-list order. */
  function RowPairs(a: string, ns: seq<string>): seq<(string, string)>
  {
    seq(|ns|, i requires 0 <= i < |ns| => (a, ns[i]))
  }

  /** Every (node, neighbour) pair, in the order the construction loops visit them. */
  function Pairs(g: map<string, NodeRec>, order: seq<string>): (pairs: seq<(string, string)>)
    requires forall x :: x in order ==> x in g
    ensures Closed(g) ==> Endpoints(g, pairs)
  {
    if order == [] then []
    else Pairs(g, order[..|order| - 1]) + RowPairs(order[|order| - 1], g[order[|order| - 1]].connected)
  }

  /** The lines of a network in insertion order, with their lengths in kilometres. */
  datatype LineTable = LineTable(order: seq<string>, lengths: map<string, real>)

  /** One construction step: a label not yet present is appended; a present one is kept as is. */
  function AddLine(t: LineTable, name: string, length: real): LineTable
  {
    if name in t.lengths then t else LineTable(t.order + [name], t.lengths[name := length])
  }

  ghost predicate Endpoints(g: map<string, NodeRec>, pairs: seq<(string, string)>)
  {
    forall i :: 0 <= i < |pairs| ==> pairs[i].0 in g && pairs[i].1 in g
  }

  /** The line table after visiting `pairs` in order. */
  function PlanLines(g: map<string, NodeRec>, pairs: seq<(string, string)>, hypot: (real, real) -> real): LineTable
    requires Endpoints(g, pairs)
  {
    if pairs == [] then LineTable([], map[])
    else
      var p := pairs[|pairs| - 1];
      AddLine(PlanLines(g, pairs[..|pairs| - 1], hypot), LineLabel(p), LineLength(g, p.0, p.1, hypot))
  }

  /** Visiting one more node appends its row of pairs. */
  lemma PairsSnoc(g: map<string, NodeRec>, order: seq<string>, i: nat)
    requires forall x :: x in order ==> x in g
    requires i < |order|
    ensures Pairs(g, order[..i + 1]) == Pairs(g, order[..i]) + RowPairs(order[i], g[order[i]].connected)
  {
    assert order[..i + 1][..i] == order[..i];
  }

  /** Visiting one more pair is one construction step. */
  lemma PlanLinesSnoc(g: map<string, NodeRec>, done: seq<(string, string)>, a: string, ns: seq<string>, j: nat, hypot: (real, real) -> real)
    requires Endpoints(g, done) && a in g && j < |ns| && forall n :: n in ns ==> n in g
    ensures Endpoints(g, done + RowPairs(a, ns[..j])) && Endpoints(g, done + RowPairs(a, ns[..j + 1]))
    ensures PlanLines(g, done + RowPairs(a, ns[..j + 1]), hypot)
         == AddLine(PlanLines(g, done + RowPairs(a, ns[..j]), hypot), a + ns[j], LineLength(g, a, ns[j], hypot))
  {
    var before := done + RowPairs(a, ns[..j]);
    assert done + RowPairs(a, ns[..j + 1]) == before + [(a, ns[j])];
    assert (before + [(a, ns[j])])[..|before|] == before;
  }

  /** Every neighbour pair of a listed node is visited by the construction loops. */
  lemma {:induction false} PairsCover(g: map<string, NodeRec>, order: seq<string>, a: string, b: string)
    requires forall x :: x in order ==> x in g
    requires a in order && b in g[a].connected
    ensures (a, b) in Pairs(g, order)
  {
    var last := order[|order| - 1];
    if a == last {
      var k :| 0 <= k < |g[a].connected| && g[a].connected[k] == b;
      assert RowPairs(a, g[a].connected)[k] == (a, b);
    } else {
      assert a in order[..|order| - 1] by {
        var i :| 0 <= i < |order| && order[i] == a;
        assert i < |order| - 1;
        assert order[..|order| - 1][i] == a;
      }
      PairsCover(g, order[..|order| - 1], a, b);
    }
  }

  /** The line table's order lists each of its labels exactly once. */
  lemma {:induction false} PlanLinesOrder(g: map<string, NodeRec>, pairs: seq<(string, string)>, hypot: (real, real) -> real)
    requires Endpoints(g, pairs)
    ensures Distinct(PlanLines(g, pairs, hypot).order)
    ensures forall l :: l in PlanLines(g, pairs, hypot).order <==> l in PlanLines(g, pairs, hypot).lengths
  {
    if pairs != [] {
      var n := |pairs| - 1;
      PlanLinesOrder(g, pairs[..n], hypot);
    }
  }

  /** A label is in the line table exactly when some visited pair produces it. */
  lemma {:induction false} PlanLinesLabels(g: map<string, NodeRec>, pairs: seq<(string, string)>, hypot: (real, real) -> real)
    requires Endpoints(g, pairs)
    ensures forall l :: l in PlanLines(g, pairs, hypot).lengths <==>
      exists i :: 0 <= i < |pairs| && LineLabel(pairs[i]) == l
  {
    if pairs != [] {
      var n := |pairs| - 1;
      var front := pairs[..n];
      PlanLinesLabels(g, front, hypot);
      forall l | l in PlanLines(g, pairs, hypot).lengths
        ensures exists i :: 0 <= i < |pairs| && LineLabel(pairs[i]) == l
      {
        if l != LineLabel(pairs[n]) {
          var k :| 0 <= k < n && LineLabel(front[k]) == l;
          assert LineLabel(pairs[k]) == l;
        }
      }
      forall l | exists i :: 0 <= i < |pairs| && LineLabel(pairs[i]) == l
        ensures l in PlanLines(g, pairs, hypot).lengths
      {
        var i :| 0 <= i < |pairs| && LineLabel(pairs[i]) == l;
        if i < n {
          assert LineLabel(front[i]) == l;
        }
      }
    }
  }

  /** The first pair that produces a label decides that line's length: later ones are skipped. */
  lemma {:induction false} PlanLinesFirstWins(g: map<string, NodeRec>, pairs: seq<(string, string)>, hypot: (real, real) -> real, i: nat)
    requires Endpoints(g, pairs)
    requires i < |pairs|
    requires forall j :: 0 <= j < i ==> LineLabel(pairs[j]) != LineLabel(pairs[i])
    ensures LineLabel(pairs[i]) in PlanLines(g, pairs, hypot).lengths
    ensures PlanLines(g, pairs, hypot).lengths[LineLabel(pairs[i])] == LineLength(g, pairs[i].0, pairs[i].1, hypot)
  {
    var n := |pairs| - 1;
    var front := pairs[..n];
    var l := LineLabel(pairs[i]);
    if i < n {
      assert front[i] == pairs[i];
      PlanLinesFirstWins(g, front, hypot, i);
    } else {
      PlanLinesLabels(g, front, hypot);
    }
  }

  /** Every (node, neighbour) pair of the topology gets a line labelled by the concatenation. */
  lemma PlanLinesCover(g: map<string, NodeRec>, order: seq<string>, hypot: (real, real) -> real)
    requires Closed(g) && forall x :: x in order <==> x in g
    ensures Endpoints(g, Pairs(g, order))
    ensures forall a, b :: a in g && b in g[a].connected ==> a + b in PlanLines(g, Pairs(g, order), hypot).lengths
  {
    var pairs := Pairs(g, order);
    PlanLinesLabels(g, pairs, hypot);
    forall a, b | a in g && b in g[a].connected
      ensures a + b in PlanLines(g, pairs, hypot).lengths
    {
      PairsCover(g, order, a, b);
      var k :| 0 <= k < |pairs| && pairs[k] == (a, b);
      assert LineLabel(pairs[k]) == a + b;
    }
  }

  /** With one-character node labels every line label is two characters: its two endpoints. */
  lemma PlanLinesTwoChar(g: map<string, NodeRec>, pairs: seq<(string, string)>, hypot: (real, real) -> real)
    requires Endpoints(g, pairs) && forall n :: n in g ==> |n| == 1
    ensures forall l :: l in PlanLines(g, pairs, hypot).lengths ==> |l| == 2 && l[..1] in g && l[1..2] in g
  {
    PlanLinesLabels(g, pairs, hypot);
    forall l | l in PlanLines(g, pairs, hypot).lengths
      ensures |l| == 2 && l[..1] in g && l[1..2] in g
    {
      var i :| 0 <= i < |pairs| && LineLabel(pairs[i]) == l;
      assert l[..1] == pairs[i].0 && l[1..2] == pairs[i].1;
    }
  }

  /** A norm that is never negative gives lines that are never negative. */
  lemma {:induction false} PlanLinesNonNegative(g: map<string, NodeRec>, pairs: seq<(string, string)>, hypot: (real, real) -> real)
    requires Endpoints(g, pairs)
    requires forall dx, dy :: hypot(dx, dy) >= 0.0
    ensures forall l :: l in PlanLines(g, pairs, hypot).lengths ==> PlanLines(g, pairs, hypot).lengths[l] >= 0.0
  {
    if pairs != [] {
      PlanLinesNonNegative(g, pairs[..|pairs| - 1], hypot);
    }
  }
}
