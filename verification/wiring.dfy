/**
 * The successor tables that `Network.connect` (core/elements.py:167-178)
 * rebuilds. Object references between nodes and lines are replaced by
 * labels: a node table maps a node label to (next node label -> line label),
 * a line table maps a line label to (destination label -> node label).
 */
module Wiring {

  type Succ = map<string, map<string, string>>

  /**
   * Line `l` runs from node `a` to node `b` as connect decodes it: the first
   * character of the label names `a`, the second names `b`, and both are nodes.
   */
  predicate Links(l: string, nodes: set<string>, a: string, b: string)
  {
    |l| >= 2 && l[..1] == a && l[1..2] == b && a in nodes && b in nodes
  }

  /** Whether connect wires line `l` at all. */
  predicate Decodes(l: string, nodes: set<string>)
  {
    |l| >= 2 && l[..1] in nodes && l[1..2] in nodes
  }

  /** One empty successor map per key. */
  function Cleared(keys: set<string>): (w: Succ)
    ensures w.Keys == keys
    ensures forall k :: k in keys ==> w[k] == map[]
  {
    map k | k in keys :: map[]
  }

  /** The node tables after connect has processed the lines of `order` in turn. */
  function NodeWiring(nodes: set<string>, order: seq<string>): (w: Succ)
    ensures w.Keys == nodes
  {
    if order == [] then Cleared(nodes)
    else
      var w := NodeWiring(nodes, order[..|order| - 1]);
      var l := order[|order| - 1];
      if Decodes(l, nodes) then w[l[..1] := w[l[..1]][l[1..2] := l]] else w
  }

  /** The line tables after connect has processed the lines of `order` in turn. */
  function LineWiring(nodes: set<string>, lines: set<string>, order: seq<string>): (w: Succ)
    requires forall l :: l in order ==> l in lines
    ensures w.Keys == lines
  {
    if order == [] then Cleared(lines)
    else
      var w := LineWiring(nodes, lines, order[..|order| - 1]);
      var l := order[|order| - 1];
      if Decodes(l, nodes) then w[l := w[l][l[1..2] := l[1..2]]] else w
  }

  /**
   * Node `a` gets a successor `b` exactly when some processed line links a
   * to b, and the line it ends up with is the last such line in `order`.
   */
  lemma {:induction false} NodeWiringSpec(nodes: set<string>, order: seq<string>, a: string, b: string)
    requires a in nodes
    ensures b in NodeWiring(nodes, order)[a] <==> exists i :: 0 <= i < |order| && Links(order[i], nodes, a, b)
    ensures b in NodeWiring(nodes, order)[a] ==>
      exists i :: 0 <= i < |order| && order[i] == NodeWiring(nodes, order)[a][b] && Links(order[i], nodes, a, b)
        && forall j :: i < j < |order| ==> !Links(order[j], nodes, a, b)
  {
    if order != [] {
      var n := |order| - 1;
      var front := order[..n];
      assert forall i :: 0 <= i < n ==> front[i] == order[i];
      NodeWiringSpec(nodes, front, a, b);
      var l := order[n];
      if !Links(l, nodes, a, b) {
        assert b in NodeWiring(nodes, order)[a] <==> b in NodeWiring(nodes, front)[a];
        assert b in NodeWiring(nodes, front)[a] ==> NodeWiring(nodes, order)[a][b] == NodeWiring(nodes, front)[a][b];
      } else {
        assert NodeWiring(nodes, order)[a][b] == l;
      }
    }
  }

  /** A line that is the only one linking a to b is the one node a uses to reach b. */
  lemma UniqueLinkWired(nodes: set<string>, order: seq<string>, l: string, a: string, b: string)
    requires l in order && Links(l, nodes, a, b)
    requires forall m :: m in order && Links(m, nodes, a, b) ==> m == l
    ensures b in NodeWiring(nodes, order)[a] && NodeWiring(nodes, order)[a][b] == l
  {
    var i :| 0 <= i < |order| && order[i] == l;
    NodeWiringSpec(nodes, order, a, b);
  }

  /**
   * Each line is wired to its own destination alone when its label decodes,
   * and left with an empty successor map otherwise.
   */
  lemma {:induction false} LineWiringSpec(nodes: set<string>, lines: set<string>, order: seq<string>, l: string)
    requires forall m :: m in order ==> m in lines
    requires l in lines
    ensures LineWiring(nodes, lines, order)[l] ==
      if l in order && Decodes(l, nodes) then map[l[1..2] := l[1..2]] else map[]
  {
    if order != [] {
      var n := |order| - 1;
      var front := order[..n];
      assert forall m :: m in front ==> m in order;
      LineWiringSpec(nodes, lines, front, l);
      assert l in order <==> l in front || l == order[n];
    }
  }

  /** The line node a uses to reach b is a listed line that leads to b and nowhere else. */
  lemma NodeSuccessorCoherent(nodes: set<string>, lines: set<string>, order: seq<string>, a: string, b: string)
    requires forall m :: m in order ==> m in lines
    requires a in nodes && b in NodeWiring(nodes, order)[a]
    ensures NodeWiring(nodes, order)[a][b] in lines
    ensures LineWiring(nodes, lines, order)[NodeWiring(nodes, order)[a][b]] == map[b := b]
  {
    NodeWiringSpec(nodes, order, a, b);
    var i :| 0 <= i < |order| && order[i] == NodeWiring(nodes, order)[a][b] && Links(order[i], nodes, a, b);
    LineWiringSpec(nodes, lines, order, order[i]);
  }

  /** A line leads only to the node its label names as destination, and that is a node. */
  lemma LineSuccessorCoherent(nodes: set<string>, lines: set<string>, order: seq<string>, l: string, b: string)
    requires forall m :: m in order ==> m in lines
    requires l in lines && b in LineWiring(nodes, lines, order)[l]
    ensures LineWiring(nodes, lines, order)[l][b] == b && b in nodes
  {
    LineWiringSpec(nodes, lines, order, l);
  }

  /**
   * With one-character node labels the concatenated label a+b links a to b,
   * so a line a+b makes b a successor of a.
   */
  lemma SingleCharLineWired(nodes: set<string>, order: seq<string>, a: string, b: string)
    requires |a| == 1 && |b| == 1 && a in nodes && b in nodes
    requires a + b in order
    ensures b in NodeWiring(nodes, order)[a]
    ensures Links(NodeWiring(nodes, order)[a][b], nodes, a, b)
  {
    var i :| 0 <= i < |order| && order[i] == a + b;
    assert (a + b)[..1] == a && (a + b)[1..2] == b;
    assert Links(order[i], nodes, a, b);
    NodeWiringSpec(nodes, order, a, b);
  }

  /**
   * With longer labels the decoding reads the wrong characters: nodes "N1"
   * and "N2" with their line "N1N2" stay unconnected.
   */
  lemma MultiCharLabelsUnwired()
    ensures NodeWiring({"N1", "N2"}, ["N1N2", "N2N1"]) == Cleared({"N1", "N2"})
  {
    assert !Decodes("N2N1", {"N1", "N2"}) by { assert "N2N1"[..1] == "N"; }
    assert !Decodes("N1N2", {"N1", "N2"}) by { assert "N1N2"[..1] == "N"; }
    assert ["N1N2", "N2N1"][..1] == ["N1N2"];
    assert ["N1N2"][..0] == [];
  }

  /**
   * Without one-character node labels connect wires nothing at all: no first
   * character of a line label can name a node, so every table stays empty.
   */
  lemma {:induction false} NoSingleCharNodeWiresNothing(nodes: set<string>, order: seq<string>)
    requires forall n :: n in nodes ==> |n| != 1
    ensures NodeWiring(nodes, order) == Cleared(nodes)
  {
    if order != [] {
      NoSingleCharNodeWiresNothing(nodes, order[..|order| - 1]);
    }
  }

  /** The line side of the same fact: every line's table stays empty. */
  lemma {:induction false} NoSingleCharLineWiresNothing(nodes: set<string>, lines: set<string>, order: seq<string>)
    requires forall n :: n in nodes ==> |n| != 1
    requires forall l :: l in order ==> l in lines
    ensures LineWiring(nodes, lines, order) == Cleared(lines)
  {
    if order != [] {
      NoSingleCharLineWiresNothing(nodes, lines, order[..|order| - 1]);
    }
  }
}
