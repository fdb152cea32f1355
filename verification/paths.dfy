/**
 * Vocabulary and loop-step lemmas for `Network.find_paths`
 * (core/elements.py:180-195): a breadth-first search that keeps a FIFO
 * queue of partial paths and collects those that reach the destination.
 */
module Paths {
  import opened Seqs
  import opened Topology

  function Last(p: seq<string>): string
    requires |p| >= 1
  {
    p[|p| - 1]
  }

  /** A non-empty sequence of distinct node labels. */
  ghost predicate Simple(g: map<string, NodeRec>, p: seq<string>)
  {
    |p| >= 1 && Distinct(p) && forall i :: 0 <= i < |p| ==> p[i] in g
  }

  /** A simple path from `src` that steps only to a neighbour listed by the previous node. */
  ghost predicate Walk(g: map<string, NodeRec>, src: string, p: seq<string>)
  {
    Simple(g, p) && p[0] == src &&
    forall i :: 0 <= i < |p| - 1 ==> p[i + 1] in g[p[i]].connected
  }

  /** A simple path from `src` to `dst` along neighbour lists. */
  ghost predicate Route(g: map<string, NodeRec>, src: string, dst: string, p: seq<string>)
  {
    Walk(g, src, p) && Last(p) == dst
  }

  /** No node lists the same neighbour twice. */
  ghost predicate NoDuplicateNeighbours(g: map<string, NodeRec>)
  {
    forall a :: a in g ==> Distinct(g[a].connected)
  }

  /** The extensions the search enqueues for `p`: one per neighbour in `ns` not already on `p`, in order. */
  function Children(p: seq<string>, ns: seq<string>): seq<seq<string>>
  {
    if ns == [] then []
    else Children(p, ns[..|ns| - 1]) + (if ns[|ns| - 1] in p then [] else [p + [ns[|ns| - 1]]])
  }

  /** No element of `queue` is a prefix of another. */
  ghost predicate Antichain(queue: seq<seq<string>>)
  {
    forall i, j :: 0 <= i < |queue| && 0 <= j < |queue| && i != j ==> !Prefix(queue[i], queue[j])
  }

  /** Nothing queued is equal to or a prefix of a path already found, and nothing is found twice. */
  ghost predicate Separate(queue: seq<seq<string>>, found: seq<seq<string>>)
  {
    Antichain(queue) &&
    (forall x, r :: x in queue && r in found ==> !Prefix(x, r)) &&
    Distinct(found)
  }

  /** The queue is ordered by length and spans at most two lengths; found paths are no longer than queued ones. */
  ghost predicate Layered(queue: seq<seq<string>>, found: seq<seq<string>>)
  {
    (forall i, j :: 0 <= i <= j < |queue| ==> |queue[i]| <= |queue[j]|) &&
    (forall i :: 0 <= i < |queue| ==> |queue[i]| <= |queue[0]| + 1) &&
    (forall i, j :: 0 <= i < |found| && 0 <= j < |queue| ==> |found[i]| <= |queue[j]|) &&
    (forall i, j :: 0 <= i <= j < |found| ==> |found[i]| <= |found[j]|)
  }

  /** Every route not yet found extends some queued partial path. */
  ghost predicate Covered(g: map<string, NodeRec>, src: string, dst: string,
                          queue: seq<seq<string>>, found: seq<seq<string>>)
  {
    forall p :: Route(g, src, dst, p) ==> p in found || exists x :: x in queue && Prefix(x, p)
  }

  /** The loop invariant of the search. */
  ghost predicate Searching(g: map<string, NodeRec>, src: string, dst: string,
                            queue: seq<seq<string>>, found: seq<seq<string>>)
  {
    Closed(g) &&
    (forall k :: 0 <= k < |queue| ==> Walk(g, src, queue[k])) &&
    (forall k :: 0 <= k < |found| ==> Route(g, src, dst, found[k])) &&
    Covered(g, src, dst, queue, found) &&
    (NoDuplicateNeighbours(g) ==> Separate(queue, found)) &&
    Layered(queue, found) &&
    (src == dst ==> (queue == [[src]] && found == []) || (queue == [] && found == [[src]]))
  }

  // ---------------------------------------------------------------------------
  // Sequence facts

  lemma SimpleExtend(g: map<string, NodeRec>, p: seq<string>, n: string)
    requires Simple(g, p) && n in g && n !in p
    ensures Simple(g, p + [n])
    ensures g.Keys - Elems(p + [n]) < g.Keys - Elems(p)
  {
    assert Elems(p + [n]) == Elems(p) + {n};
  }

  lemma WalkExtend(g: map<string, NodeRec>, src: string, p: seq<string>, n: string)
    requires Closed(g) && Walk(g, src, p) && n in g[Last(p)].connected && n !in p
    ensures Walk(g, src, p + [n])
  {
    SimpleExtend(g, p, n);
    var q := p + [n];
    forall i | 0 <= i < |q| - 1 ensures q[i + 1] in g[q[i]].connected {
      if i < |p| - 1 {
        assert q[i] == p[i] && q[i + 1] == p[i + 1];
      }
    }
  }

  /** Each child of `p` is `p` extended by one listed neighbour not already on `p`. */
  lemma {:induction false} ChildrenShape(p: seq<string>, ns: seq<string>)
    ensures forall c :: c in Children(p, ns) ==>
      |c| == |p| + 1 && c == p + [c[|p|]] && c[|p|] in ns && c[|p|] !in p
  {
    if ns != [] {
      ChildrenShape(p, ns[..|ns| - 1]);
    }
  }

  /** Every listed neighbour not already on `p` gives a child. */
  lemma {:induction false} ChildIn(p: seq<string>, ns: seq<string>, n: string)
    requires n in ns && n !in p
    ensures p + [n] in Children(p, ns)
  {
    var front := ns[..|ns| - 1];
    if n != ns[|ns| - 1] {
      assert n in front;
      ChildIn(p, front, n);
    }
  }

  /** Distinct neighbours give distinct children. */
  lemma {:induction false} ChildrenDistinct(p: seq<string>, ns: seq<string>)
    requires Distinct(ns)
    ensures Distinct(Children(p, ns))
  {
    if ns != [] {
      var front := ns[..|ns| - 1];
      var n := ns[|ns| - 1];
      assert Distinct(front);
      ChildrenDistinct(p, front);
      ChildrenShape(p, front);
      assert forall c :: c in Children(p, front) ==> c[|p|] in front;
      assert n !in front;
      assert (p + [n])[|p|] == n;
    }
  }

  lemma PrefixOfExtension(x: seq<string>, q: seq<string>, n: string)
    ensures Prefix(x, q + [n]) ==> Prefix(x, q) || x == q + [n]
    ensures Prefix(q + [n], x) ==> Prefix(q, x)
  {
    if Prefix(x, q + [n]) && |x| <= |q| {
      assert (q + [n])[..|x|] == q[..|x|];
    }
    if Prefix(q + [n], x) {
      assert x[..|q|] == (q + [n])[..|q|];
    }
  }

  /** A route has the destination only at its end, so a queued prefix ending there is the route itself. */
  lemma PrefixAtDestination(g: map<string, NodeRec>, src: string, dst: string, p: seq<string>, q: seq<string>)
    requires Route(g, src, dst, p) && |q| >= 1 && Last(q) == dst
    ensures Prefix(q, p) ==> q == p
  {
    if Prefix(q, p) {
      assert p[|q| - 1] == p[|p| - 1];
    }
  }

  /** The node a route takes after a proper prefix is listed by the prefix's last node and is not on the prefix. */
  lemma NextOnRoute(g: map<string, NodeRec>, src: string, dst: string, p: seq<string>, q: seq<string>)
    requires Route(g, src, dst, p) && |q| >= 1 && Last(q) != dst && Prefix(q, p)
    ensures |q| < |p| && p[|q|] in g[Last(q)].connected && p[|q|] !in q && p[..|q| + 1] == q + [p[|q|]]
  {
    var i := |q| - 1;
    assert q == p[..|q|];
    assert Last(q) == p[i];
    assert i < |p| - 1;
    var n := p[i + 1];
    assert n in g[p[i]].connected;
    assert n !in q by {
      forall j | 0 <= j < |q| ensures q[j] != n {
        assert q[j] == p[j];
      }
    }
  }

  /** A queued prefix not ending at the destination extends by the route's next node, which is a child. */
  lemma PrefixExtends(g: map<string, NodeRec>, src: string, dst: string, p: seq<string>, q: seq<string>)
    requires Route(g, src, dst, p) && |q| >= 1 && Last(q) != dst && Prefix(q, p)
    ensures |q| < |p| && q + [p[|q|]] in Children(q, g[Last(q)].connected) && Prefix(q + [p[|q|]], p)
  {
    NextOnRoute(g, src, dst, p, q);
    ChildIn(q, g[Last(q)].connected, p[|q|]);
  }

  // ---------------------------------------------------------------------------
  // Termination: the number of search-tree entries still to be visited

  /** How many partial paths the search will dequeue starting from `p`, `p` included. */
  ghost function Ext(g: map<string, NodeRec>, dst: string, p: seq<string>): nat
    requires Closed(g) && Simple(g, p)
    decreases g.Keys - Elems(p), 1, 0
  {
    if Last(p) == dst then 1 else 1 + SumExt(g, dst, p, g[Last(p)].connected)
  }

  ghost function SumExt(g: map<string, NodeRec>, dst: string, p: seq<string>, ns: seq<string>): nat
    requires Closed(g) && Simple(g, p) && forall n :: n in ns ==> n in g
    decreases g.Keys - Elems(p), 0, |ns|
  {
    if ns == [] then 0
    else
      var n := ns[|ns| - 1];
      SumExt(g, dst, p, ns[..|ns| - 1]) +
      if n in p then 0 else SimpleExtend(g, p, n); Ext(g, dst, p + [n])
  }

  ghost predicate AllSimple(g: map<string, NodeRec>, queue: seq<seq<string>>)
  {
    forall k :: 0 <= k < |queue| ==> Simple(g, queue[k])
  }

  ghost function QueueWeight(g: map<string, NodeRec>, dst: string, queue: seq<seq<string>>): nat
    requires Closed(g) && AllSimple(g, queue)
  {
    if queue == [] then 0 else Ext(g, dst, queue[0]) + QueueWeight(g, dst, queue[1..])
  }

  lemma {:induction false} QueueWeightConcat(g: map<string, NodeRec>, dst: string, a: seq<seq<string>>, b: seq<seq<string>>)
    requires Closed(g) && AllSimple(g, a) && AllSimple(g, b)
    ensures AllSimple(g, a + b)
    ensures QueueWeight(g, dst, a + b) == QueueWeight(g, dst, a) + QueueWeight(g, dst, b)
  {
    if a == [] {
      assert a + b == b;
    } else {
      QueueWeightConcat(g, dst, a[1..], b);
      assert (a + b)[0] == a[0];
      assert (a + b)[1..] == a[1..] + b;
    }
  }

  lemma ChildrenSimple(g: map<string, NodeRec>, p: seq<string>, ns: seq<string>)
    requires Simple(g, p) && forall n :: n in ns ==> n in g
    ensures AllSimple(g, Children(p, ns))
  {
    ChildrenShape(p, ns);
    forall k | 0 <= k < |Children(p, ns)| ensures Simple(g, Children(p, ns)[k]) {
      var c := Children(p, ns)[k];
      SimpleExtend(g, p, c[|p|]);
    }
  }

  lemma {:induction false} ChildrenWeight(g: map<string, NodeRec>, dst: string, p: seq<string>, ns: seq<string>)
    requires Closed(g) && Simple(g, p) && forall n :: n in ns ==> n in g
    ensures AllSimple(g, Children(p, ns))
    ensures QueueWeight(g, dst, Children(p, ns)) == SumExt(g, dst, p, ns)
  {
    ChildrenSimple(g, p, ns);
    if ns != [] {
      var front := ns[..|ns| - 1];
      var n := ns[|ns| - 1];
      ChildrenWeight(g, dst, p, front);
      var tail: seq<seq<string>> := if n in p then [] else [p + [n]];
      if n !in p {
        SimpleExtend(g, p, n);
        assert tail[1..] == [];
      }
      QueueWeightConcat(g, dst, Children(p, front), tail);
    }
  }

  /** Expanding the front of the queue removes exactly one entry from the remaining work. */
  lemma WeightExpand(g: map<string, NodeRec>, dst: string, queue: seq<seq<string>>)
    requires Closed(g) && AllSimple(g, queue) && |queue| > 0 && Last(queue[0]) != dst
    ensures AllSimple(g, queue[1..] + Children(queue[0], g[Last(queue[0])].connected))
    ensures QueueWeight(g, dst, queue[1..] + Children(queue[0], g[Last(queue[0])].connected))
         == QueueWeight(g, dst, queue) - 1
  {
    var q := queue[0];
    assert Simple(g, q);
    assert forall n :: n in g[Last(q)].connected ==> n in g;
    ChildrenWeight(g, dst, q, g[Last(q)].connected);
    assert AllSimple(g, queue[1..]) by {
      forall k | 0 <= k < |queue[1..]| ensures Simple(g, queue[1..][k]) {
        assert queue[1..][k] == queue[k + 1];
      }
    }
    QueueWeightConcat(g, dst, queue[1..], Children(q, g[Last(q)].connected));
  }

  // ---------------------------------------------------------------------------
  // The two kinds of loop step preserve the invariant

  lemma AntichainConcat(a: seq<seq<string>>, b: seq<seq<string>>)
    requires Antichain(a) && Antichain(b)
    requires forall x, y :: x in a && y in b ==> !Prefix(x, y) && !Prefix(y, x)
    ensures Antichain(a + b)
  {
    var c := a + b;
    forall i, j | 0 <= i < |c| && 0 <= j < |c| && i != j ensures !Prefix(c[i], c[j]) {
      if i < |a| && j < |a| {
        assert c[i] == a[i] && c[j] == a[j];
      } else if i >= |a| && j >= |a| {
        assert c[i] == b[i - |a|] && c[j] == b[j - |a|];
      } else if i < |a| {
        assert c[i] in a && c[j] in b;
      } else {
        assert c[i] in b && c[j] in a;
      }
    }
  }

  lemma AntichainTail(queue: seq<seq<string>>)
    requires |queue| > 0 && Antichain(queue)
    ensures Antichain(queue[1..])
    ensures forall x :: x in queue[1..] ==> !Prefix(x, queue[0]) && !Prefix(queue[0], x)
  {
    forall x | x in queue[1..] ensures !Prefix(x, queue[0]) && !Prefix(queue[0], x) {
      var k :| 0 <= k < |queue[1..]| && queue[1..][k] == x;
      assert queue[k + 1] == x;
    }
    forall i, j | 0 <= i < |queue[1..]| && 0 <= j < |queue[1..]| && i != j
      ensures !Prefix(queue[1..][i], queue[1..][j])
    {
      assert queue[1..][i] == queue[i + 1] && queue[1..][j] == queue[j + 1];
    }
  }

  lemma SeparateDone(queue: seq<seq<string>>, found: seq<seq<string>>)
    requires |queue| > 0 && Separate(queue, found)
    ensures Separate(queue[1..], found + [queue[0]])
  {
    var q := queue[0];
    AntichainTail(queue);
    assert Prefix(q, q);
    assert q !in found;
    forall x, r | x in queue[1..] && r in found + [q] ensures !Prefix(x, r) {
      assert x in queue;
    }
    forall i, j | 0 <= i < j < |found + [q]| ensures (found + [q])[i] != (found + [q])[j] {
      if j == |found| {
        assert (found + [q])[i] in found;
      }
    }
  }

  lemma SeparateExpand(g: map<string, NodeRec>, queue: seq<seq<string>>, found: seq<seq<string>>)
    requires |queue| > 0 && |queue[0]| >= 1 && queue[0][|queue[0]| - 1] in g
    requires NoDuplicateNeighbours(g) && Separate(queue, found)
    ensures Separate(queue[1..] + Children(queue[0], g[Last(queue[0])].connected), found)
  {
    var q := queue[0];
    var kids := Children(q, g[Last(q)].connected);
    AntichainTail(queue);
    ChildrenShape(q, g[Last(q)].connected);
    ChildrenDistinct(q, g[Last(q)].connected);
    assert Antichain(kids) by {
      forall i, j | 0 <= i < |kids| && 0 <= j < |kids| && i != j ensures !Prefix(kids[i], kids[j]) {
        assert kids[i] in kids && kids[j] in kids;
      }
    }
    forall x, y | x in queue[1..] && y in kids ensures !Prefix(x, y) && !Prefix(y, x) {
      PrefixOfExtension(x, q, y[|q|]);
      PrefixOfExtension(y, q, y[|q|]);
    }
    AntichainConcat(queue[1..], kids);
    forall x, r | x in queue[1..] + kids && r in found ensures !Prefix(x, r) {
      if x in kids {
        PrefixOfExtension(r, q, x[|q|]);
      } else {
        assert x in queue;
      }
    }
  }

  lemma LayeredDone(queue: seq<seq<string>>, found: seq<seq<string>>)
    requires |queue| > 0 && Layered(queue, found)
    ensures Layered(queue[1..], found + [queue[0]])
  {
    var rest := queue[1..];
    var f := found + [queue[0]];
    forall i, j | 0 <= i < |f| && 0 <= j < |rest| ensures |f[i]| <= |rest[j]| {
      assert rest[j] == queue[j + 1];
    }
    forall i, j | 0 <= i <= j < |f| ensures |f[i]| <= |f[j]| {
      if j == |found| && i < j {
        assert f[i] == found[i];
      }
    }
    forall i | 0 <= i < |rest| ensures |rest[i]| <= |rest[0]| + 1 {
      assert rest[i] == queue[i + 1] && rest[0] == queue[1];
    }
    forall i, j | 0 <= i <= j < |rest| ensures |rest[i]| <= |rest[j]| {
      assert rest[i] == queue[i + 1] && rest[j] == queue[j + 1];
    }
  }

  lemma LayeredExpand(queue: seq<seq<string>>, found: seq<seq<string>>, ns: seq<string>)
    requires |queue| > 0 && Layered(queue, found)
    ensures Layered(queue[1..] + Children(queue[0], ns), found)
  {
    var kids := Children(queue[0], ns);
    ChildrenShape(queue[0], ns);
    forall k | 0 <= k < |kids| ensures |kids[k]| == |queue[0]| + 1 {
      assert kids[k] in kids;
    }
    LayeredAppend(queue, found, kids);
  }

  /** Replacing the head of a layered queue by paths one node longer keeps it layered. */
  lemma LayeredAppend(queue: seq<seq<string>>, found: seq<seq<string>>, kids: seq<seq<string>>)
    requires |queue| > 0 && Layered(queue, found)
    requires forall k :: 0 <= k < |kids| ==> |kids[k]| == |queue[0]| + 1
    ensures Layered(queue[1..] + kids, found)
  {
    var q := queue[0];
    var rest := queue[1..];
    var next := rest + kids;
    forall k | 0 <= k < |next| ensures |q| <= |next[k]| <= |q| + 1 && (k >= |rest| ==> |next[k]| == |q| + 1) {
      if k < |rest| {
        assert next[k] == rest[k] == queue[k + 1];
      } else {
        assert next[k] == kids[k - |rest|];
      }
    }
    forall i, j | 0 <= i <= j < |next| ensures |next[i]| <= |next[j]| {
      if j < |rest| {
        assert next[i] == queue[i + 1] && next[j] == queue[j + 1];
      }
    }
    forall i, j | 0 <= i < |found| && 0 <= j < |next| ensures |found[i]| <= |next[j]| {
      assert |found[i]| <= |q|;
    }
  }

  lemma CoveredDone(g: map<string, NodeRec>, src: string, dst: string, queue: seq<seq<string>>, found: seq<seq<string>>)
    requires |queue| > 0 && |queue[0]| >= 1 && Last(queue[0]) == dst
    requires Covered(g, src, dst, queue, found)
    ensures Covered(g, src, dst, queue[1..], found + [queue[0]])
  {
    var q := queue[0];
    forall p | Route(g, src, dst, p) && p !in found + [q]
      ensures exists x :: x in queue[1..] && Prefix(x, p)
    {
      PrefixAtDestination(g, src, dst, p, q);
      var x :| x in queue && Prefix(x, p);
      var k :| 0 <= k < |queue| && queue[k] == x;
      assert queue[1..][k - 1] == x;
    }
  }

  lemma CoveredExpand(g: map<string, NodeRec>, src: string, dst: string, queue: seq<seq<string>>, found: seq<seq<string>>)
    requires Closed(g) && |queue| > 0 && |queue[0]| >= 1 && Last(queue[0]) != dst && queue[0][|queue[0]| - 1] in g
    requires Covered(g, src, dst, queue, found)
    ensures Covered(g, src, dst, queue[1..] + Children(queue[0], g[Last(queue[0])].connected), found)
  {
    var q := queue[0];
    var next := queue[1..] + Children(q, g[Last(q)].connected);
    forall p | Route(g, src, dst, p) && p !in found
      ensures exists x :: x in next && Prefix(x, p)
    {
      var x :| x in queue && Prefix(x, p);
      if x == q {
        PrefixExtends(g, src, dst, p, q);
        assert q + [p[|q|]] in next;
      } else {
        var k :| 0 <= k < |queue| && queue[k] == x;
        assert queue[1..][k - 1] == x;
        assert x in next;
      }
    }
  }

  lemma WalksExpand(g: map<string, NodeRec>, src: string, queue: seq<seq<string>>)
    requires Closed(g) && |queue| > 0 && Walk(g, src, queue[0])
    requires forall k :: 0 <= k < |queue| ==> Walk(g, src, queue[k])
    ensures forall k :: 0 <= k < |queue| - 1 + |Children(queue[0], g[Last(queue[0])].connected)| ==>
      Walk(g, src, (queue[1..] + Children(queue[0], g[Last(queue[0])].connected))[k])
  {
    var q := queue[0];
    assert Walk(g, src, q);
    var kids := Children(q, g[Last(q)].connected);
    var next := queue[1..] + kids;
    ChildrenShape(q, g[Last(q)].connected);
    forall k | 0 <= k < |next| ensures Walk(g, src, next[k]) {
      if k < |queue| - 1 {
        assert next[k] == queue[k + 1];
      } else {
        var c := kids[k - (|queue| - 1)];
        assert c in kids;
        WalkExtend(g, src, q, c[|q|]);
        assert next[k] == c;
      }
    }
  }

  /** The invariant makes the remaining-work measure well defined, and dequeuing a finished path lowers it. */
  lemma SearchWeight(g: map<string, NodeRec>, src: string, dst: string, queue: seq<seq<string>>, found: seq<seq<string>>)
    requires Searching(g, src, dst, queue, found) && |queue| > 0
    ensures AllSimple(g, queue) && AllSimple(g, queue[1..])
    ensures Last(queue[0]) == dst ==> QueueWeight(g, dst, queue[1..]) < QueueWeight(g, dst, queue)
  {
    forall k | 0 <= k < |queue| ensures Simple(g, queue[k]) {
      assert Walk(g, src, queue[k]);
    }
    assert forall k :: 0 <= k < |queue[1..]| ==> queue[1..][k] == queue[k + 1];
  }

  /** The start of the search satisfies the invariant. */
  lemma SearchStart(g: map<string, NodeRec>, src: string, dst: string)
    requires Closed(g) && src in g
    ensures Searching(g, src, dst, [[src]], [])
  {
    forall p | Route(g, src, dst, p) ensures Prefix([src], p) {
      assert p[..1] == [src];
    }
    assert [src] in [[src]];
  }

  /** Dequeuing a path that ends at the destination moves it to the results. */
  lemma SearchDone(g: map<string, NodeRec>, src: string, dst: string, queue: seq<seq<string>>, found: seq<seq<string>>)
    requires Searching(g, src, dst, queue, found) && |queue| > 0 && Last(queue[0]) == dst
    ensures Searching(g, src, dst, queue[1..], found + [queue[0]])
  {
    var q, rest, done := queue[0], queue[1..], found + [queue[0]];
    forall k | 0 <= k < |rest| ensures Walk(g, src, rest[k]) {
      assert rest[k] == queue[k + 1];
    }
    forall k | 0 <= k < |done| ensures Route(g, src, dst, done[k]) {
      if k < |found| {
        assert done[k] == found[k];
      } else {
        assert done[k] == queue[0];
      }
    }
    CoveredDone(g, src, dst, queue, found);
    LayeredDone(queue, found);
    if NoDuplicateNeighbours(g) {
      SeparateDone(queue, found);
    }
    if src == dst {
      assert queue == [[src]] && found == [];
      assert rest == [] && done == [[src]];
    }
  }

  /** Dequeuing any other path enqueues its extensions by unvisited neighbours. */
  lemma SearchExpand(g: map<string, NodeRec>, src: string, dst: string, queue: seq<seq<string>>, found: seq<seq<string>>)
    requires Searching(g, src, dst, queue, found) && |queue| > 0 && Last(queue[0]) != dst
    ensures Searching(g, src, dst, queue[1..] + Children(queue[0], g[Last(queue[0])].connected), found)
    ensures AllSimple(g, queue)
    ensures QueueWeight(g, dst, queue[1..] + Children(queue[0], g[Last(queue[0])].connected))
         < QueueWeight(g, dst, queue)
  {
    assert Walk(g, src, queue[0]);
    WalksExpand(g, src, queue);
    CoveredExpand(g, src, dst, queue, found);
    LayeredExpand(queue, found, g[Last(queue[0])].connected);
    if NoDuplicateNeighbours(g) {
      SeparateExpand(g, queue, found);
    }
    WeightExpand(g, dst, queue);
  }

  /** When the queue is empty the results are exactly the routes, each once, shortest first. */
  lemma SearchEnd(g: map<string, NodeRec>, src: string, dst: string, found: seq<seq<string>>)
    requires Searching(g, src, dst, [], found)
    ensures forall p :: p in found <==> Route(g, src, dst, p)
    ensures NoDuplicateNeighbours(g) ==> Distinct(found)
    ensures forall i, j :: 0 <= i <= j < |found| ==> |found[i]| <= |found[j]|
    ensures src == dst ==> found == [[src]]
  {
    forall p | p in found ensures Route(g, src, dst, p) {
      var k :| 0 <= k < |found| && found[k] == p;
    }
  }
}
