/** The full linear system of the `Kirchhoff` class: `FindNumRows` and
    `GenerateLinearSystem` (`kirky/__init__.py:199-268`), one column per
    node of the web. A row `r` stands for the equation `r . x == 0`, and the
    system is given its meaning: the condition on a valuation `x` of the
    nodes under which all its rows vanish. The edge-only system is in
    `KirchhoffEdges`, the incidence matrix in `Kirchhoff`. */
module KirchhoffSystem {
  import opened Wrappers
  import opened Symbolic
  import Vertices

  type Row = seq<real>

  // ---------------------------------------------------------------------
  // Rows and dot products
  // ---------------------------------------------------------------------

  /** A row of `n` zeros: `Matrix(num_rows, n, [0] * ...)`. */
  function Zeros(n: nat): (r: Row)
    ensures |r| == n && forall k | 0 <= k < n :: r[k] == 0.0
  {
    seq(n, _ => 0.0)
  }

  /** The dot product, summed from the left. */
  function Dot(a: Row, x: seq<real>): real
    requires |a| == |x|
  {
    if |a| == 0 then 0.0 else Dot(a[..|a| - 1], x[..|x| - 1]) + a[|a| - 1] * x[|x| - 1]
  }

  lemma {:induction false} DotZeros(x: seq<real>)
    ensures Dot(Zeros(|x|), x) == 0.0
  {
    if |x| > 0 {
      assert Zeros(|x|)[..|x| - 1] == Zeros(|x| - 1);
      DotZeros(x[..|x| - 1]);
    }
  }

  /** Writing `v` at `k` moves the dot product by `(v - a[k]) * x[k]`. */
  lemma {:induction false} DotUpdate(a: Row, x: seq<real>, k: nat, v: real)
    requires |a| == |x| && k < |a|
    ensures Dot(a[k := v], x) == Dot(a, x) + (v - a[k]) * x[k]
  {
    var n := |a| - 1;
    if k < n {
      assert a[k := v][..n] == a[..n][k := v];
      DotUpdate(a[..n], x[..n], k, v);
    } else {
      assert a[k := v][..n] == a[..n];
    }
  }

  /** All rows vanish on `x`. */
  predicate Vanish(rows: seq<Row>, x: seq<real>)
  {
    forall r | r in rows :: |r| == |x| && Dot(r, x) == 0.0
  }

  lemma {:induction false} VanishOne(r: Row, x: seq<real>)
    requires |r| == |x|
    ensures Vanish([r], x) <==> Dot(r, x) == 0.0
  {
    assert r in [r];
  }

  lemma {:induction false} VanishConcat(a: seq<Row>, b: seq<Row>, x: seq<real>)
    ensures Vanish(a + b, x) <==> Vanish(a, x) && Vanish(b, x)
  {
    assert forall r :: r in a + b <==> r in a || r in b;
  }

  // ---------------------------------------------------------------------
  // The full system (`FindNumRows`, `GenerateLinearSystem`)
  // ---------------------------------------------------------------------

  /** The row of a node locked to zero: a single 1 at its id. */
  function UnitRow(id: nat, n: nat): (r: Row)
    requires id < n
    ensures |r| == n
  {
    Zeros(n)[id := 1.0]
  }

  /** Every parent of the group is a column of the system. */
  predicate ParentsBelow(g: seq<Parent>, n: nat)
  {
    forall j | 0 <= j < |g| :: g[j].node < n
  }

  /** The row of a parent group of node `id`: `matrix[row, id] = -1`, then
      `matrix[row, parent.id] = multiplier` for each parent in turn, a later
      write replacing an earlier one. */
  function GroupRow(id: nat, g: seq<Parent>, n: nat): (r: Row)
    requires id < n && ParentsBelow(g, n)
    ensures |r| == n
  {
    if |g| == 0 then Zeros(n)[id := -1.0]
    else GroupRow(id, g[..|g| - 1], n)[g[|g| - 1].node := g[|g| - 1].multiplier]
  }

  /** A group whose parents are distinct and differ from the child, as every
      group the lattice creates is. */
  predicate Simple(id: nat, g: seq<Parent>)
  {
    && (forall j | 0 <= j < |g| :: g[j].node != id)
    && (forall a, b | 0 <= a < b < |g| :: g[a].node != g[b].node)
  }

  /** No parent of the group is node `k`. */
  predicate Absent(g: seq<Parent>, k: nat)
  {
    forall j | 0 <= j < |g| :: g[j].node != k
  }

  /** The weighted sum of the parents' values. */
  function GroupSum(g: seq<Parent>, x: seq<real>): real
    requires ParentsBelow(g, |x|)
  {
    if |g| == 0 then 0.0 else GroupSum(g[..|g| - 1], x) + g[|g| - 1].multiplier * x[g[|g| - 1].node]
  }

  /** The entries of a simple group's row: -1 at the child, each parent's
      multiplier at the parent, 0 elsewhere. */
  lemma {:induction false} GroupRowEntries(id: nat, g: seq<Parent>, n: nat)
    requires id < n && ParentsBelow(g, n) && Simple(id, g)
    ensures GroupRow(id, g, n)[id] == -1.0
    ensures forall j | 0 <= j < |g| :: GroupRow(id, g, n)[g[j].node] == g[j].multiplier
    ensures forall k | 0 <= k < n && k != id && Absent(g, k) :: GroupRow(id, g, n)[k] == 0.0
  {
    if |g| > 0 {
      var h := g[..|g| - 1];
      GroupRowEntries(id, h, n);
      forall j | 0 <= j < |g| - 1
        ensures GroupRow(id, g, n)[g[j].node] == g[j].multiplier
      {
        assert h[j] == g[j];
      }
    }
  }

  /** A simple group's row vanishes on `x` exactly when the child's value
      is the weighted sum of its parents' values. */
  lemma {:induction false} GroupRowDot(id: nat, g: seq<Parent>, x: seq<real>)
    requires id < |x| && ParentsBelow(g, |x|) && Simple(id, g)
    ensures Dot(GroupRow(id, g, |x|), x) == GroupSum(g, x) - x[id]
  {
    var n := |x|;
    if |g| == 0 {
      DotZeros(x);
      DotUpdate(Zeros(n), x, id, -1.0);
    } else {
      var h := g[..|g| - 1];
      SimplePrefix(id, g);
      GroupRowDot(id, h, x);
      GroupRowDotStep(id, g, x);
    }
  }

  /** The step of `GroupRowDot`: the last parent adds its multiplier
      times its value to the product of the row of the others. */
  lemma {:induction false} GroupRowDotStep(id: nat, g: seq<Parent>, x: seq<real>)
    requires id < |x| && ParentsBelow(g, |x|) && Simple(id, g) && |g| > 0
    requires Dot(GroupRow(id, g[..|g| - 1], |x|), x) == GroupSum(g[..|g| - 1], x) - x[id]
    ensures Dot(GroupRow(id, g, |x|), x) == GroupSum(g, x) - x[id]
  {
    var n := |x|;
    var h := g[..|g| - 1];
    var p := g[|g| - 1];
    var r := GroupRow(id, h, n);
    assert r[p.node] == 0.0 by {
      SimplePrefix(id, g);
      GroupRowEntries(id, h, n);
    }
    assert Dot(r[p.node := p.multiplier], x) == Dot(r, x) + p.multiplier * x[p.node] by {
      DotSetZero(r, x, p.node, p.multiplier);
    }
    assert GroupRow(id, g, n) == r[p.node := p.multiplier];
    assert GroupSum(g, x) == GroupSum(h, x) + p.multiplier * x[p.node];
  }

  /** Writing `v` over a zero entry adds `v` times that entry of `x`. */
  lemma {:induction false} DotSetZero(a: Row, x: seq<real>, k: nat, v: real)
    requires |a| == |x| && k < |a| && a[k] == 0.0
    ensures Dot(a[k := v], x) == Dot(a, x) + v * x[k]
  {
    DotUpdate(a, x, k, v);
  }

  /** The prefix of a simple group is simple, and its last parent is none of
      the earlier ones. */
  lemma {:induction false} SimplePrefix(id: nat, g: seq<Parent>)
    requires |g| > 0 && Simple(id, g)
    ensures Simple(id, g[..|g| - 1]) && g[|g| - 1].node != id
    ensures Absent(g[..|g| - 1], g[|g| - 1].node)
  {
    var h := g[..|g| - 1];
    assert forall j | 0 <= j < |h| :: h[j] == g[j];
  }

  /** The rows of a node's parent groups, in key order. */
  function GroupRows(id: nat, groups: seq<seq<Parent>>, n: nat): (r: seq<Row>)
    requires id < n && forall k | 0 <= k < |groups| :: ParentsBelow(groups[k], n)
    ensures |r| == |groups| && forall j | 0 <= j < |r| :: |r[j]| == n
  {
    if |groups| == 0 then []
    else GroupRows(id, groups[..|groups| - 1], n) + [GroupRow(id, groups[|groups| - 1], n)]
  }

  /** The node's references are columns of an `n`-column system. */
  predicate NodeBelow(nd: Node, n: nat)
  {
    nd.id < n && forall k | 0 <= k < |nd.groups| :: ParentsBelow(nd.groups[k], n)
  }

  /** The rows one node contributes: its lock row, then its group rows. */
  function NodeRows(nd: Node, n: nat): seq<Row>
    requires NodeBelow(nd, n)
  {
    (if nd.lock then [UnitRow(nd.id, n)] else []) + GroupRows(nd.id, nd.groups, n)
  }

  /** The rows of the nodes in turn. */
  function Rows(nodes: seq<Node>, n: nat): seq<Row>
    requires forall i | 0 <= i < |nodes| :: NodeBelow(nodes[i], n)
  {
    if |nodes| == 0 then [] else Rows(nodes[..|nodes| - 1], n) + NodeRows(nodes[|nodes| - 1], n)
  }

  /** The number of locked nodes plus the number of parent groups. */
  function RowCount(nodes: seq<Node>): nat
  {
    if |nodes| == 0 then 0
    else RowCount(nodes[..|nodes| - 1]) + (if nodes[|nodes| - 1].lock then 1 else 0) + |nodes[|nodes| - 1].groups|
  }

  /** Every node of a valid web is a column reference within the web. */
  lemma {:induction false} NodesBelow(w: Web)
    requires Valid(w)
    ensures forall i | 0 <= i < |w.nodes| :: NodeBelow(w.nodes[i], |w.nodes|)
  {
    forall i | 0 <= i < |w.nodes|
      ensures NodeBelow(w.nodes[i], |w.nodes|)
    {
      assert NodeValid(w.nodes[i], |w.nodes|);
    }
  }

  /** `GenerateLinearSystem()`: one row per locked node and per parent
      group, over one column per node; every row has the web's width. */
  function GenerateLinearSystem(w: Web): (m: seq<Row>)
    requires Valid(w)
    ensures forall r | r in m :: |r| == |w.nodes|
  {
    NodesBelow(w);
    RowsWidth(w.nodes, |w.nodes|);
    Rows(w.nodes, |w.nodes|)
  }

  lemma {:induction false} RowsWidth(nodes: seq<Node>, n: nat)
    requires forall i | 0 <= i < |nodes| :: NodeBelow(nodes[i], n)
    ensures forall r | r in Rows(nodes, n) :: |r| == n
  {
    if |nodes| > 0 {
      RowsWidth(nodes[..|nodes| - 1], n);
    }
  }

  /** There are as many rows as locked nodes and parent groups. */
  lemma {:induction false} RowsCount(nodes: seq<Node>, n: nat)
    requires forall i | 0 <= i < |nodes| :: NodeBelow(nodes[i], n)
    ensures |Rows(nodes, n)| == RowCount(nodes)
  {
    if |nodes| > 0 {
      RowsCount(nodes[..|nodes| - 1], n);
    }
  }

  /** `FindNumRows()`: a count over the web's nodes of the locked ones and
      of every parent group, which is the number of rows
      `GenerateLinearSystem` fills. */
  method FindNumRows(w: Web) returns (count: nat)
    requires Valid(w)
    ensures count == |GenerateLinearSystem(w)|
  {
    count := 0;
    var i := 0;
    while i < |w.nodes|
      invariant i <= |w.nodes| && count == RowCount(w.nodes[..i])
    {
      assert w.nodes[..i + 1][..i] == w.nodes[..i];
      count := count + (if w.nodes[i].lock then 1 else 0) + |w.nodes[i].groups|;
      i := i + 1;
    }
    assert w.nodes[..i] == w.nodes;
    NodesBelow(w);
    RowsCount(w.nodes, |w.nodes|);
  }

  /** What the full system asks of one node: zero if locked, and the
      weighted sum of each of its parent groups. */
  predicate NodeHolds(nd: Node, x: seq<real>)
    requires NodeBelow(nd, |x|)
  {
    && (nd.lock ==> x[nd.id] == 0.0)
    && AllSums(nd.id, nd.groups, x)
  }

  /** What the full system asks of a valuation: every node holds. */
  predicate Satisfies(nodes: seq<Node>, x: seq<real>)
    requires forall i | 0 <= i < |nodes| :: NodeBelow(nodes[i], |x|)
  {
    forall i | 0 <= i < |nodes| :: NodeHolds(nodes[i], x)
  }

  /** Every group of every node is simple. */
  predicate AllSimple(nodes: seq<Node>)
  {
    forall i, k | 0 <= i < |nodes| && 0 <= k < |nodes[i].groups| :: Simple(nodes[i].id, nodes[i].groups[k])
  }

  lemma {:induction false} GroupRowsVanish(id: nat, groups: seq<seq<Parent>>, x: seq<real>)
    requires id < |x| && forall k | 0 <= k < |groups| :: ParentsBelow(groups[k], |x|) && Simple(id, groups[k])
    ensures Vanish(GroupRows(id, groups, |x|), x) <==> AllSums(id, groups, x)
  {
    if |groups| > 0 {
      var h := groups[..|groups| - 1];
      var g := groups[|groups| - 1];
      assert forall k | 0 <= k < |h| :: h[k] == groups[k];
      GroupRowsVanish(id, h, x);
      GroupRowDot(id, g, x);
      VanishOne(GroupRow(id, g, |x|), x);
      VanishConcat(GroupRows(id, h, |x|), [GroupRow(id, g, |x|)], x);
      GroupSumsLast(id, groups, x);
    }
  }

  /** Node `id` is the weighted sum of each of the groups. */
  predicate AllSums(id: nat, groups: seq<seq<Parent>>, x: seq<real>)
    requires id < |x| && forall k | 0 <= k < |groups| :: ParentsBelow(groups[k], |x|)
  {
    forall k | 0 <= k < |groups| :: GroupSum(groups[k], x) == x[id]
  }

  lemma {:induction false} GroupSumsLast(id: nat, groups: seq<seq<Parent>>, x: seq<real>)
    requires id < |x| && |groups| > 0 && forall k | 0 <= k < |groups| :: ParentsBelow(groups[k], |x|)
    ensures AllSums(id, groups, x) <==> AllSums(id, groups[..|groups| - 1], x) && GroupSum(groups[|groups| - 1], x) == x[id]
  {
    var h := groups[..|groups| - 1];
    assert forall k | 0 <= k < |h| :: h[k] == groups[k];
  }

  lemma {:induction false} NodeRowsVanish(nd: Node, x: seq<real>)
    requires NodeBelow(nd, |x|) && forall k | 0 <= k < |nd.groups| :: Simple(nd.id, nd.groups[k])
    ensures Vanish(NodeRows(nd, |x|), x) <==> NodeHolds(nd, x)
  {
    GroupRowsVanish(nd.id, nd.groups, x);
    var lockRows: seq<Row> := if nd.lock then [UnitRow(nd.id, |x|)] else [];
    VanishConcat(lockRows, GroupRows(nd.id, nd.groups, |x|), x);
    if nd.lock {
      UnitRowDot(nd.id, x);
      VanishOne(UnitRow(nd.id, |x|), x);
    }
  }

  /** A lock row vanishes exactly when the node's value is zero. */
  lemma {:induction false} UnitRowDot(id: nat, x: seq<real>)
    requires id < |x|
    ensures Dot(UnitRow(id, |x|), x) == x[id]
  {
    DotZeros(x);
    DotUpdate(Zeros(|x|), x, id, 1.0);
  }

  lemma {:induction false} RowsVanish(nodes: seq<Node>, x: seq<real>)
    requires forall i | 0 <= i < |nodes| :: NodeBelow(nodes[i], |x|)
    requires AllSimple(nodes)
    ensures Vanish(Rows(nodes, |x|), x) <==> Satisfies(nodes, x)
  {
    if |nodes| > 0 {
      var h := nodes[..|nodes| - 1];
      var last := nodes[|nodes| - 1];
      assert forall i | 0 <= i < |h| :: h[i] == nodes[i];
      RowsVanish(h, x);
      NodeRowsVanish(last, x);
      VanishConcat(Rows(h, |x|), NodeRows(last, |x|), x);
      SatisfiesLast(nodes, x);
    }
  }

  lemma {:induction false} SatisfiesLast(nodes: seq<Node>, x: seq<real>)
    requires |nodes| > 0 && forall i | 0 <= i < |nodes| :: NodeBelow(nodes[i], |x|)
    ensures Satisfies(nodes, x) <==> Satisfies(nodes[..|nodes| - 1], x) && NodeHolds(nodes[|nodes| - 1], x)
  {
    var h := nodes[..|nodes| - 1];
    assert forall i | 0 <= i < |h| :: h[i] == nodes[i];
  }

  /** The meaning of the full system: a valuation of the nodes makes every
      row vanish exactly when it zeroes every locked node and gives every
      node the weighted sum of each of its parent groups. */
  lemma {:induction false} SystemMeaning(w: Web, x: seq<real>)
    requires Valid(w) && |x| == |w.nodes| && AllSimple(w.nodes)
    ensures (forall i | 0 <= i < |w.nodes| :: NodeBelow(w.nodes[i], |x|)) && (Vanish(GenerateLinearSystem(w), x) <==> Satisfies(w.nodes, x))
  {
    NodesBelow(w);
    RowsVanish(w.nodes, x);
  }
}
