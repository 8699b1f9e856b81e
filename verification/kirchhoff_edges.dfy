/** The edge-only linear system of the `Kirchhoff` class, one column per
    edge weight: `GenerateLinearSystemEdgeOnly` (`kirky/__init__.py:270-340`),
    `getEdgeParents` (:342-360) and `FindNumRowsEdgeOnly` (:362-375). Every
    cut node is replaced by the edge weights of its edge parent group, so a
    row stands for a relation between edge expressions. Each row is given
    its meaning on a valuation `y` of the edge weights. */
module KirchhoffEdges {
  import opened Wrappers
  import opened Symbolic
  import opened KirchhoffSystem

  // ---------------------------------------------------------------------
  // Edge parents (`getEdgeParents`)
  // ---------------------------------------------------------------------

  /** The group is led by an edge weight: `group[0][0].kind == 'edge'`. */
  predicate EdgeLed(w: Web, g: seq<Parent>)
  {
    |g| > 0 && g[0].node < |w.nodes| && w.nodes[g[0].node].kind == EdgeKind
  }

  /** Every parent names a node of the web. */
  predicate Named(w: Web, ps: seq<Parent>)
  {
    forall j | 0 <= j < |ps| :: ps[j].node < |w.nodes|
  }

  /** Every parent of every group names a node of the web. */
  predicate GroupsNamed(w: Web, groups: seq<seq<Parent>>)
  {
    forall k | 0 <= k < |groups| :: Named(w, groups[k])
  }

  /** Every node's groups name nodes of the web, as in a valid web. */
  predicate AllNamed(w: Web)
  {
    forall i | 0 <= i < |w.nodes| :: GroupsNamed(w, w.nodes[i].groups)
  }

  lemma {:induction false} ValidNamed(w: Web)
    requires Valid(w)
    ensures AllNamed(w)
  {
    forall i | 0 <= i < |w.nodes|
      ensures GroupsNamed(w, w.nodes[i].groups)
    {
      assert NodeValid(w.nodes[i], |w.nodes|);
    }
  }

  /** The first edge-led group, scanning the groups in key order. */
  function FirstEdgeGroup(w: Web, groups: seq<seq<Parent>>): (r: Option<seq<Parent>>)
    ensures r.Some? ==> EdgeLed(w, r.value) && (GroupsNamed(w, groups) ==> Named(w, r.value))
    ensures r.None? ==> forall k | 0 <= k < |groups| :: !EdgeLed(w, groups[k])
  {
    if |groups| == 0 then None
    else if EdgeLed(w, groups[0]) then Some(groups[0])
    else
      assert forall k | 1 <= k < |groups| :: groups[1..][k - 1] == groups[k];
      FirstEdgeGroup(w, groups[1..])
  }

  /** The group found is the first edge-led one. */
  lemma {:induction false} FirstEdgeGroupIsFirst(w: Web, groups: seq<seq<Parent>>)
    ensures FirstEdgeGroup(w, groups).Some? ==>
      exists k | 0 <= k < |groups| :: groups[k] == FirstEdgeGroup(w, groups).value
        && forall k' | 0 <= k' < k :: !EdgeLed(w, groups[k'])
    ensures (exists k | 0 <= k < |groups| :: EdgeLed(w, groups[k])) ==> FirstEdgeGroup(w, groups).Some?
  {
    if |groups| > 0 && !EdgeLed(w, groups[0]) {
      var t := groups[1..];
      FirstEdgeGroupIsFirst(w, t);
      assert forall k | 1 <= k < |groups| :: t[k - 1] == groups[k];
      if FirstEdgeGroup(w, t).Some? {
        var k :| 0 <= k < |t| && t[k] == FirstEdgeGroup(w, t).value && forall k' | 0 <= k' < k :: !EdgeLed(w, t[k']);
        assert groups[k + 1] == FirstEdgeGroup(w, groups).value;
        assert forall k' | 0 <= k' < k + 1 :: !EdgeLed(w, groups[k']) by {
          forall k' | 0 <= k' < k + 1
            ensures !EdgeLed(w, groups[k'])
          {
            if k' > 0 {
              assert groups[k'] == t[k' - 1];
            }
          }
        }
      }
    }
  }

  /** `getEdgeParents(node)`: the first two parents of the node's first
      edge-led group; the list is empty when no group is edge-led (the
      source's `[None, None]`). */
  function EdgeParents(w: Web, nd: Node): (r: seq<Parent>)
    ensures |r| <= 2
    ensures |r| == 0 <==> FirstEdgeGroup(w, nd.groups).None?
    ensures FirstEdgeGroup(w, nd.groups).Some? ==> r <= FirstEdgeGroup(w, nd.groups).value
    ensures GroupsNamed(w, nd.groups) ==> Named(w, r)
  {
    match FirstEdgeGroup(w, nd.groups)
    case None => []
    case Some(g) => if |g| <= 2 then g else g[..2]
  }

  // ---------------------------------------------------------------------
  // Edge terms and the rows they are written into
  // ---------------------------------------------------------------------

  /** One edge term of a row: `coefficient` at column `column`. */
  datatype Term = Term(column: int, coefficient: real)

  /** The edge parents as terms: each weight's id and multiplier. */
  function Terms(w: Web, ps: seq<Parent>): (ts: seq<Term>)
    requires Named(w, ps)
    ensures |ts| == |ps|
    ensures forall j | 0 <= j < |ps| :: ts[j] == Term(w.nodes[ps[j].node].weightId, ps[j].multiplier)
  {
    seq(|ps|, j requires 0 <= j < |ps| => Term(w.nodes[ps[j].node].weightId, ps[j].multiplier))
  }

  /** The terms of node `i`'s own edge parents. */
  function Own(w: Web, i: nat): seq<Term>
    requires AllNamed(w) && i < |w.nodes|
  {
    Terms(w, EdgeParents(w, w.nodes[i]))
  }

  /** Every term's column is one of `e` columns. */
  predicate Fits(ts: seq<Term>, e: nat)
  {
    forall j | 0 <= j < |ts| :: 0 <= ts[j].column < e
  }

  /** The edge weights of every node's edge parents are columns: the ids
      the edge pool hands out are dense. */
  predicate ColumnsFit(w: Web, e: nat)
  {
    AllNamed(w) && forall i | 0 <= i < |w.nodes| :: Fits(Own(w, i), e)
  }

  /** `matrix[row, weight_id] += multiplier * s` for each term in turn. */
  function Add(row: Row, ts: seq<Term>, s: real): (r: Row)
    requires Fits(ts, |row|)
    ensures |r| == |row|
  {
    if |ts| == 0 then row
    else
      var r := Add(row, ts[..|ts| - 1], s);
      var t := ts[|ts| - 1];
      r[t.column := r[t.column] + t.coefficient * s]
  }

  /** `s` times the edge expression of the terms under `y`, each term
      scaled as the source scales it. */
  function Value(ts: seq<Term>, s: real, y: seq<real>): real
    requires Fits(ts, |y|)
  {
    if |ts| == 0 then 0.0
    else Value(ts[..|ts| - 1], s, y) + (ts[|ts| - 1].coefficient * s) * y[ts[|ts| - 1].column]
  }

  /** Scaling the terms one by one scales the expression. */
  lemma {:induction false} ValueScale(ts: seq<Term>, s: real, y: seq<real>)
    requires Fits(ts, |y|)
    ensures Value(ts, s, y) == s * Value(ts, 1.0, y)
  {
    if |ts| > 0 {
      var t := ts[|ts| - 1];
      var v := y[t.column];
      ValueScale(ts[..|ts| - 1], s, y);
      assert (t.coefficient * s) * v == s * ((t.coefficient * 1.0) * v);
    }
  }

  /** Adding `d` at column `k` moves the dot product by `d * x[k]`. */
  lemma {:induction false} DotAdd(a: Row, x: seq<real>, k: nat, d: real)
    requires |a| == |x| && k < |a|
    ensures Dot(a[k := a[k] + d], x) == Dot(a, x) + d * x[k]
  {
    DotUpdate(a, x, k, a[k] + d);
    assert (a[k] + d - a[k]) * x[k] == d * x[k];
  }

  /** Writing the last term moves the dot product by that term's share. */
  lemma {:induction false} AddDotLast(row: Row, ts: seq<Term>, s: real, y: seq<real>)
    requires |row| == |y| && Fits(ts, |y|) && |ts| > 0
    ensures Dot(Add(row, ts, s), y) == Dot(Add(row, ts[..|ts| - 1], s), y) + (ts[|ts| - 1].coefficient * s) * y[ts[|ts| - 1].column]
  {
    AddLast(row, ts, s);
    DotAdd(Add(row, ts[..|ts| - 1], s), y, ts[|ts| - 1].column, ts[|ts| - 1].coefficient * s);
  }

  /** The last term is written last. */
  lemma {:induction false} AddLast(row: Row, ts: seq<Term>, s: real)
    requires Fits(ts, |row|) && |ts| > 0
    ensures Add(row, ts, s) == Add(row, ts[..|ts| - 1], s)[ts[|ts| - 1].column := Add(row, ts[..|ts| - 1], s)[ts[|ts| - 1].column] + ts[|ts| - 1].coefficient * s]
  {
  }

  /** Writing the terms scaled by `s` moves the dot product by their
      scaled edge expression. */
  lemma {:induction false} AddDot(row: Row, ts: seq<Term>, s: real, y: seq<real>)
    requires |row| == |y| && Fits(ts, |y|)
    ensures Dot(Add(row, ts, s), y) == Dot(row, y) + Value(ts, s, y)
  {
    if |ts| > 0 {
      AddDot(row, ts[..|ts| - 1], s, y);
      AddDotLast(row, ts, s, y);
    }
  }

  // ---------------------------------------------------------------------
  // The row of a parent group whose parents are cut nodes
  // ---------------------------------------------------------------------

  /** A parent replaced by its edge terms, with its multiplier. */
  datatype Stand = Stand(terms: seq<Term>, multiplier: real)

  /** Each parent of the group replaced by its own edge parents. */
  function Substitute(w: Web, g: seq<Parent>): (ss: seq<Stand>)
    requires AllNamed(w) && Named(w, g)
    ensures |ss| == |g|
    ensures forall j | 0 <= j < |g| :: ss[j] == Stand(Own(w, g[j].node), g[j].multiplier)
  {
    seq(|g|, j requires 0 <= j < |g| => Stand(Own(w, g[j].node), g[j].multiplier))
  }

  /** Every replaced parent's terms are columns. */
  predicate AllFit(ss: seq<Stand>, e: nat)
  {
    forall j | 0 <= j < |ss| :: Fits(ss[j].terms, e)
  }

  lemma {:induction false} SubstituteFits(w: Web, g: seq<Parent>, e: nat)
    requires ColumnsFit(w, e) && Named(w, g)
    ensures AllFit(Substitute(w, g), e)
  {
  }

  /** For each parent in turn, its edge terms times its multiplier. */
  function ParentTerms(row: Row, ss: seq<Stand>): (r: Row)
    requires AllFit(ss, |row|)
    ensures |r| == |row|
  {
    if |ss| == 0 then row
    else Add(ParentTerms(row, ss[..|ss| - 1]), ss[|ss| - 1].terms, ss[|ss| - 1].multiplier)
  }

  /** The weighted sum of the parents' edge expressions. */
  function ParentSum(ss: seq<Stand>, y: seq<real>): real
    requires AllFit(ss, |y|)
  {
    if |ss| == 0 then 0.0
    else ParentSum(ss[..|ss| - 1], y) + Value(ss[|ss| - 1].terms, ss[|ss| - 1].multiplier, y)
  }

  lemma {:induction false} ParentTermsDot(row: Row, ss: seq<Stand>, y: seq<real>)
    requires |row| == |y| && AllFit(ss, |y|)
    ensures Dot(ParentTerms(row, ss), y) == Dot(row, y) + ParentSum(ss, y)
  {
    if |ss| > 0 {
      var h := ss[..|ss| - 1];
      ParentTermsDot(row, h, y);
      AddDot(ParentTerms(row, h), ss[|ss| - 1].terms, ss[|ss| - 1].multiplier, y);
    }
  }

  /** The loop over a group AS WRITTEN (`kirky/__init__.py:316-335`): the
      node's own edge terms are subtracted inside the loop over the
      parents, once per parent. */
  function EdgeGroupRowAsWritten(ss: seq<Stand>, own: seq<Term>, e: nat): (r: Row)
    requires AllFit(ss, e) && Fits(own, e)
    ensures |r| == e
  {
    if |ss| == 0 then Zeros(e)
    else
      var r := Add(EdgeGroupRowAsWritten(ss[..|ss| - 1], own, e), ss[|ss| - 1].terms, ss[|ss| - 1].multiplier);
      Add(r, own, -1.0)
  }

  /** One round of the loop as written moves the dot product by the
      parent's expression less the node's own. */
  lemma {:induction false} AsWrittenStep(ss: seq<Stand>, own: seq<Term>, y: seq<real>)
    requires |ss| > 0 && AllFit(ss, |y|) && Fits(own, |y|)
    ensures Dot(EdgeGroupRowAsWritten(ss, own, |y|), y)
         == Dot(EdgeGroupRowAsWritten(ss[..|ss| - 1], own, |y|), y)
            + Value(ss[|ss| - 1].terms, ss[|ss| - 1].multiplier, y) + Value(own, -1.0, y)
  {
    var r0 := EdgeGroupRowAsWritten(ss[..|ss| - 1], own, |y|);
    var p := ss[|ss| - 1];
    AddDot(r0, p.terms, p.multiplier, y);
    AddDot(Add(r0, p.terms, p.multiplier), own, -1.0, y);
  }

  /** As written, a group of `n` parents states the weighted sum of the
      parents' edge expressions equal to `n` times the node's own. */
  lemma {:induction false} EdgeGroupRowAsWrittenDot(ss: seq<Stand>, own: seq<Term>, y: seq<real>)
    requires AllFit(ss, |y|) && Fits(own, |y|)
    ensures Dot(EdgeGroupRowAsWritten(ss, own, |y|), y) == ParentSum(ss, y) + (|ss| as real) * Value(own, -1.0, y)
  {
    if |ss| == 0 {
      DotZeros(y);
      assert (|ss| as real) * Value(own, -1.0, y) == 0.0;
    } else {
      var h := ss[..|ss| - 1];
      assert AllFit(h, |y|) by {
        assert forall j | 0 <= j < |h| :: h[j] == ss[j];
      }
      EdgeGroupRowAsWrittenDot(h, own, y);
      AsWrittenDotStep(ss, own, y);
    }
  }

  /** The step of `EdgeGroupRowAsWrittenDot`: one more parent adds its
      expression and one more copy of the node's own, negated. */
  lemma {:induction false} AsWrittenDotStep(ss: seq<Stand>, own: seq<Term>, y: seq<real>)
    requires |ss| > 0 && AllFit(ss, |y|) && Fits(own, |y|)
    requires Dot(EdgeGroupRowAsWritten(ss[..|ss| - 1], own, |y|), y)
          == ParentSum(ss[..|ss| - 1], y) + ((|ss| - 1) as real) * Value(own, -1.0, y)
    ensures Dot(EdgeGroupRowAsWritten(ss, own, |y|), y) == ParentSum(ss, y) + (|ss| as real) * Value(own, -1.0, y)
  {
    var h := ss[..|ss| - 1];
    var p := ss[|ss| - 1];
    var v := Value(own, -1.0, y);
    AsWrittenStep(ss, own, y);
    assert ParentSum(ss, y) == ParentSum(h, y) + Value(p.terms, p.multiplier, y);
    assert (|ss| as real) * v == ((|ss| - 1) as real) * v + v by {
      OneMore(|ss| - 1, v);
    }
  }

  lemma {:induction false} OneMore(n: nat, v: real)
    ensures ((n + 1) as real) * v == (n as real) * v + v
  {
  }

  /** The group row as intended: the parents' edge terms, then the node's
      own edge terms subtracted once. */
  function EdgeGroupRow(ss: seq<Stand>, own: seq<Term>, e: nat): (r: Row)
    requires AllFit(ss, e) && Fits(own, e)
    ensures |r| == e
  {
    Add(ParentTerms(Zeros(e), ss), own, -1.0)
  }

  /** The intended group row vanishes exactly when the node's edge
      expression is the weighted sum of its parents'. */
  lemma {:induction false} EdgeGroupRowDot(ss: seq<Stand>, own: seq<Term>, y: seq<real>)
    requires AllFit(ss, |y|) && Fits(own, |y|)
    ensures Dot(EdgeGroupRow(ss, own, |y|), y) == ParentSum(ss, y) - Value(own, 1.0, y)
  {
    DotZeros(y);
    ParentTermsDot(Zeros(|y|), ss, y);
    AddDot(ParentTerms(Zeros(|y|), ss), own, -1.0, y);
    ValueScale(own, -1.0, y);
  }

  /** The two rows part on every valuation where the group has two parents
      or more and the node's own edge expression is not zero: the row as
      written then states a different relation. */
  lemma {:induction false} AsWrittenDiffers(ss: seq<Stand>, own: seq<Term>, y: seq<real>)
    requires AllFit(ss, |y|) && Fits(own, |y|)
    requires |ss| >= 2 && Value(own, 1.0, y) != 0.0
    ensures Dot(EdgeGroupRowAsWritten(ss, own, |y|), y) != Dot(EdgeGroupRow(ss, own, |y|), y)
  {
    EdgeGroupRowAsWrittenDot(ss, own, y);
    EdgeGroupRowDot(ss, own, y);
    ValueScale(own, -1.0, y);
    var v := Value(own, 1.0, y);
    var n := |ss| as real;
    assert n * (-1.0 * v) - (-1.0 * v) == (1.0 - n) * v;
    assert 1.0 - n != 0.0;
  }

  // ---------------------------------------------------------------------
  // Each node as the edge-only system sees it
  // ---------------------------------------------------------------------

  /** A parent group as the edge-only system sees it: empty (reading its
      head raises), edge-led (no row), or a group of cut nodes, each
      replaced by its edge terms. */
  datatype GroupView = EmptyGroup | EdgeGroup | CutGroup(stands: seq<Stand>)

  /** What a node's lock means to the edge-only system: no lock row; a
      lock row written and counted (a locked vertex); or a lock row counted
      but never written (a locked node of another kind). */
  datatype LockRule = NoLockRow | LockRow | CountedOnly

  /** A node as the edge-only system sees it: its lock rule, its own edge
      terms and its groups. */
  datatype NodeView = NodeView(lock: LockRule, own: seq<Term>, groups: seq<GroupView>)

  /** The node gets a lock row: it is a locked vertex with an edge parent. */
  predicate LockedVertex(w: Web, i: nat)
    requires i < |w.nodes|
  {
    w.nodes[i].lock && w.nodes[i].kind == VertexKind && |EdgeParents(w, w.nodes[i])| > 0
  }

  /** The counter's lock rule: the node is locked and has an edge parent. */
  predicate LockCounted(w: Web, i: nat)
    requires i < |w.nodes|
  {
    w.nodes[i].lock && |EdgeParents(w, w.nodes[i])| > 0
  }

  function ViewGroup(w: Web, g: seq<Parent>): GroupView
    requires AllNamed(w) && Named(w, g)
  {
    if |g| == 0 then EmptyGroup
    else if EdgeLed(w, g) then EdgeGroup
    else CutGroup(Substitute(w, g))
  }

  function ViewNode(w: Web, i: nat): NodeView
    requires AllNamed(w) && i < |w.nodes|
  {
    var groups := w.nodes[i].groups;
    assert GroupsNamed(w, groups);
    var lock := if LockedVertex(w, i) then LockRow else if LockCounted(w, i) then CountedOnly else NoLockRow;
    NodeView(lock, Own(w, i),
             seq(|groups|, k requires 0 <= k < |groups| => ViewGroup(w, groups[k])))
  }

  /** Every node of the web, as the edge-only system sees it. */
  function View(w: Web): (v: seq<NodeView>)
    requires AllNamed(w)
    ensures |v| == |w.nodes|
    ensures forall i | 0 <= i < |w.nodes| :: v[i] == ViewNode(w, i)
  {
    seq(|w.nodes|, i requires 0 <= i < |w.nodes| => ViewNode(w, i))
  }

  /** Every column a view writes is one of `e` columns. */
  predicate NodeFits(nv: NodeView, e: nat)
  {
    && Fits(nv.own, e)
    && forall k | 0 <= k < |nv.groups| && nv.groups[k].CutGroup? :: AllFit(nv.groups[k].stands, e)
  }

  predicate ViewFits(v: seq<NodeView>, e: nat)
  {
    forall i | 0 <= i < |v| :: NodeFits(v[i], e)
  }

  /** When every node's own edge terms are columns, so is everything the
      system writes. */
  lemma {:induction false} ColumnsFitView(w: Web, e: nat)
    requires ColumnsFit(w, e)
    ensures ViewFits(View(w), e)
  {
    forall i | 0 <= i < |w.nodes|
      ensures NodeFits(View(w)[i], e)
    {
      var groups := w.nodes[i].groups;
      assert GroupsNamed(w, groups);
      forall k | 0 <= k < |groups| && !EdgeLed(w, groups[k]) && |groups[k]| > 0
        ensures AllFit(Substitute(w, groups[k]), e)
      {
        SubstituteFits(w, groups[k], e);
      }
    }
  }

  // ---------------------------------------------------------------------
  // The whole edge-only system (`FindNumRowsEdgeOnly`,
  // `GenerateLinearSystemEdgeOnly`)
  // ---------------------------------------------------------------------

  /** Some parent group is empty: `parent_groups[key][0][0]` then raises. */
  predicate HasEmptyGroup(v: seq<NodeView>)
  {
    exists i, k | 0 <= i < |v| && 0 <= k < |v[i].groups| :: v[i].groups[k].EmptyGroup?
  }

  /** In the web's own terms: some node has an empty parent group. */
  lemma {:induction false} HasEmptyGroupWeb(w: Web)
    requires AllNamed(w)
    ensures HasEmptyGroup(View(w)) <==>
      exists i, k | 0 <= i < |w.nodes| && 0 <= k < |w.nodes[i].groups| :: |w.nodes[i].groups[k]| == 0
  {
    var v := View(w);
    if HasEmptyGroup(v) {
      var i, k :| 0 <= i < |v| && 0 <= k < |v[i].groups| && v[i].groups[k].EmptyGroup?;
      assert |w.nodes[i].groups[k]| == 0;
    }
    if exists i, k | 0 <= i < |w.nodes| && 0 <= k < |w.nodes[i].groups| :: |w.nodes[i].groups[k]| == 0 {
      var i, k :| 0 <= i < |w.nodes| && 0 <= k < |w.nodes[i].groups| && |w.nodes[i].groups[k]| == 0;
      assert v[i].groups[k].EmptyGroup?;
    }
  }

  /** The lock row of a node: each own edge term's multiplier. */
  function LockRows(nv: NodeView, e: nat): seq<Row>
    requires NodeFits(nv, e)
  {
    if nv.lock == LockRow then [Add(Zeros(e), nv.own, 1.0)] else []
  }

  /** The rows of a node's first `n` groups: one per group of cut nodes. */
  function GroupRowsOf(nv: NodeView, n: nat, e: nat): seq<Row>
    requires NodeFits(nv, e) && n <= |nv.groups|
  {
    if n == 0 then []
    else
      var g := nv.groups[n - 1];
      GroupRowsOf(nv, n - 1, e) + if g.CutGroup? then [EdgeGroupRow(g.stands, nv.own, e)] else []
  }

  /** The rows the source writes for the first `n` nodes, in order. */
  function EdgeRows(v: seq<NodeView>, n: nat, e: nat): seq<Row>
    requires ViewFits(v, e) && n <= |v|
  {
    if n == 0 then []
    else EdgeRows(v, n - 1, e) + LockRows(v[n - 1], e) + GroupRowsOf(v[n - 1], |v[n - 1].groups|, e)
  }

  /** The number of a node's first `n` groups that are not edge-led. */
  function GroupCount(nv: NodeView, n: nat): nat
    requires n <= |nv.groups|
  {
    if n == 0 then 0 else GroupCount(nv, n - 1) + if nv.groups[n - 1].EdgeGroup? then 0 else 1
  }

  /** What `FindNumRowsEdgeOnly` adds up over the first `n` nodes. */
  function Counted(v: seq<NodeView>, n: nat): nat
    requires n <= |v|
  {
    if n == 0 then 0
    else Counted(v, n - 1) + (if v[n - 1].lock != NoLockRow then 1 else 0) + GroupCount(v[n - 1], |v[n - 1].groups|)
  }

  /** The number of the first `n` nodes counted for a lock row that is
      never written: locked with an edge parent, but not a vertex. */
  function Unwritten(v: seq<NodeView>, n: nat): nat
    requires n <= |v|
  {
    if n == 0 then 0
    else Unwritten(v, n - 1) + if v[n - 1].lock == CountedOnly then 1 else 0
  }

  lemma {:induction false} GroupRowsShape(nv: NodeView, n: nat, e: nat)
    requires NodeFits(nv, e) && n <= |nv.groups|
    requires forall k | 0 <= k < n :: !nv.groups[k].EmptyGroup?
    ensures |GroupRowsOf(nv, n, e)| == GroupCount(nv, n)
    ensures forall k | 0 <= k < |GroupRowsOf(nv, n, e)| :: |GroupRowsOf(nv, n, e)[k]| == e
  {
    if n > 0 {
      GroupRowsShape(nv, n - 1, e);
    }
  }

  /** The count is the number of rows written plus the lock rows counted
      but never written, and every row written is `e` wide. */
  lemma {:induction false} EdgeRowsShape(v: seq<NodeView>, n: nat, e: nat)
    requires ViewFits(v, e) && n <= |v| && !HasEmptyGroup(v)
    ensures Counted(v, n) == |EdgeRows(v, n, e)| + Unwritten(v, n)
    ensures forall k | 0 <= k < |EdgeRows(v, n, e)| :: |EdgeRows(v, n, e)[k]| == e
  {
    if n > 0 {
      var nv := v[n - 1];
      EdgeRowsShape(v, n - 1, e);
      GroupRowsShape(nv, |nv.groups|, e);
    }
  }

  /** The counting loop of `FindNumRowsEdgeOnly()` over the nodes in
      order: one row for a counted lock, one per group that is not
      edge-led; an empty group raises. */
  method CountRows(v: seq<NodeView>) returns (r: Result<nat>)
    ensures r.Fail? <==> HasEmptyGroup(v)
    ensures r.Fail? ==> r.error == IndexError
    ensures r.Ok? ==> r.value == Counted(v, |v|)
  {
    var count := 0;
    var i := 0;
    while i < |v|
      invariant i <= |v| && count == Counted(v, i)
      invariant forall i', k | 0 <= i' < i && 0 <= k < |v[i'].groups| :: !v[i'].groups[k].EmptyGroup?
    {
      var groups := v[i].groups;
      var c := 0;
      var k := 0;
      while k < |groups|
        invariant k <= |groups| && c == GroupCount(v[i], k)
        invariant forall k' | 0 <= k' < k :: !groups[k'].EmptyGroup?
      {
        match groups[k] {
          case EmptyGroup => return Fail(IndexError);
          case EdgeGroup =>
          case CutGroup(_) => c := c + 1;
        }
        k := k + 1;
      }
      count := count + (if v[i].lock != NoLockRow then 1 else 0) + c;
      i := i + 1;
    }
    r := Ok(count);
  }

  /** `FindNumRowsEdgeOnly()`: the count covers every row the generator
      writes and, for a locked node that is not a vertex, one it never
      writes. */
  method FindNumRowsEdgeOnly(w: Web) returns (r: Result<nat>)
    requires AllNamed(w)
    ensures r.Fail? <==> HasEmptyGroup(View(w))
    ensures r.Fail? ==> r.error == IndexError
    ensures r.Ok? ==> forall e | ViewFits(View(w), e) :: r.value == |EdgeRows(View(w), |w.nodes|, e)| + Unwritten(View(w), |w.nodes|)
  {
    var v := View(w);
    r := CountRows(v);
    if r.Ok? {
      forall e | ViewFits(v, e)
        ensures r.value == |EdgeRows(v, |v|, e)| + Unwritten(v, |v|)
      {
        EdgeRowsShape(v, |v|, e);
      }
    }
  }

  /** The rows written in node order, then the counted rows never
      written, left zero. */
  function EdgeSystem(v: seq<NodeView>, e: nat): (rows: seq<Row>)
    requires ViewFits(v, e) && !HasEmptyGroup(v)
    ensures |rows| == Counted(v, |v|)
    ensures forall k | 0 <= k < |rows| :: |rows[k]| == e
  {
    EdgeRowsShape(v, |v|, e);
    EdgeRows(v, |v|, e) + seq(Unwritten(v, |v|), _ => Zeros(e))
  }

  /** `GenerateLinearSystemEdgeOnly()`: a zero matrix of
      `FindNumRowsEdgeOnly()` rows over `e` edge weights, filled node by
      node; an empty group raises. */
  function GenerateLinearSystemEdgeOnly(w: Web, e: nat): (r: Result<seq<Row>>)
    requires ColumnsFit(w, e)
    ensures r.Fail? <==> HasEmptyGroup(View(w))
    ensures r.Fail? ==> r.error == IndexError
    ensures r.Ok? ==> |r.value| == Counted(View(w), |w.nodes|)
    ensures r.Ok? ==> forall k | 0 <= k < |r.value| :: |r.value[k]| == e
  {
    var v := View(w);
    if HasEmptyGroup(v) then Fail(IndexError)
    else
      ColumnsFitView(w, e);
      Ok(EdgeSystem(v, e))
  }

  // ---------------------------------------------------------------------
  // What the edge-only system asks of the edge weights
  // ---------------------------------------------------------------------

  /** What the system asks of one node: a locked vertex's edge expression
      is zero, and for each group of cut nodes, the node's edge expression
      is the weighted sum of its parents'. */
  predicate NodeEdgeHolds(nv: NodeView, y: seq<real>)
    requires NodeFits(nv, |y|)
  {
    && (nv.lock == LockRow ==> Value(nv.own, 1.0, y) == 0.0)
    && forall k | 0 <= k < |nv.groups| && nv.groups[k].CutGroup? ::
         ParentSum(nv.groups[k].stands, y) == Value(nv.own, 1.0, y)
  }

  /** What the system asks of a valuation of the edge weights, node by
      node. */
  predicate EdgeSatisfied(v: seq<NodeView>, n: nat, y: seq<real>)
    requires ViewFits(v, |y|) && n <= |v|
  {
    n == 0 || (EdgeSatisfied(v, n - 1, y) && NodeEdgeHolds(v[n - 1], y))
  }

  /** Every node up to `n` meets what the system asks of it. */
  lemma {:induction false} EdgeSatisfiedAll(v: seq<NodeView>, n: nat, y: seq<real>)
    requires ViewFits(v, |y|) && n <= |v|
    ensures EdgeSatisfied(v, n, y) <==> forall i | 0 <= i < n :: NodeEdgeHolds(v[i], y)
  {
    if n > 0 {
      EdgeSatisfiedAll(v, n - 1, y);
    }
  }

  lemma {:induction false} GroupRowsVanish(nv: NodeView, n: nat, y: seq<real>)
    requires NodeFits(nv, |y|) && n <= |nv.groups|
    ensures Vanish(GroupRowsOf(nv, n, |y|), y) <==>
      forall k | 0 <= k < n && nv.groups[k].CutGroup? :: ParentSum(nv.groups[k].stands, y) == Value(nv.own, 1.0, y)
  {
    if n > 0 {
      var g := nv.groups[n - 1];
      var prev := GroupRowsOf(nv, n - 1, |y|);
      GroupRowsVanish(nv, n - 1, y);
      if g.CutGroup? {
        var row := EdgeGroupRow(g.stands, nv.own, |y|);
        EdgeGroupRowDot(g.stands, nv.own, y);
        VanishOne(row, y);
        VanishConcat(prev, [row], y);
      } else {
        assert GroupRowsOf(nv, n, |y|) == prev;
      }
    }
  }

  lemma {:induction false} LockRowsVanish(nv: NodeView, y: seq<real>)
    requires NodeFits(nv, |y|)
    ensures Vanish(LockRows(nv, |y|), y) <==> (nv.lock == LockRow ==> Value(nv.own, 1.0, y) == 0.0)
  {
    if nv.lock == LockRow {
      DotZeros(y);
      AddDot(Zeros(|y|), nv.own, 1.0, y);
      VanishOne(Add(Zeros(|y|), nv.own, 1.0), y);
    }
  }

  /** Node `n - 1`'s rows vanish with those before exactly when each part
      vanishes. */
  lemma {:induction false} EdgeRowsStep(v: seq<NodeView>, n: nat, y: seq<real>)
    requires ViewFits(v, |y|) && 0 < n <= |v|
    ensures Vanish(EdgeRows(v, n, |y|), y) <==>
      Vanish(EdgeRows(v, n - 1, |y|), y) && Vanish(LockRows(v[n - 1], |y|), y)
      && Vanish(GroupRowsOf(v[n - 1], |v[n - 1].groups|, |y|), y)
  {
    var nv := v[n - 1];
    var prev := EdgeRows(v, n - 1, |y|);
    var lock := LockRows(nv, |y|);
    VanishConcat(prev, lock, y);
    VanishConcat(prev + lock, GroupRowsOf(nv, |nv.groups|, |y|), y);
  }

  lemma {:induction false} EdgeRowsVanish(v: seq<NodeView>, n: nat, y: seq<real>)
    requires ViewFits(v, |y|) && n <= |v|
    ensures Vanish(EdgeRows(v, n, |y|), y) <==> EdgeSatisfied(v, n, y)
  {
    if n > 0 {
      var nv := v[n - 1];
      EdgeRowsStep(v, n, y);
      EdgeRowsVanish(v, n - 1, y);
      NodeRowsVanish(nv, y);
    }
  }

  /** A node's rows vanish exactly when what the system asks of it holds. */
  lemma {:induction false} NodeRowsVanish(nv: NodeView, y: seq<real>)
    requires NodeFits(nv, |y|)
    ensures Vanish(LockRows(nv, |y|), y) && Vanish(GroupRowsOf(nv, |nv.groups|, |y|), y) <==> NodeEdgeHolds(nv, y)
  {
    LockRowsVanish(nv, y);
    GroupRowsVanish(nv, |nv.groups|, y);
  }


  /** The meaning of the edge-only system: a valuation of the edge weights
      makes every row vanish exactly when every locked vertex's edge
      expression is zero and, for every group of cut nodes, the node's edge
      expression is the weighted sum of its parents'. */
  lemma {:induction false} EdgeSystemMeaning(w: Web, y: seq<real>)
    requires ColumnsFit(w, |y|) && !HasEmptyGroup(View(w))
    ensures GenerateLinearSystemEdgeOnly(w, |y|).Ok?
    ensures ViewFits(View(w), |y|)
    ensures Vanish(GenerateLinearSystemEdgeOnly(w, |y|).value, y) <==>
      forall i | 0 <= i < |w.nodes| :: NodeEdgeHolds(View(w)[i], y)
  {
    var v := View(w);
    ColumnsFitView(w, |y|);
    EdgeSatisfiedAll(v, |v|, y);
    assert GenerateLinearSystemEdgeOnly(w, |y|).value == EdgeSystem(v, |y|);
    var zeros := seq(Unwritten(v, |v|), _ => Zeros(|y|));
    EdgeRowsVanish(v, |v|, y);
    DotZeros(y);
    assert Vanish(zeros, y);
    VanishConcat(EdgeRows(v, |v|, |y|), zeros, y);
  }
}
