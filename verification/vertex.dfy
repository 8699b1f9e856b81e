/** Vertices of the lattice, the positional index that finds them, and the
    pool that creates them together with their cuts (`vertex.py`). */
module Vertices {
  import opened Wrappers
  import opened Symbolic
  import opened Edges

  // ---------------------------------------------------------------------
  // Index
  // ---------------------------------------------------------------------

  /** Python's `%` on integers: the remainder takes the divisor's sign. */
  function PyMod(a: int, b: int): (m: int)
    requires b != 0
    ensures b > 0 ==> 0 <= m < b
    ensures b < 0 ==> b < m <= 0
  {
    var m := a % b;
    if b < 0 && m != 0 then m + b else m
  }

  /** Python's `//` on integers: the quotient rounded toward minus infinity,
      the partner of `PyMod`. */
  function PyDiv(a: int, b: int): int
    requires b != 0
  {
    if b < 0 && a % b != 0 then a / b - 1 else a / b
  }

  /** Python's quotient and remainder recombine to the dividend. */
  lemma {:induction false} PyDivMod(a: int, b: int)
    requires b != 0
    ensures a == PyDiv(a, b) * b + PyMod(a, b)
  {
    if b < 0 && a % b != 0 {
      assert (a / b - 1) * b == (a / b) * b - b;
    }
  }

  /** `Index.getRange(entry)`: the start of the bucket holding `entry`. The
      source's key is the string `'start->start+range'`, which the start
      determines once the range is fixed. */
  function Bucket(range: int, entry: int): int
    requires range != 0
  {
    entry - PyMod(entry, range)
  }

  /** The bucket is the multiple of the range at or below the entry (Python's
      floor quotient times the range), so with a positive range two entries
      share a bucket exactly when they have the same floor quotient. */
  lemma {:induction false} BucketSpec(range: int, entry: int, other: int)
    requires range > 0
    ensures Bucket(range, entry) <= entry < Bucket(range, entry) + range
    ensures Bucket(range, entry) == PyDiv(entry, range) * range
    ensures Bucket(range, entry) == Bucket(range, other) <==> PyDiv(entry, range) == PyDiv(other, range)
  {
    var q1, q2 := PyDiv(entry, range), PyDiv(other, range);
    PyDivMod(entry, range);
    PyDivMod(other, range);
    if q1 < q2 {
      MulStep(q2 - q1, range);
      assert q2 * range - q1 * range == (q2 - q1) * range;
    } else if q2 < q1 {
      MulStep(q1 - q2, range);
      assert q1 * range - q2 * range == (q1 - q2) * range;
    }
  }

  lemma {:induction false} MulStep(x: int, r: int)
    requires x >= 1 && r > 0
    ensures x * r >= r
  {
    assert x * r == (x - 1) * r + r;
    assert (x - 1) * r >= 0;
  }

  /** An indexed element: its position and what it stands for (the vertex's
      place in the pool). Two elements are equal when their positions are. */
  datatype Entry = Entry(position: Position, item: nat)

  /** `Index(range, start_index, depth)`. The source nests one dictionary per
      coordinate; this model keys one map by the sequence of buckets, which
      finds the same list: a nested dictionary exists exactly when some
      element was added under it. */
  datatype Index = Index(range: int, start: nat, depth: nat, face: map<seq<int>, seq<Entry>>)

  /** The bucket sequence of a position, failing as the source's loop does:
      with depth 0 the list is never bound, a short position has no such
      coordinate, and a zero range divides by zero. */
  function Key(ix: Index, position: Position): (r: Result<seq<int>>)
    ensures r.Ok? <==> ix.depth > 0 && ix.range != 0 && ix.start + ix.depth <= |position|
    ensures ix.depth == 0 ==> r == Fail(UnboundLocal)
    ensures r.Ok? ==> |r.value| == ix.depth
    ensures r.Ok? ==> forall j | 0 <= j < ix.depth :: r.value[j] == Bucket(ix.range, position[ix.start + j])
  {
    if ix.depth == 0 then Fail(UnboundLocal)
    else if |position| <= ix.start then Fail(IndexError)
    else if ix.range == 0 then Fail(DivisionByZero)
    else if |position| < ix.start + ix.depth then Fail(IndexError)
    else Ok(seq(ix.depth, j requires 0 <= j < ix.depth => Bucket(ix.range, position[ix.start + j])))
  }

  /** The first element of a list with the given position. */
  function FindIn(list: seq<Entry>, position: Position): (r: Option<Entry>)
    ensures r.Some? ==> r.value in list && r.value.position == position
    ensures r.None? <==> forall j | 0 <= j < |list| :: list[j].position != position
  {
    if |list| == 0 then None
    else if list[0].position == position then Some(list[0])
    else FindIn(list[1..], position)
  }

  /** `Index.GetElement(position)`: the element of the position's bucket list
      with that exact position, or `None`. */
  function GetElement(ix: Index, position: Position): (r: Result<Option<Entry>>)
    ensures r.Ok? <==> Key(ix, position).Ok?
    ensures r.Ok? && r.value.Some? ==> r.value.value.position == position
  {
    match Key(ix, position)
    case Fail(e) => Fail(e)
    case Ok(key) => if key in ix.face then Ok(FindIn(ix.face[key], position)) else Ok(None)
  }

  /** `Index.AddElement(element)`: append the element to its bucket list
      unless an equal element (same position) is already there. */
  function AddElement(ix: Index, e: Entry): (r: Result<Index>)
    ensures r.Ok? <==> Key(ix, e.position).Ok?
    ensures r.Ok? ==> r.value.range == ix.range && r.value.start == ix.start && r.value.depth == ix.depth
    ensures r.Ok? && GetElement(ix, e.position).value.Some? ==> r.value == ix
  {
    match Key(ix, e.position)
    case Fail(err) => Fail(err)
    case Ok(key) =>
      var list := if key in ix.face then ix.face[key] else [];
      if FindIn(list, e.position).Some? then Ok(ix)
      else Ok(ix.(face := ix.face[key := list + [e]]))
  }

  /** Every element sits in its own bucket list, and no list holds two
      elements with the same position. */
  predicate IndexValid(ix: Index)
  {
    && (forall key, j | key in ix.face && 0 <= j < |ix.face[key]| :: Key(ix, ix.face[key][j].position) == Ok(key))
    && (forall key, i, j | key in ix.face && 0 <= i < j < |ix.face[key]| ::
          ix.face[key][i].position != ix.face[key][j].position)
  }

  /** The element stored for a position is found by `GetElement`, and a
      `None` answer means no stored element has that position. */
  lemma {:induction false} GetElementSpec(ix: Index, position: Position)
    requires IndexValid(ix) && Key(ix, position).Ok?
    ensures GetElement(ix, position).value.None? <==>
      forall key, j | key in ix.face && 0 <= j < |ix.face[key]| :: ix.face[key][j].position != position
    ensures GetElement(ix, position).value.Some? ==> exists key :: key in ix.face && GetElement(ix, position).value.value in ix.face[key]
  {
  }

  /** `Key` reads only the index's shape, never its contents. */
  lemma {:induction false} KeyOfShape(ix: Index, face: map<seq<int>, seq<Entry>>, position: Position)
    ensures Key(ix.(face := face), position) == Key(ix, position)
  {
  }

  /** `AddElement` keeps the index valid. */
  lemma {:induction false} AddKeepsValid(ix: Index, e: Entry)
    requires IndexValid(ix) && Key(ix, e.position).Ok?
    ensures IndexValid(AddElement(ix, e).value)
  {
    var key := Key(ix, e.position).value;
    var list := if key in ix.face then ix.face[key] else [];
    if FindIn(list, e.position).None? {
      var r := AddElement(ix, e).value;
      assert r == ix.(face := ix.face[key := list + [e]]);
      forall k, j | k in r.face && 0 <= j < |r.face[k]|
        ensures Key(r, r.face[k][j].position) == Ok(k)
      {
        KeyOfShape(ix, r.face, r.face[k][j].position);
      }
    }
  }

  /** After `AddElement`, `GetElement` finds an element at the added
      position: the added one when none was there before, the old one
      otherwise. */
  lemma {:induction false} AddThenGet(ix: Index, e: Entry)
    requires IndexValid(ix) && Key(ix, e.position).Ok?
    ensures GetElement(ix, e.position).value.None? ==> GetElement(AddElement(ix, e).value, e.position) == Ok(Some(e))
    ensures GetElement(ix, e.position).value.Some? ==> GetElement(AddElement(ix, e).value, e.position) == GetElement(ix, e.position)
  {
    var key := Key(ix, e.position).value;
    var list := if key in ix.face then ix.face[key] else [];
    var r := AddElement(ix, e).value;
    KeyOfShape(ix, r.face, e.position);
    if FindIn(list, e.position).None? {
      FindInAppend(list, e, e.position);
    }
  }

  /** `AddElement` leaves every other position's answer as it was. */
  lemma {:induction false} AddKeepsOthers(ix: Index, e: Entry, other: Position)
    requires IndexValid(ix) && Key(ix, e.position).Ok? && other != e.position
    ensures GetElement(AddElement(ix, e).value, other) == GetElement(ix, other)
  {
    var key := Key(ix, e.position).value;
    var list := if key in ix.face then ix.face[key] else [];
    var r := AddElement(ix, e).value;
    KeyOfShape(ix, r.face, other);
    if FindIn(list, e.position).None? && Key(ix, other).Ok? && Key(ix, other).value == key {
      FindInAppend(list, e, other);
    }
  }

  lemma {:induction false} FindInAppend(list: seq<Entry>, e: Entry, position: Position)
    requires FindIn(list, position).None? || position != e.position
    ensures FindIn(list + [e], position) == if FindIn(list, position).Some? || position != e.position then FindIn(list, position) else Some(e)
    decreases |list|
  {
    if |list| > 0 {
      assert (list + [e])[1..] == list[1..] + [e];
      FindInAppend(list[1..], e, position);
    } else {
      assert list + [e] == [e];
    }
  }

  // ---------------------------------------------------------------------
  // Vertex
  // ---------------------------------------------------------------------

  /** A vertex: its position, its cut (one web node per vector), the parent
      group key each cut node uses for edge weights, and for each vector the
      outgoing and incoming edge. */
  datatype Vertex = Vertex(
    position: Position,
    cut: seq<nat>,
    keys: seq<Option<nat>>,
    edges: seq<(Option<Edge>, Option<Edge>)>)

  /** The vertex's slots line up with its cut, and every node and group key
      it names exists in the web. */
  predicate VertexIn(v: Vertex, w: Web)
  {
    && |v.keys| == |v.cut| && |v.edges| == |v.cut|
    && (forall k | 0 <= k < |v.cut| :: v.cut[k] < |w.nodes|)
    && (forall k | 0 <= k < |v.cut| && v.keys[k].Some? :: v.keys[k].value < |w.nodes[v.cut[k]].groups|)
    && (forall k | 0 <= k < |v.cut| && v.edges[k].0.Some? :: v.edges[k].0.value.weight < |w.nodes|)
    && (forall k | 0 <= k < |v.cut| && v.edges[k].1.Some? :: v.edges[k].1.value.weight < |w.nodes|)
  }

  /** `v` is `w` after changes that keep every node and group: the node count
      is kept and no group disappears. */
  predicate WebExtends(w: Web, v: Web)
  {
    && |w.nodes| <= |v.nodes|
    && forall i | 0 <= i < |w.nodes| :: |w.nodes[i].groups| <= |v.nodes[i].groups|
  }

  lemma {:induction false} VertexInExtends(x: Vertex, w: Web, v: Web)
    requires VertexIn(x, w) && WebExtends(w, v)
    ensures VertexIn(x, v)
  {
  }

  /** Slot `k` of the vertex with a group key: the one it has, or a fresh
      group of its cut node created on first use. */
  function EnsureKey(w: Web, v: Vertex, k: nat): (r: (Web, Vertex))
    requires Valid(w) && VertexIn(v, w) && k < |v.cut|
    ensures Valid(r.0) && VertexIn(r.1, r.0) && WebExtends(w, r.0) && |r.0.nodes| == |w.nodes|
    ensures r.1 == v.(keys := r.1.keys) && r.1.keys[k].Some?
    ensures v.keys[k].Some? ==> r == (w, v)
    ensures v.keys[k].None? ==> r.1.keys == v.keys[k := Some(|w.nodes[v.cut[k]].groups|)]
    ensures v.keys[k].None? ==> r.0.nodes[v.cut[k]].groups == w.nodes[v.cut[k]].groups + [[]]
    ensures forall i | 0 <= i < |w.nodes| && i != v.cut[k] :: r.0.nodes[i] == w.nodes[i]
    ensures r.0.locks == w.locks && r.0.errors == w.errors && r.0.nextId == w.nextId
  {
    if v.keys[k].Some? then (w, v)
    else
      var (w1, g) := CreateParentGroup(w, v.cut[k], []).value;
      var v1 := v.(keys := v.keys[k := Some(g)]);
      assert VertexIn(v1, w1) by {
        assert WebExtends(w, w1);
        VertexInExtends(v, w, w1);
      }
      (w1, v1)
  }

  /** The shared tail of both branches of `Vertex.AddEdge`: make sure slot
      `k` has a group key and add the weight to that group of cut node `k`. */
  function Attach(w: Web, v: Vertex, k: nat, p: Parent): (r: (Web, Vertex))
    requires Valid(w) && VertexIn(v, w) && k < |v.cut| && p.node < |w.nodes|
    ensures Valid(r.0) && VertexIn(r.1, r.0) && WebExtends(w, r.0) && |r.0.nodes| == |w.nodes|
    ensures r.1 == v.(keys := r.1.keys) && r.1.keys[k].Some?
    ensures v.keys[k].Some? ==> r.1.keys == v.keys
    ensures v.keys[k].None? ==> r.1.keys == v.keys[k := Some(|w.nodes[v.cut[k]].groups|)]
    ensures r.0.nodes[v.cut[k]].groups[r.1.keys[k].value] ==
      (if v.keys[k].Some? then w.nodes[v.cut[k]].groups[r.1.keys[k].value] else []) + [p]
    ensures forall i | 0 <= i < |w.nodes| && i != v.cut[k] :: r.0.nodes[i].groups == w.nodes[i].groups
    ensures r.0.locks == w.locks && r.0.errors == w.errors && r.0.nextId == w.nextId
  {
    var (w1, v1) := EnsureKey(w, v, k);
    var w2 := AddParent(w1, v.cut[k], v1.keys[k].value, p).value;
    assert VertexIn(v1, w2) by {
      assert WebExtends(w1, w2);
      VertexInExtends(v1, w1, w2);
    }
    assert WebExtends(w, w2);
    (w2, v1)
  }

  /** `Vertex.AddEdge(edge)`. At the edge's tail the outgoing slot of its
      vector is used and the weight enters the cut node with multiplier 1; at
      its head the incoming slot, with multiplier -1. A filled slot rejects
      the edge and changes nothing; a vertex at neither end is an error. */
  function AddEdge(w: Web, v: Vertex, e: Edge): (r: Result<(Web, Vertex, bool)>)
    requires Valid(w) && VertexIn(v, w) && e.weight < |w.nodes|
    ensures v.position != e.tail && v.position != e.head <==> r == Fail(TouchError)
    ensures (v.position == e.tail || v.position == e.head) && e.vectorId >= |v.edges| ==> r == Fail(IndexError)
    ensures (v.position == e.tail || v.position == e.head) && e.vectorId < |v.edges| ==> r.Ok?
    ensures r.Ok? ==> var (w', v', accepted) := r.value;
      && e.vectorId < |v.cut|
      && Valid(w') && VertexIn(v', w') && |w'.nodes| == |w.nodes| && WebExtends(w, w')
      && v'.position == v.position && v'.cut == v.cut
      && (accepted <==> if v.position == e.tail then v.edges[e.vectorId].0.None? else v.edges[e.vectorId].1.None?)
      && (!accepted ==> w' == w && v' == v)
    ensures r.Ok? && r.value.2 ==> var (w', v', _) := r.value; var k := e.vectorId;
      && v'.edges == v.edges[k := if v.position == e.tail then (Some(e), v.edges[k].1) else (v.edges[k].0, Some(e))]
      && v'.keys[k].Some? && (v.keys[k].Some? ==> v'.keys == v.keys)
      && w'.nodes[v.cut[k]].groups[v'.keys[k].value] ==
           (if v.keys[k].Some? then w.nodes[v.cut[k]].groups[v'.keys[k].value] else [])
           + [Parent(e.weight, if v.position == e.tail then 1.0 else -1.0)]
  {
    var k := e.vectorId;
    if v.position == e.tail then
      if k >= |v.edges| then Fail(IndexError)
      else if v.edges[k].0.Some? then Ok((w, v, false))
      else
        var (w', v') := Attach(w, v.(edges := v.edges[k := (Some(e), v.edges[k].1)]), k, Parent(e.weight, 1.0));
        Ok((w', v', true))
    else if v.position == e.head then
      if k >= |v.edges| then Fail(IndexError)
      else if v.edges[k].1.Some? then Ok((w, v, false))
      else
        var (w', v') := Attach(w, v.(edges := v.edges[k := (v.edges[k].0, Some(e))]), k, Parent(e.weight, -1.0));
        Ok((w', v', true))
    else Fail(TouchError)
  }

  // ---------------------------------------------------------------------
  // Cuts
  // ---------------------------------------------------------------------

  /** The condition block `B` of `[I B]`: `rows` rows of `columns` entries. */
  predicate IsMatrix(condition: seq<seq<real>>, columns: nat)
  {
    forall j | 0 <= j < |condition| :: |condition[j]| == columns
  }

  /** The parents of dependent cut entry `i`: every independent entry `j`,
      weighted by `B[j, i]`. */
  function ConditionGroup(independents: seq<nat>, condition: seq<seq<real>>, columns: nat, i: nat): (g: seq<Parent>)
    requires |independents| == |condition| && IsMatrix(condition, columns) && i < columns
    ensures |g| == |condition|
    ensures forall j | 0 <= j < |g| :: g[j] == Parent(independents[j], condition[j][i])
  {
    seq(|condition|, j requires 0 <= j < |condition| => Parent(independents[j], condition[j][i]))
  }

  /** A freshly created node of kind vertex. */
  function VertexNode(id: nat): Node
  {
    NewNode(id).(kind := VertexKind)
  }

  /** The first loop of `createCut`: `count` fresh vertex nodes, in order. */
  function Independents(w: Web, count: nat): (r: Web)
    requires Valid(w)
    ensures Valid(r) && |r.nodes| == |w.nodes| + count
    ensures forall i | 0 <= i < |w.nodes| :: r.nodes[i] == w.nodes[i]
    ensures forall i | |w.nodes| <= i < |r.nodes| :: r.nodes[i] == VertexNode(i)
    ensures r.locks == w.locks && r.errors == w.errors
    decreases count
  {
    if count == 0 then w
    else
      var (w2, id) := CreateNode(Independents(w, count - 1));
      SetKind(w2, id, VertexKind)
  }

  /** `AddParent(group_key, parent)` for each parent in turn, on a node
      whose only group is `group_key` 0: the group grows by the parents, and
      other nodes change at most in their children. */
  function AddParents(w: Web, id: nat, parents: seq<Parent>): (r: Web)
    requires Valid(w) && id < |w.nodes| && |w.nodes[id].groups| == 1
    requires forall j | 0 <= j < |parents| :: parents[j].node < |w.nodes|
    ensures Valid(r) && |r.nodes| == |w.nodes|
    ensures r.locks == w.locks && r.errors == w.errors && r.nextId == w.nextId
    ensures r.nodes[id].groups == [w.nodes[id].groups[0] + parents]
    ensures forall i | 0 <= i < |w.nodes| && i != id :: r.nodes[i].groups == w.nodes[i].groups
    decreases |parents|
  {
    if |parents| == 0 then
      assert w.nodes[id].groups[0] + parents == w.nodes[id].groups[0];
      assert [w.nodes[id].groups[0]] == w.nodes[id].groups;
      w
    else
      var w1 := AddParent(w, id, 0, parents[0]).value;
      var r := AddParents(w1, id, parents[1..]);
      AppendFirst(w.nodes[id].groups[0], parents);
      r
  }

  /** `AddParents` changes no node's kind, lock, value or lock counts. */
  lemma {:induction false} AddParentsUnchanged(w: Web, id: nat, parents: seq<Parent>)
    requires Valid(w) && id < |w.nodes| && |w.nodes[id].groups| == 1
    requires forall j | 0 <= j < |parents| :: parents[j].node < |w.nodes|
    ensures forall i | 0 <= i < |w.nodes| :: Unchanged(AddParents(w, id, parents).nodes[i], w.nodes[i])
    decreases |parents|
  {
    if |parents| > 0 {
      var w1 := AddParent(w, id, 0, parents[0]).value;
      AddParentsUnchanged(w1, id, parents[1..]);
    }
  }

  lemma {:induction false} AppendFirst<T>(a: seq<T>, b: seq<T>)
    requires |b| > 0
    ensures a + [b[0]] + b[1..] == a + b
  {
    assert b == [b[0]] + b[1..];
  }

  /** The node keeps its kind, lock, value and group lock counts. */
  predicate Unchanged(a: Node, b: Node)
  {
    a.kind == b.kind && a.lock == b.lock && a.value == b.value && a.groupLocks == b.groupLocks
  }

  /** The node keeps its groups, kind, lock, value and lock counts: only its
      children may have changed. */
  predicate Keeps(a: Node, b: Node)
  {
    a.groups == b.groups && Unchanged(a, b)
  }

  /** A cut node as `createCut` leaves it: kind vertex, unlocked, no value,
      the given parent groups, none of them locked. */
  predicate FreshCutNode(n: Node, groups: seq<seq<Parent>>)
  {
    && n.kind == VertexKind && !n.lock && n.value == None && n.groups == groups
    && |n.groupLocks| == |groups| && (forall k | 0 <= k < |n.groupLocks| :: n.groupLocks[k] == 0)
  }

  /** Every node of `b` is still in `a`, changed at most in its children. */
  predicate KeepsAll(a: Web, b: Web)
  {
    |b.nodes| <= |a.nodes| && forall x | 0 <= x < |b.nodes| :: Keeps(a.nodes[x], b.nodes[x])
  }

  lemma {:induction false} KeepsAllTrans(a: Web, b: Web, c: Web)
    requires KeepsAll(a, b) && KeepsAll(b, c)
    ensures KeepsAll(a, c)
  {
  }

  /** A fresh cut node stays one while only its children change. */
  lemma {:induction false} FreshCutKept(a: Web, b: Web, x: nat, groups: seq<seq<Parent>>)
    requires KeepsAll(a, b) && x < |b.nodes| && FreshCutNode(b.nodes[x], groups)
    ensures FreshCutNode(a.nodes[x], groups)
  {
    assert Keeps(a.nodes[x], b.nodes[x]);
  }

  /** The first three steps of a round of the second loop: a fresh vertex
      node with one empty parent group. */
  function GroupedNode(w: Web): (r: (Web, nat))
    requires Valid(w)
    ensures Valid(r.0) && |r.0.nodes| == |w.nodes| + 1 && r.1 == |w.nodes|
    ensures r.0.locks == w.locks && r.0.errors == w.errors
    ensures r.0.nodes[r.1] == VertexNode(r.1).(groups := [[]], groupLocks := [0])
    ensures forall x | 0 <= x < |w.nodes| :: r.0.nodes[x] == w.nodes[x]
  {
    var (w1, id) := CreateNode(w);
    var w2 := SetKind(w1, id, VertexKind);
    var (w3, key) := CreateParentGroup(w2, id, []).value;
    (w3, id)
  }

  /** One round of the second loop of `createCut`: a fresh vertex node whose
      single parent group is column `i` of the condition block. */
  function Dependent(w: Web, independents: seq<nat>, condition: seq<seq<real>>, columns: nat, i: nat): (r: (Web, nat))
    requires Valid(w) && |independents| == |condition| && IsMatrix(condition, columns) && i < columns
    requires forall j | 0 <= j < |independents| :: independents[j] < |w.nodes|
    ensures Valid(r.0) && |r.0.nodes| == |w.nodes| + 1 && r.1 == |w.nodes|
    ensures r.0.locks == w.locks && r.0.errors == w.errors
  {
    var (w3, id) := GroupedNode(w);
    (AddParents(w3, id, ConditionGroup(independents, condition, columns, i)), id)
  }

  /** The round's node is a fresh cut node with the column as its group,
      and the nodes before it change at most in their children. */
  lemma {:induction false} DependentFacts(w: Web, independents: seq<nat>, condition: seq<seq<real>>, columns: nat, i: nat)
    requires Valid(w) && |independents| == |condition| && IsMatrix(condition, columns) && i < columns
    requires forall j | 0 <= j < |independents| :: independents[j] < |w.nodes|
    ensures var (r, id) := Dependent(w, independents, condition, columns, i);
      FreshCutNode(r.nodes[id], [ConditionGroup(independents, condition, columns, i)]) && KeepsAll(r, w)
  {
    var (w3, id) := GroupedNode(w);
    var g := ConditionGroup(independents, condition, columns, i);
    AddParentsUnchanged(w3, id, g);
    assert [] + g == g;
  }

  /** The second loop of `createCut`, from column `i` on; the node for
      column `c` gets id `base + c`. */
  function Dependents(w: Web, independents: seq<nat>, condition: seq<seq<real>>, columns: nat, base: nat, i: nat): (r: Web)
    requires Valid(w) && |independents| == |condition| && IsMatrix(condition, columns) && i <= columns
    requires forall j | 0 <= j < |independents| :: independents[j] < |w.nodes|
    requires |w.nodes| == base + i
    ensures Valid(r) && |r.nodes| == base + columns
    ensures r.locks == w.locks && r.errors == w.errors
    ensures forall c | i <= c < columns :: FreshCutNode(r.nodes[base + c], [ConditionGroup(independents, condition, columns, c)])
    ensures KeepsAll(r, w)
    decreases columns - i
  {
    if i == columns then w
    else
      var (w1, id) := Dependent(w, independents, condition, columns, i);
      DependentFacts(w, independents, condition, columns, i);
      var w2 := Dependents(w1, independents, condition, columns, base, i + 1);
      DependentsStep(w, w1, w2, id, independents, condition, columns, base, i);
      w2
  }

  lemma {:induction false} DependentsStep(w: Web, w1: Web, w2: Web, id: nat, independents: seq<nat>, condition: seq<seq<real>>, columns: nat, base: nat, i: nat)
    requires |independents| == |condition| && IsMatrix(condition, columns) && i < columns
    requires |w.nodes| == base + i && id == base + i && |w1.nodes| == base + i + 1 && |w2.nodes| == base + columns
    requires FreshCutNode(w1.nodes[id], [ConditionGroup(independents, condition, columns, i)])
    requires KeepsAll(w1, w) && KeepsAll(w2, w1)
    requires forall c | i + 1 <= c < columns :: FreshCutNode(w2.nodes[base + c], [ConditionGroup(independents, condition, columns, c)])
    ensures forall c | i <= c < columns :: FreshCutNode(w2.nodes[base + c], [ConditionGroup(independents, condition, columns, c)])
    ensures KeepsAll(w2, w)
  {
    KeepsAllTrans(w2, w1, w);
    FreshCutKept(w2, w1, id, [ConditionGroup(independents, condition, columns, i)]);
  }

  /** The ids `start`, `start + 1`, ..., `start + count - 1`. */
  function Range(start: nat, count: nat): (r: seq<nat>)
    ensures |r| == count && forall k | 0 <= k < count :: r[k] == start + k
  {
    seq(count, k requires 0 <= k < count => start + k)
  }

  /** The web after `createCut()`: one fresh vertex node per dimension,
      then one per column of the condition block, whose only parent group
      is that column over the first nodes. */
  function CutWeb(w: Web, condition: seq<seq<real>>, columns: nat): (r: Web)
    requires Valid(w) && IsMatrix(condition, columns)
    ensures Valid(r) && |r.nodes| == |w.nodes| + |condition| + columns
    ensures r.locks == w.locks && r.errors == w.errors
    ensures forall c | 0 <= c < columns ::
      FreshCutNode(r.nodes[|w.nodes| + |condition| + c], [ConditionGroup(Range(|w.nodes|, |condition|), condition, columns, c)])
  {
    Dependents(Independents(w, |condition|), Range(|w.nodes|, |condition|), condition, columns, |w.nodes| + |condition|, 0)
  }

  /** `createCut()`: the new web and the cut, whose nodes are numbered in
      creation order. `GetVertex` uses the two parts directly. */
  function CreateCut(w: Web, condition: seq<seq<real>>, columns: nat): (r: (Web, seq<nat>))
    requires Valid(w) && IsMatrix(condition, columns)
    ensures Valid(r.0) && r.1 == Range(|w.nodes|, |condition| + columns) && |r.0.nodes| == |w.nodes| + |r.1|
    ensures r.0.locks == w.locks && r.0.errors == w.errors
  {
    (CutWeb(w, condition, columns), Range(|w.nodes|, |condition| + columns))
  }

  /** The cut's first nodes are unlocked vertex nodes without parents, and
      the nodes before the cut change at most in their children. */
  lemma {:induction false} CutWebIndependents(w: Web, condition: seq<seq<real>>, columns: nat)
    requires Valid(w) && IsMatrix(condition, columns)
    ensures var r := CutWeb(w, condition, columns);
      && (forall x | |w.nodes| <= x < |w.nodes| + |condition| :: FreshCutNode(r.nodes[x], []))
      && KeepsAll(r, w)
  {
    var w1 := Independents(w, |condition|);
    var w2 := CutWeb(w, condition, columns);
    forall x | |w.nodes| <= x < |w.nodes| + |condition|
      ensures FreshCutNode(w2.nodes[x], [])
    {
      FreshCutKept(w2, w1, x, []);
    }
    assert KeepsAll(w1, w);
    KeepsAllTrans(w2, w1, w);
  }

  // ---------------------------------------------------------------------
  // VertexPool
  // ---------------------------------------------------------------------

  /** `VertexPool(condition_block, r)`: the condition block (with its column
      count, which an empty block does not show), the vertices, their index,
      the web of cut nodes, and the largest coordinate seen per dimension. */
  datatype Pool = Pool(
    condition: seq<seq<real>>,
    columns: nat,
    vertices: seq<Vertex>,
    index: Index,
    web: Web,
    size: seq<int>)

  /** The dimension: the number of rows of the condition block. */
  function Dimension(p: Pool): nat
  {
    |p.condition|
  }

  /** The number of cut nodes of each vertex: rows plus columns. */
  function CutSize(p: Pool): nat
  {
    |p.condition| + p.columns
  }

  /** The pool's shape: a valid web, a rectangular condition block, an
      index over all coordinates from the first, one size per dimension. */
  predicate PoolShape(p: Pool)
  {
    Valid(p.web) && IsMatrix(p.condition, p.columns) && IndexShape(p)
  }

  /** The index covers all coordinates from the first, and there is one
      size per dimension. */
  predicate IndexShape(p: Pool)
  {
    p.index.start == 0 && p.index.depth == Dimension(p) && |p.size| == Dimension(p)
  }

  /** Each vertex fits the web and the dimension. */
  predicate VerticesFit(p: Pool)
  {
    forall k | 0 <= k < |p.vertices| ::
      VertexIn(p.vertices[k], p.web) && |p.vertices[k].cut| == CutSize(p) && |p.vertices[k].position| == Dimension(p)
  }

  /** Every indexed element names the vertex at its position. */
  predicate EntriesNamed(p: Pool)
  {
    forall key, j | key in p.index.face && 0 <= j < |p.index.face[key]| ::
      p.index.face[key][j].item < |p.vertices| && p.vertices[p.index.face[key][j].item].position == p.index.face[key][j].position
  }

  /** Every vertex is found by the index under its own place. */
  predicate VerticesFound(p: Pool)
  {
    forall k | 0 <= k < |p.vertices| :: GetElement(p.index, p.vertices[k].position) == Ok(Some(Entry(p.vertices[k].position, k)))
  }

  /** The pool's invariant. */
  predicate PoolValid(p: Pool)
  {
    PoolShape(p) && IndexValid(p.index) && VerticesFit(p) && EntriesNamed(p) && VerticesFound(p)
  }

  /** `VertexPool(condition_block, r)`: no vertices, an empty index over all
      coordinates, an empty web, sizes zero. */
  function NewPool(condition: seq<seq<real>>, columns: nat, r: int): (p: Pool)
    requires IsMatrix(condition, columns)
    ensures PoolValid(p) && |p.vertices| == 0 && p.web == EmptyWeb()
    ensures Dimension(p) == |condition| && p.index.range == r
    ensures forall i | 0 <= i < |p.size| :: p.size[i] == 0
  {
    Pool(condition, columns, [], Index(r, 0, |condition|, map[]), EmptyWeb(), seq(|condition|, _ => 0))
  }

  /** Two vertices of a valid pool never share a position. */
  lemma {:induction false} DistinctPositions(p: Pool, a: nat, b: nat)
    requires PoolValid(p) && a < |p.vertices| && b < |p.vertices|
    requires p.vertices[a].position == p.vertices[b].position
    ensures a == b
  {
    assert GetElement(p.index, p.vertices[a].position) == Ok(Some(Entry(p.vertices[a].position, a)));
    assert GetElement(p.index, p.vertices[b].position) == Ok(Some(Entry(p.vertices[b].position, b)));
  }

  /** The size update of `GetVertex`: each coordinate raises its dimension's
      maximum; a position longer than the dimension runs off `size`. */
  function UpdateSize(size: seq<int>, position: Position): (r: Result<seq<int>>)
    ensures r.Ok? <==> |position| <= |size|
    ensures r.Ok? ==> |r.value| == |size|
    ensures r.Ok? ==> forall i | 0 <= i < |size| ::
      r.value[i] == (if i < |position| && position[i] > size[i] then position[i] else size[i])
  {
    if |position| > |size| then Fail(IndexError)
    else Ok(seq(|size|, i requires 0 <= i < |size| => if i < |position| && position[i] > size[i] then position[i] else size[i]))
  }

  /** The vertex `GetVertex` creates: its cut, no group keys, no edges. */
  function FreshVertex(position: Position, cut: seq<nat>): (v: Vertex)
    ensures v.position == position && v.cut == cut && |v.keys| == |cut| && |v.edges| == |cut|
    ensures forall k | 0 <= k < |cut| :: v.keys[k] == None && v.edges[k] == (None, None)
  {
    Vertex(position, cut, seq(|cut|, _ => None), seq(|cut|, _ => (None, None)))
  }

  /** The pool with a new vertex at `position`, given the web after its
      cut was created: the index entry, the vertex appended, the sizes
      raised. */
  function AddVertex(p: Pool, position: Position, web: Web): (q: Pool)
    requires Key(p.index, position).Ok? && |position| <= |p.size|
    ensures q.vertices == p.vertices + [FreshVertex(position, Range(|p.web.nodes|, CutSize(p)))]
    ensures q.web == web && q.index.range == p.index.range
    ensures |q.size| == |p.size| && forall i | 0 <= i < |q.size| ::
      q.size[i] == if i < |position| && p.size[i] < position[i] then position[i] else p.size[i]
    ensures q.condition == p.condition && q.columns == p.columns
  {
    Pool(p.condition, p.columns, p.vertices + [FreshVertex(position, Range(|p.web.nodes|, CutSize(p)))],
         AddElement(p.index, Entry(position, |p.vertices|)).value, web, UpdateSize(p.size, position).value)
  }

  /** `GetVertex(position)`: the vertex at the position, created with a new
      cut when the index has none. */
  function GetVertex(p: Pool, position: Position): (r: Result<(Pool, nat)>)
    requires PoolValid(p)
    ensures r.Ok? <==> Key(p.index, position).Ok? && |position| <= Dimension(p)
    ensures r.Ok? ==> var (q, k) := r.value;
      && PoolValid(q) && k < |q.vertices| && q.vertices[k].position == position
      && q.condition == p.condition && q.columns == p.columns && q.index.range == p.index.range
  {
    match GetElement(p.index, position)
    case Fail(e) => Fail(e)
    case Ok(Some(e)) =>
      FoundIsVertex(p, position);
      Ok((p, e.item))
    case Ok(None) =>
      if |position| > |p.size| then Fail(IndexError)
      else
        NotFoundIsNew(p, position);
        AddedVertexValid(p, position);
        Ok((AddVertex(p, position, CutWeb(p.web, p.condition, p.columns)), |p.vertices|))
  }

  /** A position some vertex has gives that vertex, with the pool
      unchanged. */
  lemma {:induction false} GetVertexFound(p: Pool, position: Position, k: nat)
    requires PoolValid(p) && k < |p.vertices| && p.vertices[k].position == position
    ensures GetVertex(p, position) == Ok((p, k))
  {
    assert GetElement(p.index, position) == Ok(Some(Entry(position, k)));
  }

  /** Any other position gives the pool with a new vertex added there. */
  lemma {:induction false} GetVertexNew(p: Pool, position: Position)
    requires PoolValid(p) && Key(p.index, position).Ok? && |position| <= Dimension(p)
    requires forall k | 0 <= k < |p.vertices| :: p.vertices[k].position != position
    ensures GetVertex(p, position) == Ok((AddVertex(p, position, CutWeb(p.web, p.condition, p.columns)), |p.vertices|))
  {
    if GetElement(p.index, position).value.Some? {
      FoundIsVertex(p, position);
    }
  }

  /** An element the index finds is the vertex at that position. */
  lemma {:induction false} FoundIsVertex(p: Pool, position: Position)
    requires PoolValid(p) && GetElement(p.index, position).Ok? && GetElement(p.index, position).value.Some?
    ensures var e := GetElement(p.index, position).value.value;
      e.item < |p.vertices| && p.vertices[e.item].position == position
    ensures forall k | 0 <= k < |p.vertices| && p.vertices[k].position == position ::
      GetElement(p.index, position).value.value.item == k
  {
    GetElementSpec(p.index, position);
  }

  /** When the index finds nothing, no vertex has the position. */
  lemma {:induction false} NotFoundIsNew(p: Pool, position: Position)
    requires PoolValid(p) && GetElement(p.index, position) == Ok(None)
    ensures forall k | 0 <= k < |p.vertices| :: p.vertices[k].position != position
  {
  }

  /** Adding the new vertex keeps the pool valid. */
  lemma {:induction false} AddedVertexValid(p: Pool, position: Position)
    requires PoolValid(p) && GetElement(p.index, position) == Ok(None) && |position| <= Dimension(p)
    requires forall k | 0 <= k < |p.vertices| :: p.vertices[k].position != position
    ensures PoolValid(AddVertex(p, position, CutWeb(p.web, p.condition, p.columns)))
  {
    var web := CutWeb(p.web, p.condition, p.columns);
    CutWebIndependents(p.web, p.condition, p.columns);
    AddKeepsValid(p.index, Entry(position, |p.vertices|));
    AddedVerticesFit(p, position, web);
    AddedVerticesFound(p, position, web);
    AddedEntriesNamed(p, position, web);
  }

  lemma {:induction false} AddedVerticesFit(p: Pool, position: Position, web: Web)
    requires VerticesFit(p) && IndexShape(p) && Key(p.index, position).Ok? && |position| <= Dimension(p)
    requires KeepsAll(web, p.web) && |web.nodes| == |p.web.nodes| + CutSize(p)
    ensures VerticesFit(AddVertex(p, position, web))
  {
    var q := AddVertex(p, position, web);
    assert WebExtends(p.web, web);
    forall k | 0 <= k < |q.vertices|
      ensures VertexIn(q.vertices[k], web) && |q.vertices[k].cut| == CutSize(q) && |q.vertices[k].position| == Dimension(q)
    {
      if k < |p.vertices| {
        VertexInExtends(p.vertices[k], p.web, web);
      }
    }
  }

  lemma {:induction false} AddedVerticesFound(p: Pool, position: Position, web: Web)
    requires IndexValid(p.index) && VerticesFound(p) && GetElement(p.index, position) == Ok(None) && |position| <= |p.size|
    requires forall k | 0 <= k < |p.vertices| :: p.vertices[k].position != position
    ensures VerticesFound(AddVertex(p, position, web))
  {
    var q := AddVertex(p, position, web);
    var e := Entry(position, |p.vertices|);
    assert q.index == AddElement(p.index, e).value;
    AddThenGet(p.index, e);
    forall k | 0 <= k < |q.vertices|
      ensures GetElement(q.index, q.vertices[k].position) == Ok(Some(Entry(q.vertices[k].position, k)))
    {
      if k < |p.vertices| {
        AddKeepsOthers(p.index, e, p.vertices[k].position);
      }
    }
  }

  lemma {:induction false} AddedEntriesNamed(p: Pool, position: Position, web: Web)
    requires EntriesNamed(p) && GetElement(p.index, position) == Ok(None) && |position| <= |p.size|
    ensures EntriesNamed(AddVertex(p, position, web))
  {
    var q := AddVertex(p, position, web);
    var e := Entry(position, |p.vertices|);
    assert q.index == AddElement(p.index, e).value;
    forall key, j | key in q.index.face && 0 <= j < |q.index.face[key]|
      ensures q.index.face[key][j].item < |q.vertices| && q.vertices[q.index.face[key][j].item].position == q.index.face[key][j].position
    {
      if q.index.face[key][j] != e {
        AddedEntryOld(p.index, e, key, j);
      }
    }
  }

  /** An element of the index after `AddElement` is the added one or was
      there before. */
  lemma {:induction false} AddedEntryOld(ix: Index, e: Entry, key: seq<int>, j: nat)
    requires Key(ix, e.position).Ok?
    requires key in AddElement(ix, e).value.face && j < |AddElement(ix, e).value.face[key]|
    requires AddElement(ix, e).value.face[key][j] != e
    ensures key in ix.face && AddElement(ix, e).value.face[key][j] in ix.face[key]
  {
  }

  /** `HasVertex(position)`: whether the index holds a vertex there. */
  function HasVertex(p: Pool, position: Position): (r: Result<bool>)
    requires PoolValid(p)
    ensures r.Ok? <==> Key(p.index, position).Ok?
    ensures r.Ok? ==> (r.value <==> exists k | 0 <= k < |p.vertices| :: p.vertices[k].position == position)
  {
    match GetElement(p.index, position)
    case Fail(e) => Fail(e)
    case Ok(found) =>
      if found.Some? then FoundIsVertex(p, position); Ok(true)
      else NotFoundIsNew(p, position); Ok(false)
  }

  /** Asking again for a vertex just got returns it, with the pool as it
      was, and `HasVertex` then answers true. */
  lemma {:induction false} GetVertexIdempotent(p: Pool, position: Position)
    requires PoolValid(p) && GetVertex(p, position).Ok?
    ensures var (q, k) := GetVertex(p, position).value;
      GetVertex(q, position) == Ok((q, k)) && HasVertex(q, position) == Ok(true)
  {
    var (q, k) := GetVertex(p, position).value;
    assert q.vertices[k].position == position;
    FoundIsVertex(q, position);
  }
  /** `GetVertex` loses nothing: the pool comes back unchanged when a vertex
      has the position, and otherwise with exactly one fresh vertex
      appended, whose new cut nodes leave the old nodes' groups alone. */
  lemma {:induction false} GetVertexGrows(p: Pool, position: Position)
    requires PoolValid(p) && GetVertex(p, position).Ok?
    ensures var (q, k) := GetVertex(p, position).value;
      && |p.vertices| <= |q.vertices| && WebExtends(p.web, q.web)
      && (forall j | 0 <= j < |p.vertices| :: q.vertices[j] == p.vertices[j])
      && ((exists j | 0 <= j < |p.vertices| :: p.vertices[j].position == position) <==> q == p)
      && (q == p ==> k < |p.vertices|)
      && (q != p ==> && |q.vertices| == |p.vertices| + 1 && k == |p.vertices|
                     && q.vertices[k] == FreshVertex(position, Range(|p.web.nodes|, CutSize(p))))
  {
    if j :| 0 <= j < |p.vertices| && p.vertices[j].position == position {
      GetVertexFound(p, position, j);
    } else {
      GetVertexNew(p, position);
      AddedVertexGrows(p, position, CutWeb(p.web, p.condition, p.columns));
    }
  }

  lemma {:induction false} AddedVertexGrows(p: Pool, position: Position, web: Web)
    requires Key(p.index, position).Ok? && |position| <= |p.size| && KeepsAll(web, p.web)
    requires forall j | 0 <= j < |p.vertices| :: p.vertices[j].position != position
    ensures var q := AddVertex(p, position, web);
      && |q.vertices| == |p.vertices| + 1 && WebExtends(p.web, q.web) && q != p
      && (forall j | 0 <= j < |p.vertices| :: q.vertices[j] == p.vertices[j])
      && q.vertices[|p.vertices|] == FreshVertex(position, Range(|p.web.nodes|, CutSize(p)))
  {
    var q := AddVertex(p, position, web);
    assert |q.vertices| != |p.vertices|;
  }
}
