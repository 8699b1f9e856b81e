/** The web of symbolic nodes (`symbolic.py`). A node is a variable of the
    lattice's linear system: it may be locked to a value, and it may have
    parent groups, each stating that a weighted sum of parent nodes equals the
    node. Locking a node propagates along groups whose members are all but
    one locked. Nodes refer to each other by id; the web's `nodes` list is
    indexed by id. */
module Symbolic {
  import opened Wrappers

  /** `node.kind`: unset (`None`), `'vertex'` or `'edge'`. */
  datatype Kind = Unset | VertexKind | EdgeKind

  /** A parent tuple `(parent, multiplier)`, the parent given by id. */
  datatype Parent = Parent(node: nat, multiplier: real)

  /** A node. `children` is the children dictionary in key insertion order
      (key, child ids); `groups[k]` and `groupLocks[k]` are the parent group
      with key `k` and its count of locked parents, so `next_key` is
      `|groups|`. `value` is `None` until the node is first locked. */
  datatype Node = Node(
    id: nat,
    kind: Kind,
    children: seq<(nat, seq<nat>)>,
    groups: seq<seq<Parent>>,
    groupLocks: seq<int>,
    value: Option<real>,
    lock: bool,
    weightId: int)

  /** One entry of `web.locks`: the node locked by command, and every node
      locked since, in order. */
  datatype Record = Record(commanded: nat, locked: seq<nat>)

  /** The web: the id counter, the nodes, the lock records and the double
      locks met (node, rejected value). */
  datatype Web = Web(nextId: int, nodes: seq<Node>, locks: seq<Record>, errors: seq<(nat, real)>)

  /** A fresh node with the given id. */
  function NewNode(id: nat): Node
  {
    Node(id, Unset, [], [], [], None, false, 0)
  }

  /** `Web()`. */
  function EmptyWeb(): Web
  {
    Web(0, [], [], [])
  }

  /** The node's references are ids below `count`, every group has a lock
      count, and the children dictionary has distinct keys. */
  predicate NodeValid(n: Node, count: nat)
  {
    && |n.groupLocks| == |n.groups|
    && (forall k, j | 0 <= k < |n.groups| && 0 <= j < |n.groups[k]| :: n.groups[k][j].node < count)
    && (forall a, j | 0 <= a < |n.children| && 0 <= j < |n.children[a].1| :: n.children[a].1[j] < count)
    && DistinctKeys(n.children)
  }

  /** A dictionary's keys are distinct. */
  predicate DistinctKeys<T>(d: seq<(nat, T)>)
  {
    forall a, b | 0 <= a < b < |d| :: d[a].0 != d[b].0
  }

  /** The web with node `i` replaced by `n`, which keeps the id and the
      references valid. */
  function SetNode(w: Web, i: nat, n: Node): (r: Web)
    requires Valid(w) && i < |w.nodes| && n.id == i && NodeValid(n, |w.nodes|)
    ensures Valid(r) && |r.nodes| == |w.nodes| && r.nodes[i] == n
    ensures forall j | 0 <= j < |w.nodes| && j != i :: r.nodes[j] == w.nodes[j]
    ensures r.locks == w.locks && r.errors == w.errors && r.nextId == w.nextId
  {
    w.(nodes := w.nodes[i := n])
  }

  /** The id counter is the node count, node `i` has id `i`, and every
      reference is to an existing node. */
  predicate Valid(w: Web)
  {
    && w.nextId == |w.nodes|
    && (forall i | 0 <= i < |w.nodes| :: w.nodes[i].id == i && NodeValid(w.nodes[i], |w.nodes|))
    && (forall r | 0 <= r < |w.locks| :: w.locks[r].commanded < |w.nodes|)
    && (forall r, j | 0 <= r < |w.locks| && 0 <= j < |w.locks[r].locked| :: w.locks[r].locked[j] < |w.nodes|)
  }

  // ---------------------------------------------------------------------
  // Creating and removing nodes
  // ---------------------------------------------------------------------

  /** `Web.CreateNode`: a fresh node with id `next_id`, appended. */
  function CreateNode(w: Web): (r: (Web, nat))
    requires Valid(w)
    ensures Valid(r.0)
    ensures r.1 == w.nextId && r.0.nextId == w.nextId + 1
    ensures r.0.nodes == w.nodes + [NewNode(r.1)]
    ensures r.0.locks == w.locks && r.0.errors == w.errors
  {
    (w.(nextId := w.nextId + 1, nodes := w.nodes + [NewNode(w.nextId)]), w.nextId)
  }

  /** No node or lock record refers to node `id`. */
  predicate Unreferenced(w: Web, id: nat)
  {
    && (forall i, k, j | 0 <= i < |w.nodes| && 0 <= k < |w.nodes[i].groups| && 0 <= j < |w.nodes[i].groups[k]| ::
          w.nodes[i].groups[k][j].node != id)
    && (forall i, a, j | 0 <= i < |w.nodes| && 0 <= a < |w.nodes[i].children| && 0 <= j < |w.nodes[i].children[a].1| ::
          w.nodes[i].children[a].1[j] != id)
    && (forall r | 0 <= r < |w.locks| :: w.locks[r].commanded != id)
    && (forall r, j | 0 <= r < |w.locks| && 0 <= j < |w.locks[r].locked| :: w.locks[r].locked[j] != id)
  }

  /** `Web.RemoveNode`: pop the last node and step the counter back; an empty
      web fails on `pop`. */
  function RemoveNode(w: Web): (r: Result<Web>)
    ensures |w.nodes| == 0 <==> r == Fail(IndexError)
    ensures r.Ok? ==> r.value.nodes == w.nodes[..|w.nodes| - 1] && r.value.nextId == w.nextId - 1
    ensures r.Ok? ==> r.value.locks == w.locks && r.value.errors == w.errors
    ensures r.Ok? && Valid(w) && Unreferenced(w, |w.nodes| - 1) ==> Valid(r.value)
  {
    if |w.nodes| == 0 then Fail(IndexError)
    else
      var r := w.(nextId := w.nextId - 1, nodes := w.nodes[..|w.nodes| - 1]);
      assert forall i | 0 <= i < |r.nodes| :: r.nodes[i] == w.nodes[i];
      Ok(r)
  }

  /** Removing the node just created gives the web back. */
  lemma {:induction false} CreateRemove(w: Web)
    requires Valid(w)
    ensures RemoveNode(CreateNode(w).0) == Ok(w)
  {
    var c := CreateNode(w).0;
    assert c.nodes[..|c.nodes| - 1] == w.nodes;
  }

  /** Setting `node.kind`. */
  function SetKind(w: Web, id: nat, kind: Kind): (r: Web)
    requires Valid(w) && id < |w.nodes|
    ensures Valid(r) && |r.nodes| == |w.nodes| && r.nodes[id].kind == kind
    ensures forall i | 0 <= i < |w.nodes| && i != id :: r.nodes[i] == w.nodes[i]
    ensures r.nodes[id] == w.nodes[id].(kind := kind)
    ensures r.locks == w.locks && r.errors == w.errors && r.nextId == w.nextId
  {
    w.(nodes := w.nodes[id := w.nodes[id].(kind := kind)])
  }

  // ---------------------------------------------------------------------
  // Parent groups
  // ---------------------------------------------------------------------

  /** `Node.CreateParentGroup(*parents)`: a new empty group under key
      `next_key` with lock count 0. Any parent passed along fails, because
      the source appends it to the group dictionary itself. */
  function CreateParentGroup(w: Web, id: nat, parents: seq<Parent>): (r: Result<(Web, nat)>)
    requires Valid(w) && id < |w.nodes|
    ensures |parents| > 0 <==> r == Fail(AttributeError)
    ensures r.Ok? ==> var (v, key) := r.value;
      && Valid(v) && key == |w.nodes[id].groups| && |v.nodes| == |w.nodes|
      && v.nodes[id] == w.nodes[id].(groups := w.nodes[id].groups + [[]], groupLocks := w.nodes[id].groupLocks + [0])
      && (forall i | 0 <= i < |w.nodes| && i != id :: v.nodes[i] == w.nodes[i])
      && v.locks == w.locks && v.errors == w.errors && v.nextId == w.nextId
  {
    if |parents| > 0 then Fail(AttributeError)
    else
      var n := w.nodes[id];
      var n' := n.(groups := n.groups + [[]], groupLocks := n.groupLocks + [0]);
      assert NodeValid(n', |w.nodes|) by {
        assert forall k | 0 <= k < |n.groups| :: n'.groups[k] == n.groups[k];
      }
      Ok((SetNode(w, id, n'), |n.groups|))
  }

  /** `addChild(key, child)`: the child appended to the list under `key`,
      which is created first when missing. */
  function AddChild(children: seq<(nat, seq<nat>)>, key: nat, child: nat): (r: seq<(nat, seq<nat>)>)
    requires DistinctKeys(children)
    ensures DistinctKeys(r)
    ensures |r| == |children| || |r| == |children| + 1
    ensures forall a | 0 <= a < |children| :: r[a].0 == children[a].0
    ensures forall a | 0 <= a < |children| :: r[a].1 == (if children[a].0 == key then children[a].1 + [child] else children[a].1)
    ensures |r| == |children| + 1 <==> forall a | 0 <= a < |children| :: children[a].0 != key
    ensures |r| == |children| + 1 ==> r[|children|] == (key, [child])
  {
    if |children| == 0 then [(key, [child])]
    else if children[0].0 == key then [(key, children[0].1 + [child])] + children[1..]
    else [children[0]] + AddChild(children[1..], key, child)
  }

  /** `Node.AddParent(key, parent)`: the parent tuple appended to group
      `key`, and this node registered as the parent's child under the same
      key. A key the node does not have fails. */
  function AddParent(w: Web, id: nat, key: nat, p: Parent): (r: Result<Web>)
    requires Valid(w) && id < |w.nodes| && p.node < |w.nodes|
    ensures key >= |w.nodes[id].groups| <==> r == Fail(KeyError)
    ensures r.Ok? ==> Valid(r.value) && |r.value.nodes| == |w.nodes|
    ensures r.Ok? ==> r.value.nodes[id].groups == w.nodes[id].groups[key := w.nodes[id].groups[key] + [p]]
    ensures r.Ok? ==> r.value.nodes[p.node].children == AddChild(w.nodes[p.node].children, key, id)
    ensures r.Ok? ==> r.value.locks == w.locks && r.value.errors == w.errors && r.value.nextId == w.nextId
    ensures r.Ok? ==> forall i | 0 <= i < |w.nodes| && i != id && i != p.node :: r.value.nodes[i] == w.nodes[i]
    ensures r.Ok? ==> forall i | 0 <= i < |w.nodes| && i != id :: r.value.nodes[i].groups == w.nodes[i].groups
    ensures r.Ok? ==> forall i | 0 <= i < |w.nodes| && i != p.node :: r.value.nodes[i].children == w.nodes[i].children
    ensures r.Ok? ==> forall i | 0 <= i < |w.nodes| ::
      && r.value.nodes[i].kind == w.nodes[i].kind && r.value.nodes[i].lock == w.nodes[i].lock
      && r.value.nodes[i].value == w.nodes[i].value && r.value.nodes[i].groupLocks == w.nodes[i].groupLocks
      && r.value.nodes[i].weightId == w.nodes[i].weightId
  {
    if key >= |w.nodes[id].groups| then Fail(KeyError)
    else
      var v := AppendParent(w, id, key, p);
      Ok(RegisterChild(v, p.node, key, id))
  }

  /** The first half of `AddParent`: the parent tuple appended to group
      `key` of node `id`. */
  function AppendParent(w: Web, id: nat, key: nat, p: Parent): (v: Web)
    requires Valid(w) && id < |w.nodes| && p.node < |w.nodes| && key < |w.nodes[id].groups|
    ensures Valid(v) && |v.nodes| == |w.nodes|
    ensures v.nodes[id] == w.nodes[id].(groups := w.nodes[id].groups[key := w.nodes[id].groups[key] + [p]])
    ensures forall i | 0 <= i < |w.nodes| && i != id :: v.nodes[i] == w.nodes[i]
    ensures v.locks == w.locks && v.errors == w.errors && v.nextId == w.nextId
  {
    var n := w.nodes[id];
    var n' := n.(groups := n.groups[key := n.groups[key] + [p]]);
    assert NodeValid(n', |w.nodes|) by {
      assert forall k | 0 <= k < |n.groups| && k != key :: n'.groups[k] == n.groups[k];
    }
    SetNode(w, id, n')
  }

  /** The second half of `AddParent`: node `child` registered under `key`
      among the children of node `j`. */
  function RegisterChild(w: Web, j: nat, key: nat, child: nat): (v: Web)
    requires Valid(w) && j < |w.nodes| && child < |w.nodes|
    ensures Valid(v) && |v.nodes| == |w.nodes|
    ensures v.nodes[j] == w.nodes[j].(children := AddChild(w.nodes[j].children, key, child))
    ensures forall i | 0 <= i < |w.nodes| && i != j :: v.nodes[i] == w.nodes[i]
    ensures v.locks == w.locks && v.errors == w.errors && v.nextId == w.nextId
  {
    var m := w.nodes[j];
    var m' := m.(children := AddChild(m.children, key, child));
    assert NodeValid(m', |w.nodes|) by {
      AddChildBelow(m.children, key, child, |w.nodes|);
    }
    SetNode(w, j, m')
  }

  /** Registering a child keeps every listed child below `count`. */
  lemma {:induction false} AddChildBelow(children: seq<(nat, seq<nat>)>, key: nat, child: nat, count: nat)
    requires DistinctKeys(children) && child < count
    requires forall a, i | 0 <= a < |children| && 0 <= i < |children[a].1| :: children[a].1[i] < count
    ensures var r := AddChild(children, key, child);
      forall a, i | 0 <= a < |r| && 0 <= i < |r[a].1| :: r[a].1[i] < count
  {
    var r := AddChild(children, key, child);
    forall a, i | 0 <= a < |r| && 0 <= i < |r[a].1|
      ensures r[a].1[i] < count
    {
      if a < |children| && children[a].0 == key && i == |children[a].1| {
        assert r[a].1[i] == child;
      }
    }
  }

  // ---------------------------------------------------------------------
  // What a lock cascade may change
  // ---------------------------------------------------------------------

  /** Two versions of a node with the same id, kind, links and groups. */
  predicate SameShape(a: Node, b: Node)
  {
    && a.id == b.id && a.kind == b.kind && a.children == b.children && a.groups == b.groups
    && a.weightId == b.weightId && |a.groupLocks| == |b.groupLocks|
  }

  /** During a cascade a node keeps its shape and, once locked, its lock and
      value; its lock counts never fall. */
  predicate NodeGrows(a: Node, b: Node)
  {
    && SameShape(a, b)
    && (a.lock ==> b.lock && b.value == a.value)
    && (forall k | 0 <= k < |a.groupLocks| :: a.groupLocks[k] <= b.groupLocks[k])
  }

  /** The nodes listed by the current (last) lock record. */
  function Current(w: Web): seq<nat>
  {
    if |w.locks| == 0 then [] else w.locks[|w.locks| - 1].locked
  }

  /** `v` is `w` after some locking: only the current record grows, it grows
      by exactly the nodes that became locked, and double locks are only
      appended. */
  predicate Grows(w: Web, v: Web)
  {
    && NodesGrow(w, v)
    && w.errors <= v.errors
    && RecordsGrow(w, v)
    && NewlyLockedRecorded(w, v)
    && RecordedNewlyLocked(w, v)
  }

  predicate NodesGrow(w: Web, v: Web)
  {
    && |v.nodes| == |w.nodes| && v.nextId == w.nextId
    && (forall i | 0 <= i < |w.nodes| :: NodeGrows(w.nodes[i], v.nodes[i]))
  }

  /** Earlier records and the current record's command are kept; the current
      record's list only gets longer. */
  predicate RecordsGrow(w: Web, v: Web)
  {
    && |v.locks| == |w.locks|
    && (|w.locks| > 0 ==>
          && v.locks[..|w.locks| - 1] == w.locks[..|w.locks| - 1]
          && v.locks[|w.locks| - 1].commanded == w.locks[|w.locks| - 1].commanded)
    && Current(w) <= Current(v)
  }

  /** Every node that became locked was appended to the current record. */
  predicate NewlyLockedRecorded(w: Web, v: Web)
    requires NodesGrow(w, v) && RecordsGrow(w, v)
  {
    forall i | 0 <= i < |w.nodes| && v.nodes[i].lock && !w.nodes[i].lock :: i in Current(v)[|Current(w)|..]
  }

  /** Every node appended to the current record became locked. */
  predicate RecordedNewlyLocked(w: Web, v: Web)
    requires NodesGrow(w, v) && RecordsGrow(w, v)
  {
    forall j | |Current(w)| <= j < |Current(v)| ::
      Current(v)[j] < |w.nodes| && !w.nodes[Current(v)[j]].lock && v.nodes[Current(v)[j]].lock
  }

  lemma {:induction false} GrowsRefl(w: Web)
    ensures Grows(w, w)
  {
  }

  lemma {:induction false} GrowsTrans(a: Web, b: Web, c: Web)
    requires Grows(a, b) && Grows(b, c)
    ensures Grows(a, c)
  {
    NodesGrowTrans(a, b, c);
    RecordsGrowTrans(a, b, c);
    NewlyLockedTrans(a, b, c);
    RecordedTrans(a, b, c);
  }

  lemma {:induction false} NodesGrowTrans(a: Web, b: Web, c: Web)
    requires NodesGrow(a, b) && NodesGrow(b, c)
    ensures NodesGrow(a, c)
  {
    forall i | 0 <= i < |a.nodes|
      ensures NodeGrows(a.nodes[i], c.nodes[i])
    {
      assert NodeGrows(a.nodes[i], b.nodes[i]) && NodeGrows(b.nodes[i], c.nodes[i]);
    }
  }

  lemma {:induction false} RecordsGrowTrans(a: Web, b: Web, c: Web)
    requires RecordsGrow(a, b) && RecordsGrow(b, c)
    ensures RecordsGrow(a, c)
  {
    if |a.locks| > 0 {
      var n := |a.locks| - 1;
      assert c.locks[..n] == b.locks[..n];
    }
  }

  lemma {:induction false} NewlyLockedTrans(a: Web, b: Web, c: Web)
    requires Grows(a, b) && Grows(b, c) && NodesGrow(a, c) && RecordsGrow(a, c)
    ensures NewlyLockedRecorded(a, c)
  {
    var ca, cb, cc := Current(a), Current(b), Current(c);
    forall i | 0 <= i < |a.nodes| && c.nodes[i].lock && !a.nodes[i].lock
      ensures i in cc[|ca|..]
    {
      if b.nodes[i].lock {
        assert i in cb[|ca|..];
        var t :| 0 <= t < |cb[|ca|..]| && cb[|ca|..][t] == i;
        assert cc[|ca|..][t] == cb[|ca| + t];
      } else {
        assert i in cc[|cb|..];
        var t :| 0 <= t < |cc[|cb|..]| && cc[|cb|..][t] == i;
        assert cc[|ca|..][|cb| - |ca| + t] == i;
      }
    }
  }

  lemma {:induction false} RecordedTrans(a: Web, b: Web, c: Web)
    requires Grows(a, b) && Grows(b, c) && NodesGrow(a, c) && RecordsGrow(a, c)
    ensures RecordedNewlyLocked(a, c)
  {
    var ca, cb, cc := Current(a), Current(b), Current(c);
    forall j | |ca| <= j < |cc|
      ensures cc[j] < |a.nodes| && !a.nodes[cc[j]].lock && c.nodes[cc[j]].lock
    {
      if j < |cb| {
        assert cc[j] == cb[j];
        assert NodeGrows(b.nodes[cb[j]], c.nodes[cb[j]]);
      } else {
        assert NodeGrows(a.nodes[cc[j]], b.nodes[cc[j]]);
      }
    }
  }

  // ---------------------------------------------------------------------
  // The single steps of a cascade
  // ---------------------------------------------------------------------

  /** `node.value = value; node.lock = True`. */
  function SetLocked(w: Web, id: nat, value: real): (r: Web)
    requires Valid(w) && id < |w.nodes|
    ensures Valid(r)
  {
    SetNode(w, id, w.nodes[id].(value := Some(value), lock := true))
  }

  /** `Web.addLock`: the node appended to the current record, which fails
      when there is no record. */
  function AddLock(w: Web, id: nat): (r: Result<Web>)
    requires Valid(w) && id < |w.nodes|
    ensures |w.locks| == 0 <==> r == Fail(IndexError)
    ensures r.Ok? ==> Valid(r.value) && r.value.nodes == w.nodes && r.value.errors == w.errors && r.value.nextId == w.nextId
    ensures r.Ok? ==> |r.value.locks| == |w.locks| && Current(r.value) == Current(w) + [id]
    ensures r.Ok? ==> r.value.locks[..|w.locks| - 1] == w.locks[..|w.locks| - 1]
    ensures r.Ok? ==> r.value.locks[|w.locks| - 1].commanded == w.locks[|w.locks| - 1].commanded
  {
    if |w.locks| == 0 then Fail(IndexError)
    else
      var n := |w.locks| - 1;
      var v := w.(locks := w.locks[n := Record(w.locks[n].commanded, w.locks[n].locked + [id])]);
      assert v.locks[..n] == w.locks[..n];
      Ok(v)
  }

  /** Locking an unlocked node and recording it is growth. */
  lemma {:induction false} LockStepGrows(w: Web, id: nat, value: real)
    requires Valid(w) && id < |w.nodes| && !w.nodes[id].lock && |w.locks| > 0
    ensures Grows(w, AddLock(SetLocked(w, id, value), id).value)
  {
    var v := AddLock(SetLocked(w, id, value), id).value;
    assert Current(v) == Current(w) + [id];
    assert Current(v)[|Current(w)|..] == [id];
    forall i | 0 <= i < |w.nodes|
      ensures NodeGrows(w.nodes[i], v.nodes[i])
    {
    }
  }

  /** `child.parent_group_locks[key] += 1`. */
  function IncLock(w: Web, c: nat, key: nat): (r: Web)
    requires Valid(w) && c < |w.nodes| && key < |w.nodes[c].groupLocks|
    ensures Valid(r) && Grows(w, r)
    ensures r.nodes[c].groupLocks[key] == w.nodes[c].groupLocks[key] + 1
    ensures r.nodes[c].lock == w.nodes[c].lock && r.nodes[c].groups == w.nodes[c].groups
  {
    var n := w.nodes[c];
    var r := SetNode(w, c, n.(groupLocks := n.groupLocks[key := n.groupLocks[key] + 1]));
    assert NodeGrows(w.nodes[c], r.nodes[c]);
    r
  }

  /** `Web.HandleDoubleLock`: the node and the rejected value recorded. */
  function HandleDoubleLock(w: Web, id: nat, value: real): (r: Web)
    requires Valid(w)
    ensures Valid(r) && Grows(w, r)
    ensures r.errors == w.errors + [(id, value)] && r.nodes == w.nodes && r.locks == w.locks
  {
    w.(errors := w.errors + [(id, value)])
  }

  /** The sum of `multiplier * parent.value` over a group; a parent with no
      value fails as `None` arithmetic does. */
  function GroupValue(w: Web, group: seq<Parent>): (r: Result<real>)
    requires forall j | 0 <= j < |group| :: group[j].node < |w.nodes|
    ensures r.Ok? <==> forall j | 0 <= j < |group| :: w.nodes[group[j].node].value.Some?
    ensures r.Fail? ==> r.error == TypeError
  {
    if |group| == 0 then Ok(0.0)
    else
      var v := w.nodes[group[0].node].value;
      match GroupValue(w, group[1..])
      case Fail(e) => Fail(e)
      case Ok(rest) =>
        if v.None? then Fail(TypeError) else Ok(group[0].multiplier * v.value + rest)
  }

  /** The loop of `checkForGroupLocks` over one group: the sum over locked
      parents, and the last unlocked parent, which starts from the one left
      over from the previous group. */
  function Scan(w: Web, group: seq<Parent>, sum: real, unlocked: Option<Parent>): (r: Result<(real, Option<Parent>)>)
    requires forall j | 0 <= j < |group| :: group[j].node < |w.nodes|
    ensures r.Ok? ==> r.value.1.Some? == (unlocked.Some? || exists j | 0 <= j < |group| :: !w.nodes[group[j].node].lock)
    ensures r.Ok? && r.value.1.Some? && r.value.1 != unlocked ==> r.value.1.value in group && !w.nodes[r.value.1.value.node].lock
    decreases |group|
  {
    if |group| == 0 then Ok((sum, unlocked))
    else
      var p := group[0];
      var n := w.nodes[p.node];
      if n.lock then
        if n.value.None? then Fail(TypeError)
        else
          var r := Scan(w, group[1..], sum + p.multiplier * n.value.value, unlocked);
          assert r.Ok? ==> (exists j | 0 <= j < |group| :: !w.nodes[group[j].node].lock) ==> exists j | 0 <= j < |group[1..]| :: !w.nodes[group[1..][j].node].lock;
          r
      else
        var r := Scan(w, group[1..], sum, Some(p));
        assert r.Ok? && r.value.1.Some? ==> r.value.1.value in group && !w.nodes[r.value.1.value.node].lock by {
          if r.Ok? && r.value.1.Some? && r.value.1 != Some(p) {
            assert r.value.1.value in group[1..];
          }
        }
        r
  }

  // ---------------------------------------------------------------------
  // The lock cascade. Each function is one method of `Node`; `fuel` bounds
  // the depth of nested locks, the only unbounded recursion of the source.
  // ---------------------------------------------------------------------

  /** The child ids of a children dictionary name existing nodes. */
  predicate ChildrenIn(children: seq<(nat, seq<nat>)>, count: nat)
  {
    forall a, j | 0 <= a < |children| && 0 <= j < |children[a].1| :: children[a].1[j] < count
  }

  /** Every listed child has its count for `key` raised from `w` to `v`
      (where the child has such a key). */
  predicate ListRaised(w: Web, v: Web, key: nat, list: seq<nat>)
    requires |v.nodes| == |w.nodes| && forall j | 0 <= j < |list| :: list[j] < |w.nodes|
    requires forall i | 0 <= i < |w.nodes| :: |v.nodes[i].groupLocks| == |w.nodes[i].groupLocks|
  {
    forall j | 0 <= j < |list| && key < |w.nodes[list[j]].groupLocks| ::
      v.nodes[list[j]].groupLocks[key] > w.nodes[list[j]].groupLocks[key]
  }

  /** Every child of a children dictionary has its count for the key it is
      listed under raised from `w` to `v`. */
  predicate ChildrenRaised(w: Web, v: Web, children: seq<(nat, seq<nat>)>)
    requires |v.nodes| == |w.nodes| && ChildrenIn(children, |w.nodes|)
    requires forall i | 0 <= i < |w.nodes| :: |v.nodes[i].groupLocks| == |w.nodes[i].groupLocks|
  {
    forall a | 0 <= a < |children| :: ListRaised(w, v, children[a].0, children[a].1)
  }

  /** `v` is `w` after node `id`, unlocked in `w`, was locked to `value`:
      the node is the first one recorded, and every child's count for the
      key it is listed under was raised. */
  predicate LockedFrom(w: Web, v: Web, id: nat, value: real)
    requires id < |w.nodes|
  {
    && Valid(v) && Grows(w, v) && ChildrenIn(w.nodes[id].children, |w.nodes|)
    && v.nodes[id].lock && v.nodes[id].value == Some(value)
    && |Current(w)| < |Current(v)| && Current(v)[|Current(w)|] == id
    && ChildrenRaised(w, v, w.nodes[id].children)
  }

  /** The first step of locking an unlocked node: value, flag and record. */
  function BeginLock(w: Web, id: nat, value: real): (r: Web)
    requires Valid(w) && id < |w.nodes| && !w.nodes[id].lock && |w.locks| > 0
    ensures Valid(r) && Grows(w, r) && r.nodes[id].lock && r.nodes[id].value == Some(value)
    ensures Current(r) == Current(w) + [id] && r.nodes[id].children == w.nodes[id].children
    ensures forall i | 0 <= i < |w.nodes| :: r.nodes[i].groupLocks == w.nodes[i].groupLocks
  {
    LockStepGrows(w, id, value);
    AddLock(SetLocked(w, id, value), id).value
  }

  /** Facts of a whole `Lock` of an unlocked node from those of its steps. */
  lemma {:induction false} LockFacts(w: Web, w1: Web, w2: Web, w3: Web, id: nat, value: real)
    requires Valid(w) && id < |w.nodes| && !w.nodes[id].lock && |w.locks| > 0
    requires w1 == BeginLock(w, id, value)
    requires Valid(w2) && Grows(w1, w2) && ChildrenRaised(w1, w2, w.nodes[id].children)
    requires Valid(w3) && Grows(w2, w3)
    ensures LockedFrom(w, w3, id, value)
  {
    GrowsTrans(w1, w2, w3);
    GrowsTrans(w, w1, w3);
    var children := w.nodes[id].children;
    assert Current(w3)[|Current(w)|] == id by {
      assert Current(w1) <= Current(w3);
      assert Current(w1)[|Current(w)|] == id;
    }
    assert NodeGrows(w1.nodes[id], w3.nodes[id]);
    forall a, j | 0 <= a < |children| && 0 <= j < |children[a].1| && children[a].0 < |w.nodes[children[a].1[j]].groupLocks|
      ensures w3.nodes[children[a].1[j]].groupLocks[children[a].0] > w.nodes[children[a].1[j]].groupLocks[children[a].0]
    {
      var c, key := children[a].1[j], children[a].0;
      assert ListRaised(w1, w2, key, children[a].1);
      assert NodeGrows(w2.nodes[c], w3.nodes[c]);
    }
  }

  /** `Node.Lock(value, id_to_ignore)`. An unlocked node takes the value,
      is recorded, raises its children's counts (locking those whose group
      is complete), locks the last parent of any group of its own that is
      one short, and lets each child do the same. A locked node keeps its
      value; a different value is reported as a double lock. */
  function NodeLock(w: Web, id: nat, value: real, ignore: Option<nat>, fuel: nat): (r: Result<Web>)
    requires Valid(w) && id < |w.nodes|
    ensures r.Ok? ==> Valid(r.value) && Grows(w, r.value) && r.value.nodes[id].lock
    ensures w.nodes[id].lock ==> r == Ok(if w.nodes[id].value == Some(value) then w else HandleDoubleLock(w, id, value))
    ensures !w.nodes[id].lock && |w.locks| == 0 ==> r == Fail(IndexError)
    ensures r.Ok? && !w.nodes[id].lock ==> LockedFrom(w, r.value, id, value)
    decreases fuel, 0, 0
  {
    var n := w.nodes[id];
    if n.lock then
      if n.value == Some(value) then GrowsRefl(w); Ok(w) else Ok(HandleDoubleLock(w, id, value))
    else if |w.locks| == 0 then Fail(IndexError)
    else if fuel == 0 then Fail(OutOfFuel)
    else
      var w1 := BeginLock(w, id, value);
      match UpdateKeys(w1, n.children, ignore, false, fuel - 1)
      case Fail(e) => Fail(e)
      case Ok(w2) =>
        match FinishLock(w2, id, n.children, fuel - 1)
        case Fail(e) => Fail(e)
        case Ok(w3) => LockFacts(w, w1, w2, w3, id, value); Ok(w3)
  }

  /** The end of `Node.Lock`: the node checks its own groups, then each
      child checks its groups. */
  function FinishLock(w: Web, id: nat, children: seq<(nat, seq<nat>)>, fuel: nat): (r: Result<Web>)
    requires Valid(w) && id < |w.nodes| && ChildrenIn(children, |w.nodes|)
    ensures r.Ok? ==> Valid(r.value) && Grows(w, r.value)
    decreases fuel, 6, 0
  {
    match CheckGroupLocks(w, id, fuel)
    case Fail(e) => Fail(e)
    case Ok(w1) =>
      match CheckKeys(w1, children, fuel)
      case Fail(e) => Fail(e)
      case Ok(w2) => GrowsTrans(w, w1, w2); Ok(w2)
  }

  /** Counts raised by a first step stay raised through later growth. */
  lemma {:induction false} RaisedThenGrown(w: Web, v: Web, u: Web, key: nat, list: seq<nat>)
    requires Valid(w) && Grows(w, v) && Grows(v, u) && forall j | 0 <= j < |list| :: list[j] < |w.nodes|
    requires ListRaised(w, v, key, list)
    ensures ListRaised(w, u, key, list)
  {
    forall j | 0 <= j < |list| && key < |w.nodes[list[j]].groupLocks|
      ensures u.nodes[list[j]].groupLocks[key] > w.nodes[list[j]].groupLocks[key]
    {
      assert NodeGrows(v.nodes[list[j]], u.nodes[list[j]]);
    }
  }

  /** Counts raised by a later step are raised from any earlier point. */
  lemma {:induction false} GrownThenRaised(w: Web, v: Web, u: Web, key: nat, list: seq<nat>)
    requires Valid(w) && Grows(w, v) && Grows(v, u) && forall j | 0 <= j < |list| :: list[j] < |w.nodes|
    requires ListRaised(v, u, key, list)
    ensures ListRaised(w, u, key, list)
  {
    forall j | 0 <= j < |list| && key < |w.nodes[list[j]].groupLocks|
      ensures u.nodes[list[j]].groupLocks[key] > w.nodes[list[j]].groupLocks[key]
    {
      assert NodeGrows(w.nodes[list[j]], v.nodes[list[j]]);
    }
  }

  /** `Node.LockDown(value)`: like `NodeLock`, but the cascade only runs down
      to children whose groups complete, which lock down in turn. */
  function NodeLockDown(w: Web, id: nat, value: real, fuel: nat): (r: Result<Web>)
    requires Valid(w) && id < |w.nodes|
    ensures r.Ok? ==> Valid(r.value) && Grows(w, r.value) && r.value.nodes[id].lock
    ensures w.nodes[id].lock ==> r == Ok(if w.nodes[id].value == Some(value) then w else HandleDoubleLock(w, id, value))
    ensures !w.nodes[id].lock && |w.locks| == 0 ==> r == Fail(IndexError)
    ensures r.Ok? && !w.nodes[id].lock ==> LockedFrom(w, r.value, id, value)
    decreases fuel, 0, 0
  {
    var n := w.nodes[id];
    if n.lock then
      if n.value == Some(value) then GrowsRefl(w); Ok(w) else Ok(HandleDoubleLock(w, id, value))
    else if |w.locks| == 0 then Fail(IndexError)
    else if fuel == 0 then Fail(OutOfFuel)
    else
      var w1 := BeginLock(w, id, value);
      match UpdateKeys(w1, n.children, None, true, fuel - 1)
      case Fail(e) => Fail(e)
      case Ok(w2) => GrowsRefl(w2); LockFacts(w, w1, w2, w2, id, value); Ok(w2)
  }

  /** `parentLock(key)` (or `downParentLock` when `down`): lock to the
      group's weighted sum of parent values. */
  function ParentLock(w: Web, c: nat, key: nat, down: bool, fuel: nat): (r: Result<Web>)
    requires Valid(w) && c < |w.nodes| && key < |w.nodes[c].groups|
    ensures r.Ok? ==> Valid(r.value) && Grows(w, r.value) && r.value.nodes[c].lock
    decreases fuel, 1, 0
  {
    match GroupValue(w, w.nodes[c].groups[key])
    case Fail(e) => Fail(e)
    case Ok(value) => if down then NodeLockDown(w, c, value, fuel) else NodeLock(w, c, value, None, fuel)
  }

  /** `updateLocksOnChildren`, over the dictionary's keys. */
  function UpdateKeys(w: Web, children: seq<(nat, seq<nat>)>, ignore: Option<nat>, down: bool, fuel: nat): (r: Result<Web>)
    requires Valid(w) && ChildrenIn(children, |w.nodes|)
    ensures r.Ok? ==> Valid(r.value) && Grows(w, r.value) && ChildrenRaised(w, r.value, children)
    decreases fuel, 3, |children|
  {
    if |children| == 0 then GrowsRefl(w); Ok(w)
    else
      match UpdateList(w, children[0].0, children[0].1, ignore, down, fuel)
      case Fail(e) => Fail(e)
      case Ok(w1) =>
        match UpdateKeys(w1, children[1..], ignore, down, fuel)
        case Fail(e) => Fail(e)
        case Ok(w2) => KeysFacts(w, w1, w2, children); Ok(w2)
  }

  lemma {:induction false} KeysFacts(w: Web, w1: Web, w2: Web, children: seq<(nat, seq<nat>)>)
    requires Valid(w) && |children| > 0 && ChildrenIn(children, |w.nodes|)
    requires Valid(w1) && Grows(w, w1) && ListRaised(w, w1, children[0].0, children[0].1)
    requires Valid(w2) && Grows(w1, w2) && ChildrenRaised(w1, w2, children[1..])
    ensures Grows(w, w2) && ChildrenRaised(w, w2, children)
  {
    GrowsTrans(w, w1, w2);
    RaisedThenGrown(w, w1, w2, children[0].0, children[0].1);
    forall a | 1 <= a < |children|
      ensures ListRaised(w, w2, children[a].0, children[a].1)
    {
      assert children[1..][a - 1] == children[a];
      GrownThenRaised(w, w1, w2, children[a].0, children[a].1);
    }
  }

  /** One child in `updateLocksOnChildren`: raise its count and, when its
      group is complete and it is not the node to ignore, lock it from the
      group. */
  function UpdateOne(w: Web, key: nat, c: nat, ignore: Option<nat>, down: bool, fuel: nat): (r: Result<Web>)
    requires Valid(w) && c < |w.nodes|
    ensures key >= |w.nodes[c].groupLocks| ==> r == Fail(KeyError)
    ensures r.Ok? ==> Valid(r.value) && Grows(w, r.value) && key < |w.nodes[c].groupLocks|
    ensures r.Ok? ==> r.value.nodes[c].groupLocks[key] > w.nodes[c].groupLocks[key]
    decreases fuel, 2, 0
  {
    if key >= |w.nodes[c].groupLocks| then Fail(KeyError)
    else
      var w1 := IncLock(w, c, key);
      if w1.nodes[c].groupLocks[key] == |w1.nodes[c].groups[key]| && ignore != Some(c) then
        match ParentLock(w1, c, key, down, fuel)
        case Fail(e) => Fail(e)
        case Ok(w2) =>
          GrowsTrans(w, w1, w2);
          assert NodeGrows(w1.nodes[c], w2.nodes[c]);
          Ok(w2)
      else Ok(w1)
  }

  /** `updateLocksOnChildren`, over the children under one key. */
  function UpdateList(w: Web, key: nat, list: seq<nat>, ignore: Option<nat>, down: bool, fuel: nat): (r: Result<Web>)
    requires Valid(w) && forall j | 0 <= j < |list| :: list[j] < |w.nodes|
    ensures r.Ok? ==> Valid(r.value) && Grows(w, r.value) && ListRaised(w, r.value, key, list)
    decreases fuel, 2, |list|
  {
    if |list| == 0 then GrowsRefl(w); Ok(w)
    else
      match UpdateOne(w, key, list[0], ignore, down, fuel)
      case Fail(e) => Fail(e)
      case Ok(w1) =>
        match UpdateList(w1, key, list[1..], ignore, down, fuel)
        case Fail(e) => Fail(e)
        case Ok(w2) => ListFacts(w, w1, w2, key, list); Ok(w2)
  }

  lemma {:induction false} ListFacts(w: Web, w1: Web, w2: Web, key: nat, list: seq<nat>)
    requires Valid(w) && |list| > 0 && forall j | 0 <= j < |list| :: list[j] < |w.nodes|
    requires Valid(w1) && Grows(w, w1)
    requires key < |w.nodes[list[0]].groupLocks| ==> w1.nodes[list[0]].groupLocks[key] > w.nodes[list[0]].groupLocks[key]
    requires Valid(w2) && Grows(w1, w2) && ListRaised(w1, w2, key, list[1..])
    ensures Grows(w, w2) && ListRaised(w, w2, key, list)
  {
    GrowsTrans(w, w1, w2);
    assert NodeGrows(w1.nodes[list[0]], w2.nodes[list[0]]);
    forall j | 1 <= j < |list| && key < |w.nodes[list[j]].groupLocks|
      ensures w2.nodes[list[j]].groupLocks[key] > w.nodes[list[j]].groupLocks[key]
    {
      assert list[1..][j - 1] == list[j];
      assert NodeGrows(w.nodes[list[j]], w1.nodes[list[j]]);
    }
  }

  /** `checkForGroupLocks`: nothing unless the node is locked; otherwise
      each group one parent short locks that parent so that the group sums to
      the node's value. */
  function CheckGroupLocks(w: Web, id: nat, fuel: nat): (r: Result<Web>)
    requires Valid(w) && id < |w.nodes|
    ensures r.Ok? ==> Valid(r.value) && Grows(w, r.value)
    ensures !w.nodes[id].lock ==> r == Ok(w)
    decreases fuel, 3, 0
  {
    if !w.nodes[id].lock then GrowsRefl(w); Ok(w)
    else CheckGroupsFrom(w, id, 0, |w.nodes[id].groups|, None, fuel)
  }

  /** The loop of `checkForGroupLocks` from group `key` on. `unlocked` is the
      parent last found unlocked, which the source keeps from one group to
      the next. */
  function CheckGroupsFrom(w: Web, id: nat, key: nat, count: nat, unlocked: Option<Parent>, fuel: nat): (r: Result<Web>)
    requires Valid(w) && id < |w.nodes| && count == |w.nodes[id].groups|
    requires unlocked.Some? ==> unlocked.value.node < |w.nodes|
    ensures r.Ok? ==> Valid(r.value) && Grows(w, r.value)
    decreases fuel, 2, count - key
  {
    if key >= count then GrowsRefl(w); Ok(w)
    else
      var n := w.nodes[id];
      var g := n.groups[key];
      if |g| - 1 != n.groupLocks[key] then CheckGroupsFrom(w, id, key + 1, count, unlocked, fuel)
      else
        match Scan(w, g, 0.0, unlocked)
        case Fail(e) => Fail(e)
        case Ok((sum, u)) =>
          if u.None? then Fail(UnboundLocal)
          else if n.value.None? then Fail(TypeError)
          else if u.value.multiplier == 0.0 then Fail(DivisionByZero)
          else
            match NodeLock(w, u.value.node, (n.value.value - sum) / u.value.multiplier, Some(id), fuel)
            case Fail(e) => Fail(e)
            case Ok(w1) =>
              match CheckGroupsFrom(w1, id, key + 1, count, u, fuel)
              case Fail(e) => Fail(e)
              case Ok(w2) => GrowsTrans(w, w1, w2); Ok(w2)
  }

  /** The closing loop of `Node.Lock`: every child checks its groups. */
  function CheckKeys(w: Web, children: seq<(nat, seq<nat>)>, fuel: nat): (r: Result<Web>)
    requires Valid(w) && ChildrenIn(children, |w.nodes|)
    ensures r.Ok? ==> Valid(r.value) && Grows(w, r.value)
    decreases fuel, 5, |children|
  {
    if |children| == 0 then GrowsRefl(w); Ok(w)
    else
      match CheckList(w, children[0].1, fuel)
      case Fail(e) => Fail(e)
      case Ok(w1) =>
        match CheckKeys(w1, children[1..], fuel)
        case Fail(e) => Fail(e)
        case Ok(w2) => GrowsTrans(w, w1, w2); Ok(w2)
  }

  function CheckList(w: Web, list: seq<nat>, fuel: nat): (r: Result<Web>)
    requires Valid(w) && forall j | 0 <= j < |list| :: list[j] < |w.nodes|
    ensures r.Ok? ==> Valid(r.value) && Grows(w, r.value)
    decreases fuel, 4, |list|
  {
    if |list| == 0 then GrowsRefl(w); Ok(w)
    else
      match CheckGroupLocks(w, list[0], fuel)
      case Fail(e) => Fail(e)
      case Ok(w1) =>
        match CheckList(w1, list[1..], fuel)
        case Fail(e) => Fail(e)
        case Ok(w2) => GrowsTrans(w, w1, w2); Ok(w2)
  }

  // ---------------------------------------------------------------------
  // Unlocking and the web's commands
  // ---------------------------------------------------------------------

  /** How often `c` is listed under key `k` of a children dictionary. */
  function Occurrences(children: seq<(nat, seq<nat>)>, k: nat, c: nat): nat
  {
    if |children| == 0 then 0
    else (if children[0].0 == k then multiset(children[0].1)[c] else 0) + Occurrences(children[1..], k, c)
  }

  /** `v` differs from `w` at most in the nodes' lock counts. */
  predicate OnlyCounts(w: Web, v: Web)
  {
    && |v.nodes| == |w.nodes| && v.nextId == w.nextId && v.locks == w.locks && v.errors == w.errors
    && (forall i | 0 <= i < |w.nodes| ::
          SameShape(w.nodes[i], v.nodes[i]) && v.nodes[i].lock == w.nodes[i].lock && v.nodes[i].value == w.nodes[i].value)
  }

  /** `v` is `w` with the count for `key` of each listed child lowered once
      per listing. */
  predicate LoweredBy(w: Web, v: Web, key: nat, list: seq<nat>)
    requires |v.nodes| == |w.nodes| && forall i | 0 <= i < |w.nodes| :: |v.nodes[i].groupLocks| == |w.nodes[i].groupLocks|
  {
    forall c, k | 0 <= c < |w.nodes| && 0 <= k < |w.nodes[c].groupLocks| ::
      v.nodes[c].groupLocks[k] == w.nodes[c].groupLocks[k] - (if k == key then multiset(list)[c] else 0)
  }

  /** `child.parent_group_locks[key] -= 1` for each listed child. */
  function DecList(w: Web, key: nat, list: seq<nat>): (r: Result<Web>)
    requires Valid(w) && forall j | 0 <= j < |list| :: list[j] < |w.nodes|
    ensures r.Ok? <==> HasKey(w, key, list)
    ensures r.Fail? ==> r.error == KeyError
    ensures r.Ok? ==> Valid(r.value) && OnlyCounts(w, r.value) && LoweredBy(w, r.value, key, list)
    decreases |list|
  {
    if |list| == 0 then Ok(w)
    else if key >= |w.nodes[list[0]].groupLocks| then Fail(KeyError)
    else
      var c := list[0];
      var n := w.nodes[c];
      var w1 := SetNode(w, c, n.(groupLocks := n.groupLocks[key := n.groupLocks[key] - 1]));
      assert OnlyCounts(w, w1) && LoweredBy(w, w1, key, [c]);
      var r := DecList(w1, key, list[1..]);
      HasKeyStep(w, w1, key, list);
      if r.Ok? then DecStep(w, w1, r.value, key, list); r else r
  }

  /** Every listed child has a group under `key`. */
  predicate HasKey(w: Web, key: nat, list: seq<nat>)
    requires forall j | 0 <= j < |list| :: list[j] < |w.nodes|
  {
    forall j | 0 <= j < |list| :: key < |w.nodes[list[j]].groupLocks|
  }

  lemma {:induction false} HasKeyStep(w: Web, w1: Web, key: nat, list: seq<nat>)
    requires |list| > 0 && forall j | 0 <= j < |list| :: list[j] < |w.nodes|
    requires OnlyCounts(w, w1) && key < |w.nodes[list[0]].groupLocks|
    ensures HasKey(w, key, list) == HasKey(w1, key, list[1..])
  {
    if HasKey(w1, key, list[1..]) {
      forall j | 1 <= j < |list|
        ensures key < |w.nodes[list[j]].groupLocks|
      {
        assert list[1..][j - 1] == list[j];
        assert SameShape(w.nodes[list[j]], w1.nodes[list[j]]);
      }
    }
    if HasKey(w, key, list) {
      forall j | 0 <= j < |list[1..]|
        ensures key < |w1.nodes[list[1..][j]].groupLocks|
      {
        assert list[1..][j] == list[j + 1];
        assert SameShape(w.nodes[list[j + 1]], w1.nodes[list[j + 1]]);
      }
    }
  }

  lemma {:induction false} DecStep(w: Web, w1: Web, w2: Web, key: nat, list: seq<nat>)
    requires |list| > 0 && OnlyCounts(w, w1) && OnlyCounts(w1, w2)
    requires LoweredBy(w, w1, key, [list[0]]) && LoweredBy(w1, w2, key, list[1..])
    ensures OnlyCounts(w, w2) && LoweredBy(w, w2, key, list)
  {
    assert list == [list[0]] + list[1..];
    assert multiset(list) == multiset([list[0]]) + multiset(list[1..]);
    forall i | 0 <= i < |w.nodes|
      ensures SameShape(w.nodes[i], w2.nodes[i])
    {
      assert SameShape(w.nodes[i], w1.nodes[i]) && SameShape(w1.nodes[i], w2.nodes[i]);
    }
  }

  /** The decrement loop of `Node.Unlock` over every key. */
  function DecKeys(w: Web, children: seq<(nat, seq<nat>)>): (r: Result<Web>)
    requires Valid(w) && ChildrenIn(children, |w.nodes|)
    ensures r.Fail? ==> r.error == KeyError
    ensures r.Ok? ==> Valid(r.value) && OnlyCounts(w, r.value)
    ensures r.Ok? ==> forall c, k | 0 <= c < |w.nodes| && 0 <= k < |w.nodes[c].groupLocks| ::
      r.value.nodes[c].groupLocks[k] == w.nodes[c].groupLocks[k] - Occurrences(children, k, c)
    decreases |children|
  {
    if |children| == 0 then Ok(w)
    else
      match DecList(w, children[0].0, children[0].1)
      case Fail(e) => Fail(e)
      case Ok(w1) =>
        assert ChildrenIn(children[1..], |w.nodes|) by {
          assert forall a | 0 <= a < |children[1..]| :: children[1..][a] == children[a + 1];
        }
        DecKeys(w1, children[1..])
  }

  /** `Node.Unlock`: a locked node is unlocked, its value reset to 0, and
      each of its children's counts lowered once per listing. */
  function NodeUnlock(w: Web, id: nat): (r: Result<Web>)
    requires Valid(w) && id < |w.nodes|
    ensures !w.nodes[id].lock ==> r == Ok(w)
    ensures r.Fail? ==> r.error == KeyError
    ensures r.Ok? ==> Valid(r.value) && |r.value.nodes| == |w.nodes| && !r.value.nodes[id].lock
    ensures r.Ok? ==> r.value.locks == w.locks && r.value.errors == w.errors && r.value.nextId == w.nextId
    ensures r.Ok? ==> forall i | 0 <= i < |w.nodes| :: SameShape(w.nodes[i], r.value.nodes[i])
    ensures r.Ok? ==> forall i | 0 <= i < |w.nodes| && i != id ::
      r.value.nodes[i].lock == w.nodes[i].lock && r.value.nodes[i].value == w.nodes[i].value
    ensures r.Ok? ==> forall i | 0 <= i < |w.nodes| :: |r.value.nodes[i].groupLocks| == |w.nodes[i].groupLocks|
    ensures r.Ok? && w.nodes[id].lock ==>
      && r.value.nodes[id].value == Some(0.0)
      && forall c, k | 0 <= c < |w.nodes| && 0 <= k < |w.nodes[c].groupLocks| ::
           r.value.nodes[c].groupLocks[k] == w.nodes[c].groupLocks[k] - Occurrences(w.nodes[id].children, k, c)
  {
    var n := w.nodes[id];
    if !n.lock then Ok(w)
    else DecKeys(SetNode(w, id, n.(lock := false, value := Some(0.0))), n.children)
  }

  /** `v` is `w` with the listed nodes unlocked and every other lock flag
      and value kept. */
  predicate UnlockedList(w: Web, v: Web, list: seq<nat>)
  {
    && |v.nodes| == |w.nodes| && v.nextId == w.nextId
    && (forall i | 0 <= i < |w.nodes| ::
          && SameShape(w.nodes[i], v.nodes[i])
          && v.nodes[i].lock == (w.nodes[i].lock && i !in list)
          && (i !in list ==> v.nodes[i].value == w.nodes[i].value))
  }

  /** The loop of `RollBack`: unlock each listed node in turn. */
  function UnlockAll(w: Web, list: seq<nat>): (r: Result<Web>)
    requires Valid(w) && forall j | 0 <= j < |list| :: list[j] < |w.nodes|
    ensures r.Fail? ==> r.error == KeyError
    ensures r.Ok? ==> Valid(r.value) && r.value.locks == w.locks && r.value.errors == w.errors
    ensures r.Ok? ==> UnlockedList(w, r.value, list)
    decreases |list|
  {
    if |list| == 0 then Ok(w)
    else
      match NodeUnlock(w, list[0])
      case Fail(e) => Fail(e)
      case Ok(w1) =>
        match UnlockAll(w1, list[1..])
        case Fail(e) => Fail(e)
        case Ok(w2) => UnlockStep(w, w1, w2, list); Ok(w2)
  }

  lemma {:induction false} UnlockStep(w: Web, w1: Web, w2: Web, list: seq<nat>)
    requires Valid(w) && |list| > 0 && list[0] < |w.nodes|
    requires UnlockedList(w, w1, [list[0]]) && UnlockedList(w1, w2, list[1..])
    ensures UnlockedList(w, w2, list)
  {
    forall i | 0 <= i < |w.nodes|
      ensures i in list <==> i == list[0] || i in list[1..]
    {
      assert list == [list[0]] + list[1..];
    }
  }

  /** A successful `NodeUnlock` unlocks the one node. */
  lemma {:induction false} NodeUnlockList(w: Web, id: nat)
    requires Valid(w) && id < |w.nodes| && NodeUnlock(w, id).Ok?
    ensures UnlockedList(w, NodeUnlock(w, id).value, [id])
  {
  }

  /** `Web.RollBack`: clear the double locks, unlock the nodes of the last
      record and its commanded node, drop the record and return that node;
      with no record the final `pop` fails. */
  function RollBack(w: Web): (r: Result<(Web, nat)>)
    requires Valid(w)
    ensures |w.locks| == 0 ==> r == Fail(IndexError)
    ensures r.Fail? && |w.locks| > 0 ==> r.error == KeyError
    ensures r.Ok? ==> var (v, c) := r.value;
      && |w.locks| > 0 && c == w.locks[|w.locks| - 1].commanded
      && Valid(v) && v.locks == w.locks[..|w.locks| - 1] && v.errors == []
      && UnlockedList(w, v, Current(w) + [c])
  {
    if |w.locks| == 0 then Fail(IndexError)
    else
      var last := w.locks[|w.locks| - 1];
      match UnlockAll(w.(errors := []), last.locked)
      case Fail(e) => Fail(e)
      case Ok(w1) =>
        match NodeUnlock(w1, last.commanded)
        case Fail(e) => Fail(e)
        case Ok(w2) =>
          NodeUnlockList(w1, last.commanded);
          UnlockConcat(w, w1, w2, last.locked, last.commanded);
          var v := w2.(locks := w.locks[..|w.locks| - 1]);
          assert Valid(v) by {
            assert forall r | 0 <= r < |v.locks| :: v.locks[r] == w.locks[r];
          }
          Ok((v, last.commanded))
  }

  lemma {:induction false} UnlockConcat(w: Web, w1: Web, w2: Web, list: seq<nat>, c: nat)
    requires UnlockedList(w, w1, list) && UnlockedList(w1, w2, [c])
    ensures UnlockedList(w, w2, list + [c])
  {
    forall i | 0 <= i < |w.nodes|
      ensures i in list + [c] <==> i in list || i == c
    {
    }
  }

  /** The web with a new, empty lock record for `id`. */
  function Push(w: Web, id: nat): (r: Web)
    requires Valid(w) && id < |w.nodes|
    ensures Valid(r) && Current(r) == []
  {
    w.(locks := w.locks + [Record(id, [])])
  }

  /** `Web.Lock(node, value)`: refused for a locked node; otherwise a new
      record is opened and the node locked, with the full cascade. */
  function Lock(w: Web, id: nat, value: real, fuel: nat): (r: Result<Web>)
    requires Valid(w) && id < |w.nodes|
    ensures w.nodes[id].lock ==> r == Fail(LockedError)
    ensures r.Ok? ==> !w.nodes[id].lock && LockedFrom(Push(w, id), r.value, id, value)
    ensures r.Ok? ==> |r.value.locks| == |w.locks| + 1 && r.value.locks[..|w.locks|] == w.locks
    ensures r.Ok? ==> r.value.locks[|w.locks|].commanded == id
  {
    if w.nodes[id].lock then Fail(LockedError)
    else NodeLock(Push(w, id), id, value, None, fuel)
  }

  /** `Web.LockDown(node, value)`: as `Lock`, with the downward cascade. */
  function LockDown(w: Web, id: nat, value: real, fuel: nat): (r: Result<Web>)
    requires Valid(w) && id < |w.nodes|
    ensures w.nodes[id].lock ==> r == Fail(LockedError)
    ensures r.Ok? ==> !w.nodes[id].lock && LockedFrom(Push(w, id), r.value, id, value)
    ensures r.Ok? ==> |r.value.locks| == |w.locks| + 1 && r.value.locks[..|w.locks|] == w.locks
    ensures r.Ok? ==> r.value.locks[|w.locks|].commanded == id
  {
    if w.nodes[id].lock then Fail(LockedError)
    else NodeLockDown(Push(w, id), id, value, fuel)
  }

  /** Every node a list of records names, commanded or locked. */
  function AllRecorded(locks: seq<Record>): seq<nat>
  {
    if |locks| == 0 then []
    else AllRecorded(locks[..|locks| - 1]) + locks[|locks| - 1].locked + [locks[|locks| - 1].commanded]
  }

  lemma {:induction false} AllRecordedLast(locks: seq<Record>)
    requires |locks| > 0
    ensures AllRecorded(locks) == AllRecorded(locks[..|locks| - 1]) + (locks[|locks| - 1].locked + [locks[|locks| - 1].commanded])
  {
  }

  lemma {:induction false} UnlockedTrans(w: Web, v: Web, u: Web, a: seq<nat>, b: seq<nat>)
    requires UnlockedList(w, v, a) && UnlockedList(v, u, b)
    ensures UnlockedList(w, u, b + a)
  {
    forall i | 0 <= i < |w.nodes|
      ensures SameShape(w.nodes[i], u.nodes[i])
      ensures i in b + a <==> i in a || i in b
    {
      assert SameShape(w.nodes[i], v.nodes[i]) && SameShape(v.nodes[i], u.nodes[i]);
    }
  }

  /** `Web.Unlock`: roll back until no record is left, which unlocks every
      node any record names. */
  function Unlock(w: Web): (r: Result<Web>)
    requires Valid(w)
    ensures r.Fail? ==> r.error == KeyError
    ensures |w.locks| == 0 ==> r == Ok(w)
    ensures r.Ok? ==> Valid(r.value) && r.value.locks == [] && (|w.locks| > 0 ==> r.value.errors == [])
    ensures r.Ok? ==> UnlockedList(w, r.value, AllRecorded(w.locks))
    decreases |w.locks|
  {
    if |w.locks| == 0 then
      assert UnlockedList(w, w, []);
      Ok(w)
    else
      match RollBack(w)
      case Fail(e) => Fail(e)
      case Ok((v, c)) =>
        match Unlock(v)
        case Fail(e) => Fail(e)
        case Ok(u) =>
          UnlockedTrans(w, v, u, Current(w) + [c], AllRecorded(v.locks));
          AllRecordedLast(w.locks);
          Ok(u)
  }

  /** Rolling back a `Lock` restores which nodes are locked, the values of
      the nodes that were locked, and the records; the commanded node is
      returned. */
  lemma {:induction false} LockRollBack(w: Web, id: nat, value: real, fuel: nat)
    requires Valid(w) && id < |w.nodes| && Lock(w, id, value, fuel).Ok?
    requires RollBack(Lock(w, id, value, fuel).value).Ok?
    ensures var (u, c) := RollBack(Lock(w, id, value, fuel).value).value;
      && c == id && u.locks == w.locks && u.errors == [] && |u.nodes| == |w.nodes|
      && (forall i | 0 <= i < |w.nodes| :: u.nodes[i].lock == w.nodes[i].lock)
      && (forall i | 0 <= i < |w.nodes| && w.nodes[i].lock :: u.nodes[i].value == w.nodes[i].value)
  {
    var p := Push(w, id);
    var v := Lock(w, id, value, fuel).value;
    var (u, c) := RollBack(v).value;
    assert Grows(p, v);
    assert v.locks[..|w.locks|] == w.locks;
    forall i | 0 <= i < |w.nodes|
      ensures u.nodes[i].lock == w.nodes[i].lock
      ensures w.nodes[i].lock ==> u.nodes[i].value == w.nodes[i].value
    {
      assert NodeGrows(p.nodes[i], v.nodes[i]);
      if w.nodes[i].lock {
        assert i !in Current(v);
      } else if v.nodes[i].lock {
        assert i in Current(v)[|Current(p)|..];
      }
    }
  }
}
