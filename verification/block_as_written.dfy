/** The operations of `kirky/block.py` as the code is written, next to the
    corrected lattice of `BlockLattice`. Four lines fail on every input
    that reaches them:

    - `Edge.__hash__` returns a tuple, and Python's `hash` accepts only an
      integer, so adding an edge to a set or testing a set for one raises
      `TypeError`;
    - `copy_and_add` calls `.add` on a list, which raises `AttributeError`;
    - `populate_interior` looks a list up in the vertex dictionary, which
      raises `TypeError`;
    - the block's shape is a generator, and `double` subscripts it, which
      raises `TypeError`.

    The hash is a parameter of the members below, so that each defect can
    be shown with the earlier ones repaired. */
module BlockAsWritten {
  import opened Wrappers
  import opened BlockLattice

  /** What an object's `__hash__` returned. */
  datatype HashResult = IntHash(value: int) | TupleHash(items: seq<int>)

  /** Python's `hash(x)`: the integer `__hash__` returned; anything else
      raises `TypeError`. */
  function Hash(h: HashResult): (r: Result<int>)
    ensures r.Ok? <==> h.IntHash?
    ensures r.Fail? ==> r.error == TypeError
    ensures r.Ok? ==> r.value == h.value
  {
    match h
    case IntHash(n) => Ok(n)
    case TupleHash(_) => Fail(TypeError)
  }

  /** `Edge.__hash__` as written (block.py:11-12): the tuple of the tail's
      and the head's coordinates. */
  function EdgeHash(e: Edge): HashResult
  {
    TupleHash(e.tail + e.head)
  }

  /** `Edge.__hash__` as evidently intended: an integer derived from the
      coordinates. `Edge` defines no `__eq__`, so which integer it is
      changes nothing below. */
  function IntendedHash(e: Edge): HashResult
  {
    IntHash(|e.tail| + |e.head|)
  }

  /** No edge can be hashed as written. */
  lemma {:induction false} EdgeUnhashable(e: Edge)
    ensures Hash(EdgeHash(e)) == Fail(TypeError)
    ensures Hash(IntendedHash(e)).Ok?
  {
  }

  /** `s.add(e)` for a newly built `Edge`: the edge is hashed first. With
      no `__eq__`, equality is identity, so a new object is never already
      in the set and is always added. */
  function SetAdd(s: seq<Edge>, e: Edge, hash: Edge -> HashResult): (r: Result<seq<Edge>>)
    ensures r.Fail? <==> !hash(e).IntHash?
    ensures r.Fail? ==> r.error == TypeError
    ensures r.Ok? ==> r.value == s + [e]
  {
    match Hash(hash(e))
    case Fail(err) => Fail(err)
    case Ok(_) => Ok(s + [e])
  }

  // ---------------------------------------------------------------------
  // seed_frame
  // ---------------------------------------------------------------------

  /** Every seed edge along the axes `0 .. dimensions - 1` can be hashed. */
  predicate Hashable(dimensions: nat, hash: Edge -> HashResult)
  {
    forall k | 0 <= k < dimensions :: hash(SeedEdge(dimensions, k)).IntHash?
  }

  /** No seed edge hashes as written; all of them do with the repair. */
  lemma {:induction false} SeedHashes(dimensions: nat)
    ensures 0 < dimensions ==> !Hashable(dimensions, EdgeHash) && !EdgeHash(SeedEdge(dimensions, 0)).IntHash?
    ensures Hashable(dimensions, IntendedHash)
  {
    if 0 < dimensions {
      assert !EdgeHash(SeedEdge(dimensions, 0)).IntHash?;
    }
  }

  /** The first loop of `seed_frame` as written (block.py:43-49): the unit
      edge along each axis is registered with its vertices, then added to
      the frame set. It succeeds exactly when every axis has a cut slot and
      every seed edge hashes, and then adds the seed edges in axis order,
      as BlockLattice.SeedEdges does; when the first seed edge cannot be
      hashed it raises `TypeError`. */
  method SeedRoundsAsWritten(b: Block, hash: Edge -> HashResult) returns (r: Result<Block>)
    requires Named(b)
    ensures r.Ok? <==> b.dimensions <= b.numVectors && Hashable(b.dimensions, hash)
    ensures r.Fail? ==> r.error == IndexError || r.error == TypeError
    ensures r.Ok? ==> Named(r.value) && r.value.dimensions == b.dimensions && r.value.numVectors == b.numVectors
    ensures r.Ok? ==> r.value.frame == b.frame + SeedRun(b.dimensions, b.dimensions)
    ensures 0 < b.dimensions <= b.numVectors && !hash(SeedEdge(b.dimensions, 0)).IntHash? ==> r == Fail(TypeError)
  {
    var cur := b;
    var i := 0;
    assert b.frame + SeedRun(b.dimensions, 0) == b.frame;
    while i < b.dimensions
      invariant i <= b.dimensions && (i == 0 || i <= b.numVectors)
      invariant Named(cur) && cur.dimensions == b.dimensions && cur.numVectors == b.numVectors
      invariant cur.frame == b.frame + SeedRun(b.dimensions, i)
      invariant forall k | 0 <= k < i :: hash(SeedEdge(b.dimensions, k)).IntHash?
    {
      var e := SeedEdge(b.dimensions, i);
      var registered := UpdateVertices(cur, e);
      if registered.Fail? {
        return Fail(registered.error);
      }
      var added := SetAdd(registered.value.frame, e, hash);
      if added.Fail? {
        return Fail(added.error);
      }
      SeedRunStep(b.dimensions, i);
      Assoc(b.frame, SeedRun(b.dimensions, i), [e]);
      assert added.value == cur.frame + [e];
      cur := registered.value.(frame := added.value);
      i := i + 1;
    }
    return Ok(cur);
  }

  /** The passes of the second loop of `seed_frame` as written
      (block.py:51-53) from axis `i`, pass `j`: `shape[i]` calls of
      `copy_and_add(self.frame, i, 1)` for each axis `i`. */
  function ShapePassesAsWritten(b: Block, shape: seq<int>, i: nat, j: nat, hash: Edge -> HashResult): (r: Result<Block>)
    requires i <= b.dimensions
    ensures r.Ok? ==> r.value.dimensions == b.dimensions
    decreases b.dimensions - i, if i < |shape| && j < shape[i] then shape[i] - j else 0
  {
    if i == b.dimensions then Ok(b)
    else if i >= |shape| then Fail(IndexError)
    else if j >= shape[i] then ShapePassesAsWritten(b, shape, i + 1, 0, hash)
    else
      match CopyAndAddAsWritten(b, i, 1, hash)
      case Fail(err) => Fail(err)
      case Ok(b1) => ShapePassesAsWritten(b1, shape, i, j + 1, hash)
  }

  /** `seed_frame(shape)` as written (block.py:39-53). Seeding a lattice
      that has an axis fails as written: the first seed edge is registered,
      and adding it to the frame set raises `TypeError`. BlockLattice.SeedFrame,
      with a hash that works, succeeds on the same blocks whenever the shape
      covers every axis. */
  method SeedFrameAsWritten(b: Block, shape: seq<int>, hash: Edge -> HashResult) returns (r: Result<Block>)
    requires Named(b)
    ensures 0 < b.dimensions <= b.numVectors && !hash(SeedEdge(b.dimensions, 0)).IntHash? ==> r == Fail(TypeError)
    ensures r.Ok? ==> b.dimensions <= b.numVectors && Hashable(b.dimensions, hash)
  {
    var seeded := SeedRoundsAsWritten(b, hash);
    if seeded.Fail? {
      return Fail(seeded.error);
    }
    r := ShapePassesAsWritten(seeded.value, shape, 0, 0, hash);
  }

  // ---------------------------------------------------------------------
  // copy_and_add
  // ---------------------------------------------------------------------

  /** `copy_and_add(self.frame, dimension, distance)` as written
      (block.py:72-94). For the first edge of the set, both coordinate lists
      are taken from the tail (:76) and moved (:80, :82). `new_edge in edges`
      (:87) hashes the copy, and a new object is found by identity in no
      set. So `new_edges.add` (:90) runs, on a list, which has no `add`.
      An empty frame is left as it is. */
  function CopyAndAddAsWritten(b: Block, dimension: nat, distance: int, hash: Edge -> HashResult): (r: Result<Block>)
    ensures r.Ok? <==> |b.frame| == 0
    ensures r.Ok? ==> r.value == b
  {
    if |b.frame| == 0 then Ok(b)
    else
      var e := b.frame[0];
      if dimension >= |e.tail| then Fail(IndexError)
      else
        var c := CopyAsWritten(e, dimension, distance);
        match Hash(hash(c))
        case Fail(err) => Fail(err)
        case Ok(_) => Fail(AttributeError)
  }

  /** As written, a pass over a frame of a valid block raises `TypeError`
      at the membership test; with the hash repaired it raises
      `AttributeError` at `.add`. BlockLattice.CopyAndAdd succeeds on the
      same blocks. */
  lemma {:induction false} CopyAndAddAsWrittenFails(b: Block, dimension: nat, distance: int)
    requires Valid(b) && |b.frame| > 0 && dimension < b.dimensions
    ensures CopyAndAddAsWritten(b, dimension, distance, EdgeHash) == Fail(TypeError)
    ensures CopyAndAddAsWritten(b, dimension, distance, IntendedHash) == Fail(AttributeError)
  {
    assert Registered(b, b.frame[0]);
  }

  /** With the hash and `.add` repaired, `new_edge in edges` still compares
      by identity and never finds a copy: every copy of `src[..n]` is
      added, duplicates included. */
  function MissingByIdentity(src: seq<Edge>, n: nat, dimension: nat, distance: int): (r: seq<Edge>)
    requires n <= |src| && Fits(src, dimension)
    ensures |r| == n && forall k | 0 <= k < n :: r[k] == Copy(src[k], dimension, distance)
  {
    if n == 0 then [] else MissingByIdentity(src, n - 1, dimension, distance) + [Copy(src[n - 1], dimension, distance)]
  }

  /** A pass by distance 0 shows the difference: the structural dedupe of
      BlockLattice.Missing adds nothing, while the identity test adds a
      second copy of every edge. */
  lemma {:induction false} IdentityDuplicates(src: seq<Edge>, dimension: nat)
    requires Fits(src, dimension) && |src| > 0
    ensures Missing(src, |src|, dimension, 0) == []
    ensures |MissingByIdentity(src, |src|, dimension, 0)| == |src|
    ensures forall k | 0 <= k < |src| :: MissingByIdentity(src, |src|, dimension, 0)[k] == src[k]
  {
    MissingZero(src, |src|, dimension);
    forall k | 0 <= k < |src|
      ensures MissingByIdentity(src, |src|, dimension, 0)[k] == src[k]
    {
      CopyZero(src[k], dimension);
    }
  }

  // ---------------------------------------------------------------------
  // populate_interior
  // ---------------------------------------------------------------------

  /** `populate_interior(edge, id)` as written (block.py:55-70), with the
      dictionary iterated in `order`: the displacement is read from the
      example, then for the first position `needed_position` is built as a
      list, which raises `IndexError` when that position is shorter than the
      block's dimension count (:62), and otherwise `needed_position in
      self.vertices` (:63) hashes a list, which raises `TypeError`. A block
      without vertices is left as it is. */
  function PopulateInteriorAsWritten(b: Block, example: Edge, order: seq<Position>): (r: Result<Block>)
    requires Enumerates(b, order)
    ensures r.Fail? ==> r.error == IndexError || r.error == TypeError
  {
    if b.dimensions > 0 && (|example.head| < b.dimensions || |example.tail| < b.dimensions) then Fail(IndexError)
    else if |order| == 0 then Ok(b)
    else if |order[0]| < b.dimensions then Fail(IndexError)
    else Fail(TypeError)
  }

  /** As written, populating the interior of any block with a vertex, each
      keyed by a position of the block's dimension count, fails with
      `TypeError`, while BlockLattice.PopulateInterior succeeds on it for any
      vector of the block. */
  lemma {:induction false} PopulateInteriorAsWrittenFails(b: Block, example: Edge, order: seq<Position>)
    requires Enumerates(b, order) && Named(b) && |b.vertices| > 0
    requires |example.head| >= b.dimensions && |example.tail| >= b.dimensions
    ensures PopulateInteriorAsWritten(b, example, order) == Fail(TypeError)
  {
    var p :| p in b.vertices;
    assert p in order;
    assert order[0] in b.vertices;
  }

  // ---------------------------------------------------------------------
  // The shape
  // ---------------------------------------------------------------------

  /** What `self.shape` holds: `(0 for i in range(dimensions))`
      (block.py:34) is a generator; a list is what `double` needs. */
  datatype ShapeValue = ZerosGenerator(length: nat) | SideList(sides: seq<int>)

  /** The shape of `Block(dimensions, num_vectors)` as written. */
  function NewShapeAsWritten(dimensions: nat): ShapeValue
  {
    ZerosGenerator(dimensions)
  }

  /** Python's `shape[i]`: a generator is not subscriptable; a list takes
      the indices `-len .. len - 1`, counting negative ones from the end. */
  function Subscript(s: ShapeValue, i: int): (r: Result<int>)
    ensures s.ZerosGenerator? ==> r == Fail(TypeError)
    ensures s.SideList? ==> (r.Ok? <==> -|s.sides| <= i < |s.sides|)
    ensures s.SideList? && r.Fail? ==> r.error == IndexError
    ensures s.SideList? && 0 <= i < |s.sides| ==> r == Ok(s.sides[i])
  {
    match s
    case ZerosGenerator(_) => Fail(TypeError)
    case SideList(sides) =>
      if 0 <= i < |sides| then Ok(sides[i])
      else if -|sides| <= i < 0 then Ok(sides[|sides| + i])
      else Fail(IndexError)
  }

  /** No side of a new block can be read as written; as a list of zeros,
      the shape of BlockLattice.NewBlock, every side reads 0. */
  lemma {:induction false} NewShapeUnreadable(dimensions: nat, numVectors: nat, i: int)
    ensures Subscript(NewShapeAsWritten(dimensions), i) == Fail(TypeError)
    ensures 0 <= i < dimensions ==> Subscript(SideList(NewBlock(dimensions, numVectors).shape), i) == Ok(0)
  {
  }

  /** `double(dimension)` as written (block.py:118-131): its first line
      reads `self.shape[dimension]`, and nothing ever replaces the generator
      of block.py:34 by a list. With a list of the block's sides it is
      BlockLattice.Double. */
  method DoubleAsWritten(b: Block, shape: ShapeValue, dimension: nat) returns (r: Result<Block>)
    requires Valid(b) && (shape.SideList? ==> shape.sides == b.shape)
    ensures shape.ZerosGenerator? ==> r == Fail(TypeError)
    ensures shape.SideList? ==> (r.Ok? <==> dimension < b.dimensions)
    ensures shape.SideList? && r.Ok? ==> r.value.shape == b.shape[dimension := 2 * b.shape[dimension]]
  {
    var side := Subscript(shape, dimension);
    if side.Fail? {
      return Fail(side.error);
    }
    r := Double(b, dimension);
  }
}
