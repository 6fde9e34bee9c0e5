/** The spatial hash grid of `src/spatial_hash_grid.h` and
    `src/spatial_hash_grid.cpp`: a map from an integer cell key to the
    sequence of particle handles stored in that cell. */
module SpatialHashGrid {
  import opened Wrappers
  import opened Utils

  /** `HASH_PRIME`, the multiplier of the y cell index in a key. */
  const HASH_PRIME: nat := 1168639

  /** `PARTICLE_NOT_FOUND_ERROR_MESSAGE`. */
  const PARTICLE_NOT_FOUND_ERROR_MESSAGE: string := "Particle not found in grid"

  /** A particle handle. The source stores pointers into a `std::deque`,
      whose elements never move on `emplace_back`; the model names a
      particle by its index in the sandbox's particle sequence. */
  type ParticleId = nat

  /** The `std::runtime_error` thrown by `remove`. */
  datatype GridError = RuntimeError(message: string)

  datatype Grid = Grid(cells: map<nat, seq<ParticleId>>, cellSize: nat)

  /** `static_cast<size_t>` of a float: truncation toward zero. The cast is
      defined exactly when the truncated value is representable, that is
      for every `x > -1`; a coordinate in `(-1, 0)` truncates to 0. */
  function Trunc(x: real): (n: nat)
    requires x > -1.0
    ensures x >= 0.0 ==> n as real <= x < n as real + 1.0
    ensures x < 0.0 ==> n == 0
  {
    if x < 0.0 then 0 else x.Floor
  }

  /** Both coordinates survive the cast in `hash`. */
  predicate Hashable(v: Vec2) {
    v.x > -1.0 && v.y > -1.0
  }

  /** `SpatialHashGrid::hash`: x cell index plus y cell index times the prime. */
  function Key(cellSize: nat, position: Vec2): nat
    requires cellSize > 0 && Hashable(position)
  {
    Trunc(position.x) / cellSize + Trunc(position.y) / cellSize * HASH_PRIME
  }

  /** The cell indices a position falls in. */
  function CellX(cellSize: nat, position: Vec2): nat
    requires cellSize > 0 && Hashable(position)
  {
    Trunc(position.x) / cellSize
  }

  function CellY(cellSize: nat, position: Vec2): nat
    requires cellSize > 0 && Hashable(position)
  {
    Trunc(position.y) / cellSize
  }

  /** The grid key is the tuple hash of the cell indices, with the same prime. */
  lemma KeyIsTupleHash(cellSize: nat, position: Vec2)
    requires cellSize > 0 && Hashable(position)
    ensures Key(cellSize, position)
         == TupleHash(CellX(cellSize, position), CellY(cellSize, position))
  {
  }

  /** A coordinate in `(-1, 0)` falls into cell 0 of its axis, like one in
      `[0, cellSize)`. */
  lemma NegativeFractionInCellZero(cellSize: nat, position: Vec2)
    requires cellSize > 0 && Hashable(position)
    requires position.x < 0.0
    ensures CellX(cellSize, position) == 0
    ensures Key(cellSize, position) == Key(cellSize, Vec2(0.0, position.y))
  {
  }

  /** Two positions in the same cell share a key, whatever the cell indices. */
  lemma SameCellSameKey(cellSize: nat, p: Vec2, q: Vec2)
    requires cellSize > 0 && Hashable(p) && Hashable(q)
    requires CellX(cellSize, p) == CellX(cellSize, q) && CellY(cellSize, p) == CellY(cellSize, q)
    ensures Key(cellSize, p) == Key(cellSize, q)
  {
  }

  /** While the x cell index stays below the prime, positions get the same
      key exactly when they are in the same cell. */
  lemma {:induction false} KeyIdentifiesCell(cellSize: nat, p: Vec2, q: Vec2)
    requires cellSize > 0 && Hashable(p) && Hashable(q)
    requires CellX(cellSize, p) < HASH_PRIME && CellX(cellSize, q) < HASH_PRIME
    ensures Key(cellSize, p) == Key(cellSize, q)
        <==> CellX(cellSize, p) == CellX(cellSize, q) && CellY(cellSize, p) == CellY(cellSize, q)
  {
    KeyIsTupleHash(cellSize, p);
    KeyIsTupleHash(cellSize, q);
    TupleHashInjective(CellX(cellSize, p), CellY(cellSize, p), CellX(cellSize, q), CellY(cellSize, q));
  }

  /** Past the prime the key aliases: with cells of size 10, the cell at
      x index `HASH_PRIME` on row 0 shares its key with the cell at x index 0
      on row 1. */
  lemma KeyAliasesPastPrime()
    ensures Key(10, Vec2(11686390.0, 0.0)) == Key(10, Vec2(0.0, 10.0))
  {
    assert Trunc(11686390.0) == 11686390;
    assert Trunc(10.0) == 10;
    assert Trunc(0.0) == 0;
  }

  /** The cell stored under a key; `operator[]` reads a missing key as an
      empty cell. */
  function CellAt(g: Grid, key: nat): seq<ParticleId> {
    if key in g.cells then g.cells[key] else []
  }

  /** `SpatialHashGrid(cell_size)`: a grid with no entries. */
  function EmptyGrid(cellSize: nat): (g: Grid)
    ensures g.cellSize == cellSize
    ensures forall key :: CellAt(g, key) == []
  {
    Grid(map[], cellSize)
  }

  /** `SpatialHashGrid::insert`: append the handle to the end of the cell of
      the position; every other cell is left as it was. */
  function Insert(g: Grid, id: ParticleId, position: Vec2): (r: Grid)
    requires g.cellSize > 0 && Hashable(position)
    ensures r.cellSize == g.cellSize
    ensures CellAt(r, Key(g.cellSize, position)) == CellAt(g, Key(g.cellSize, position)) + [id]
    ensures forall key :: key != Key(g.cellSize, position) ==> CellAt(r, key) == CellAt(g, key)
  {
    var key := Key(g.cellSize, position);
    g.(cells := g.cells[key := CellAt(g, key) + [id]])
  }

  /** The index of the first occurrence of `x` in `s`, if any; the scan of
      the cell in `remove`. */
  function FirstIndex(s: seq<ParticleId>, x: ParticleId): (r: Option<nat>)
    ensures r.None? <==> x !in s
    ensures r.Some? ==> r.value < |s| && s[r.value] == x
    ensures r.Some? ==> forall j :: 0 <= j < r.value ==> s[j] != x
  {
    if |s| == 0 then None
    else if s[0] == x then Some(0)
    else
      match FirstIndex(s[1..], x)
      case None => None
      case Some(i) => Some(i + 1)
  }

  /** `s` with its first occurrence of `x` erased; the other entries keep
      their relative order. */
  function EraseFirst(s: seq<ParticleId>, x: ParticleId): (r: seq<ParticleId>)
    requires x in s
    ensures |r| == |s| - 1
    ensures multiset(r) == multiset(s) - multiset{x}
    ensures exists i :: 0 <= i < |s| && s[i] == x && x !in s[..i] && r == s[..i] + s[i + 1..]
  {
    var i := FirstIndex(s, x).value;
    assert s == s[..i] + [s[i]] + s[i + 1..];
    s[..i] + s[i + 1..]
  }

  /** `SpatialHashGrid::remove`: erase the first occurrence of the handle
      from the cell of the position the particle has NOW, or fail with
      "Particle not found in grid" when it is not there. On success every
      other cell is untouched and the cell's key is present (`operator[]`
      creates it). */
  function Remove(g: Grid, id: ParticleId, position: Vec2): (r: Result<Grid, GridError>)
    requires g.cellSize > 0 && Hashable(position)
    ensures r.Failure? <==> id !in CellAt(g, Key(g.cellSize, position))
    ensures r.Failure? ==> r.error == RuntimeError(PARTICLE_NOT_FOUND_ERROR_MESSAGE)
    ensures r.Success? ==>
      && r.value.cellSize == g.cellSize
      && Key(g.cellSize, position) in r.value.cells
      && CellAt(r.value, Key(g.cellSize, position))
         == EraseFirst(CellAt(g, Key(g.cellSize, position)), id)
      && forall key :: key != Key(g.cellSize, position) ==> CellAt(r.value, key) == CellAt(g, key)
  {
    var key := Key(g.cellSize, position);
    var cell := CellAt(g, key);
    match FirstIndex(cell, id)
    case None => Failure(RuntimeError(PARTICLE_NOT_FOUND_ERROR_MESSAGE))
    case Some(i) => Success(g.(cells := g.cells[key := cell[..i] + cell[i + 1..]]))
  }

  /** Inserting a particle and removing it again at the same position
      succeeds and restores the contents of every cell; when the handle
      was not in the cell before, the cell is restored entry for entry. */
  lemma InsertThenRemove(g: Grid, id: ParticleId, position: Vec2)
    requires g.cellSize > 0 && Hashable(position)
    ensures Remove(Insert(g, id, position), id, position).Success?
    ensures var r := Remove(Insert(g, id, position), id, position).value;
      && r.cellSize == g.cellSize
      && (forall key :: multiset(CellAt(r, key)) == multiset(CellAt(g, key)))
      && (id !in CellAt(g, Key(g.cellSize, position)) ==> forall key :: CellAt(r, key) == CellAt(g, key))
  {
    var key := Key(g.cellSize, position);
    var cell := CellAt(g, key);
    var g1 := Insert(g, id, position);
    assert id in CellAt(g1, key);
    var r := Remove(g1, id, position).value;
    if id !in cell {
      assert FirstIndex(cell + [id], id) == Some(|cell|);
      assert (cell + [id])[..|cell|] == cell;
    }
  }

  /** A particle that moved after it was inserted is looked up in the cell
      of its new position, and `remove` throws. */
  lemma RemoveAfterMoveFails()
    ensures Remove(Insert(EmptyGrid(10), 0, Vec2(0.0, 0.0)), 0, Vec2(20.0, 0.0))
         == Failure(RuntimeError(PARTICLE_NOT_FOUND_ERROR_MESSAGE))
  {
    assert Trunc(0.0) == 0;
    assert Trunc(20.0) == 20;
    assert Key(10, Vec2(20.0, 0.0)) == 2;
  }

  /** How often a handle is stored in the cell under a key. */
  function Occurrences(g: Grid, key: nat, id: ParticleId): nat {
    multiset(CellAt(g, key))[id]
  }

  /** Counted per handle, `insert` adds one occurrence of the handle to the
      cell of the position and nothing anywhere else. */
  lemma InsertCounts(g: Grid, id: ParticleId, position: Vec2, key: nat, other: ParticleId)
    requires g.cellSize > 0 && Hashable(position)
    ensures Occurrences(Insert(g, id, position), key, other)
         == Occurrences(g, key, other)
            + if key == Key(g.cellSize, position) && other == id then 1 else 0
  {
  }

  /** Counted per handle, a successful `remove` takes one occurrence of the
      handle out of the cell of the position and nothing anywhere else. */
  lemma RemoveCounts(g: Grid, id: ParticleId, position: Vec2, key: nat, other: ParticleId)
    requires g.cellSize > 0 && Hashable(position)
    requires Remove(g, id, position).Success?
    ensures Occurrences(Remove(g, id, position).value, key, other)
            + (if key == Key(g.cellSize, position) && other == id then 1 else 0)
         == Occurrences(g, key, other)
  {
  }

  /** Total number of stored handles over all cells. */
  ghost function Total(cells: map<nat, seq<ParticleId>>): nat
    decreases |cells|
  {
    if cells == map[] then 0
    else
      var key :| key in cells;
      assert (cells - {key}).Keys == cells.Keys - {key};
      |cells[key]| + Total(cells - {key})
  }

  /** The total may be split at any key, not only at the one `Total` picks. */
  lemma {:induction false} TotalSplit(cells: map<nat, seq<ParticleId>>, key: nat)
    requires key in cells
    ensures Total(cells) == |cells[key]| + Total(cells - {key})
    decreases |cells|
  {
    var k :| k in cells && Total(cells) == |cells[k]| + Total(cells - {k});
    if k != key {
      var rest := cells - {k};
      assert rest.Keys == cells.Keys - {k};
      assert key in rest;
      TotalSplit(rest, key);
      var rest' := cells - {key};
      assert rest'.Keys == cells.Keys - {key};
      assert k in rest';
      TotalSplit(rest', k);
      assert rest - {key} == rest' - {k};
    }
  }

  /** Overwriting one cell changes the total by the change in that cell's length. */
  lemma TotalUpdate(cells: map<nat, seq<ParticleId>>, key: nat, v: seq<ParticleId>)
    ensures Total(cells[key := v]) + (if key in cells then |cells[key]| else 0)
         == Total(cells) + |v|
  {
    var m := cells[key := v];
    TotalSplit(m, key);
    if key in cells {
      TotalSplit(cells, key);
      assert m - {key} == cells - {key};
    } else {
      assert m - {key} == cells;
    }
  }

  /** `insert` stores one more handle; a successful `remove` one fewer. */
  lemma TotalCounts(g: Grid, id: ParticleId, position: Vec2)
    requires g.cellSize > 0 && Hashable(position)
    ensures Total(Insert(g, id, position).cells) == Total(g.cells) + 1
    ensures Remove(g, id, position).Success? ==>
      Total(Remove(g, id, position).value.cells) + 1 == Total(g.cells)
  {
    var key := Key(g.cellSize, position);
    TotalUpdate(g.cells, key, CellAt(g, key) + [id]);
    if Remove(g, id, position).Success? {
      TotalUpdate(g.cells, key, EraseFirst(CellAt(g, key), id));
    }
  }
}
