// Runs of the voxel map: every world of points in their own sub-voxels can be inserted, and one of
// them shows what the thresholds do to a search with small sub-voxels.
module KnnRuns {
  import opened Basics
  import opened KnnTables
  import opened VoxelGeometry
  import opened KnnOrder
  import opened Nearest
  import opened KnnHeap
  import opened VoxelCache
  import opened VoxelContents
  import opened VoxelPoints
  import opened VoxelReset
  import opened KnnSearch
  import opened KnnThresholds
  import opened OctVoxMap

  // ---- every world can be inserted ----

  function CloudOf(world: map<Cell, Point>, cells: seq<Cell>): (cloud: seq<Point>)
    requires forall c | c in cells :: c in world
    ensures |cloud| == |cells|
  {
    seq(|cells|, i requires 0 <= i < |cells| => world[cells[i]])
  }

  // The part of the world in these cells.
  function Part(world: map<Cell, Point>, cells: seq<Cell>): map<Cell, Point> {
    map c | c in world && c in cells :: world[c]
  }

  lemma {:induction false} InsertGives(cache: Cache, world: map<Cell, Point>, done: seq<Cell>, cells: seq<Cell>,
                                       s: real, inv: real, cap: nat)
    requires Inverse(s, inv) && WorldFits(world, s) && Resting(cache, cap) && |cache| + |cells| <= Room(cap)
    requires (forall c | c in done + cells :: c in world) && Unique(done + cells)
    requires World(cache) == Part(world, done)
    ensures World(InsertAll(cache, CloudOf(world, cells), inv, cap)) == Part(world, done + cells)
    decreases |cells|
  {
    var cloud := CloudOf(world, cells);
    if cells == [] {
      assert done + cells == done;
    } else {
      var c := cells[0];
      FirstOfRest(world, done, cells);
      FloorIs(world[c], s, inv, c);
      TouchAddsPoint(cache, c, world[c], cap);
      InsertGives(Touch(cache, world[c], inv, cap), world, done + [c], cells[1..], s, inv, cap);
    }
  }

  lemma FirstOfRest(world: map<Cell, Point>, done: seq<Cell>, cells: seq<Cell>)
    requires cells != [] && Unique(done + cells) && forall c | c in done + cells :: c in world
    ensures done + [cells[0]] + cells[1..] == done + cells && cells[0] in world && cells[0] !in Part(world, done)
    ensures forall c | c in cells :: c in world
    ensures CloudOf(world, cells)[0] == world[cells[0]] && CloudOf(world, cells)[1..] == CloudOf(world, cells[1..])
    ensures Part(world, done)[cells[0] := world[cells[0]]] == Part(world, done + [cells[0]])
  {
    var n := |done|;
    OnePlace(done + cells, n);
    assert (done + cells)[n] == cells[0];
    assert forall i | 0 <= i < n :: done[i] == (done + cells)[i];
    assert forall i | 0 <= i < |cells| :: cells[i] == (done + cells)[n + i];
    assert done + [cells[0]] + cells[1..] == done + cells;
    assert CloudOf(world, cells)[1..] == CloudOf(world, cells[1..]);
  }

  // A map with these points, one in each of the cells.
  method Filled(world: map<Cell, Point>, cells: seq<Cell>, s: real, capacity: nat) returns (m: OctVoxMap)
    requires s > 0.0 && WorldFits(world, s) && Unique(cells) && |cells| < capacity
    requires forall c :: c in world <==> c in cells
    ensures fresh(m) && m.Valid() && m.sub_resolution_ == s && m.group_idx_max_ == GROUPS && World(m.cache) == world
  {
    m := new OctVoxMap(2.0 * s, capacity);
    AllOfIt(world, cells, s, m.sub_inv_resolution_, capacity);
    m.insert(CloudOf(world, cells));
  }

  lemma {:induction false} AllOfIt(world: map<Cell, Point>, cells: seq<Cell>, s: real, inv: real, cap: nat)
    requires Inverse(s, inv) && WorldFits(world, s) && Unique(cells) && |cells| < cap
    requires forall c :: c in world <==> c in cells
    ensures Resting([], cap) && World(InsertAll([], CloudOf(world, cells), inv, cap)) == world
  {
    assert [] + cells == cells && Part(world, cells) == world;
    assert World([]) == Part(world, []);
    InsertGives([], world, [], cells, s, inv, cap);
  }

  // ---- a run that stops too early ----

  lemma Different<T>(a: T, b: T, c: T, d: T, e: T, f: T)
    requires a !in [b, c, d, e, f] && b !in [c, d, e, f] && c !in [d, e, f] && d !in [e, f] && e != f
    ensures Unique([a, b, c, d, e, f]) && Unique([a, b, c, d, e])
  {
  }

  lemma TrapCellsDiffer()
    ensures Unique(SeenCells() + [AHEAD]) && Unique(SeenCells())
  {
    Different(HERE, Cell(1, 0, 0), Cell(0, 1, 0), Cell(0, 0, 1), BEHIND, AHEAD);
    assert SeenCells() + [AHEAD] == [HERE, Cell(1, 0, 0), Cell(0, 1, 0), Cell(0, 0, 1), BEHIND, AHEAD];
  }

  // The first group of the trap is enough to stop.
  lemma TrapStops(s: real, u: Quest)
    requires 0.0 < s < 0.25 && u == Quest(Trap(s), Query(s), HERE, [])
    ensures Enough(u, 1)
  {
    TrapProgress(s);
    TrapDistances(s);
    TrapCellsDiffer();
    var t := MinDis2(0);
    AllNear(s, t);
    SeenIsNear(u, SeenCells(), 1, t);
    UniqueSize(SeenCells(), set c | c in SeenCells());
  }

  lemma AllNear(s: real, t: real)
    requires 0.0 < s < 0.25 && t == 0.0625
    ensures forall c | c in SeenCells() :: c in Trap(s) && Dist2(Trap(s)[c], Query(s)) < t
    ensures (set c | c in SeenCells() && c in Trap(s) && Dist2(Trap(s)[c], Query(s)) < t) == set c | c in SeenCells()
  {
    TrapDistances(s);
    TrapTracks(s);
    var cells, tried := SeenCells(), TrapTried(s);
    forall c | c in cells
      ensures c in Trap(s) && Dist2(Trap(s)[c], Query(s)) < t
    {
      var i :| 0 <= i < 5 && cells[i] == c;
      assert tried[i].0 == Distances(s)[i];
    }
  }

  // Five kept of five cells are all of them.
  lemma AllKept(cells: seq<Cell>, cells': seq<Cell>, slot: seq<int>)
    requires Unique(cells) && Unique(cells') && forall c :: c in cells <==> c in cells'
    requires Unique(slot) && |slot| == |cells'| && forall i | 0 <= i < |slot| :: 0 <= slot[i] < |cells|
    ensures Kept(cells, slot) == set c | c in cells'
  {
    KeptSize(cells, slot);
    UniqueSize(cells', set c | c in cells');
    SameSize(Kept(cells, slot), set c | c in cells');
  }

  lemma SameSize(a: set<Cell>, b: set<Cell>)
    requires a <= b && |a| == |b|
    ensures a == b
  {
    if x :| x in b && x !in a {
      SubsetCard(a, b - {x});
    }
  }

  lemma SameProgress(world: map<Cell, Point>, f: Cell, cells: seq<Cell>, cells': seq<Cell>, g: nat)
    requires Progress(world, f, cells, g, 0, 0) && Progress(world, f, cells', g, 0, 0)
    ensures Unique(cells) && Unique(cells') && forall c :: c in cells <==> c in cells'
  {
  }

  lemma TrapAllKept()
    ensures Kept(SeenCells(), [0, 1, 2, 3, 4]) == set c | c in SeenCells()
  {
    TrapCellsDiffer();
    Different(0, 1, 2, 3, 4, 5);
    AllKept(SeenCells(), SeenCells(), [0, 1, 2, 3, 4]);
  }

  lemma TrapSearch(s: real, world: map<Cell, Point>, cells: seq<Cell>, slot: seq<int>)
    requires 0.0 < s < 0.25 && world == Trap(s) && Progress(world, HERE, cells, 1, 0, 0)
    requires |slot| == K && Unique(slot) && forall i | 0 <= i < K :: 0 <= slot[i] < |cells|
    ensures !IsNearest(DistTo(world, Query(s)), world.Keys, Kept(cells, slot), K)
  {
    TrapProgress(s);
    SameProgress(world, HERE, cells, SeenCells(), 1);
    AllKept(cells, SeenCells(), slot);
    TrapAllKept();
    TrapNotNearest(s);
  }

  // Five slots of what the first group lists.
  ghost predicate FirstFive(u: Quest, cells: seq<Cell>, slot: seq<int>) {
    && Progress(u.world, u.f, cells, 1, 0, 0) && |slot| == K && Unique(slot)
    && forall i | 0 <= i < K :: 0 <= slot[i] < |cells|
  }

  // The first group is enough to stop, but has not the five nearest.
  ghost predicate Misleads(u: Quest) {
    && Enough(u, 1) && u.before == []
    && forall cells, slot | FirstFive(u, cells, slot) ::
         !IsNearest(DistTo(u.world, u.q), u.world.Keys, Kept(cells, slot), K)
  }

  lemma TrapMisleads(s: real, u: Quest)
    requires 0.0 < s < 0.25 && u == Quest(Trap(s), Query(s), HERE, [])
    ensures Misleads(u)
  {
    TrapStops(s, u);
    forall cells, slot | FirstFive(u, cells, slot)
      ensures !IsNearest(DistTo(u.world, u.q), u.world.Keys, Kept(cells, slot), K)
    {
      TrapSearch(s, u.world, cells, slot);
    }
  }

  // For every side below a quarter: a map that has been filled through the class, and a search of it
  // that stops after the first group with five points which are not five nearest.
  method StopsTooEarly(s: real, capacity: nat)
    returns (m: OctVoxMap, q: Point, top_K: KNNHeap<Point>, ghost cells: seq<Cell>)
    requires 0.0 < s < 0.25 && capacity >= 7
    ensures m.sub_resolution_ == s && m.group_idx_max_ == GROUPS && top_K.Valid() && top_K.count == K
    ensures Searched(m.cache, cells, 1, q, FloorKey(q, m.sub_inv_resolution_),
                     top_K.slot, top_K.tried, top_K.max_dist2_)
    ensures !IsNearest(DistTo(World(m.cache), q), World(m.cache).Keys, Kept(cells, top_K.slot), K)
  {
    ghost var u: Quest;
    m, q, u := FilledTrap(s, capacity);
    top_K := new KNNHeap<Point>();
    cells := firstGroup(m, q, top_K, u);
  }

  method FilledTrap(s: real, capacity: nat) returns (m: OctVoxMap, q: Point, ghost u: Quest)
    requires 0.0 < s < 0.25 && capacity >= 7
    ensures fresh(m) && m.Valid() && m.sub_resolution_ == s && m.group_idx_max_ == GROUPS
    ensures u.world == World(m.cache) && u.q == q && u.f == FloorKey(q, m.sub_inv_resolution_) && Misleads(u)
  {
    TrapFits(s);
    TrapCells(s);
    TrapCellsDiffer();
    m := Filled(Trap(s), SeenCells() + [AHEAD], s, capacity);
    q := Query(s);
    FloorIs(q, s, m.sub_inv_resolution_, HERE);
    u := Quest(Trap(s), q, HERE, []);
    TrapMisleads(s, u);
  }

  // A search that has enough after the first group.
  method firstGroup(m: OctVoxMap, q: Point, top_K: KNNHeap<Point>, ghost u: Quest) returns (ghost cells: seq<Cell>)
    requires m.Valid() && m.group_idx_max_ == GROUPS && top_K.Valid() && top_K.tried == [] && Misleads(u)
    requires u.world == World(m.cache) && u.q == q && u.f == FloorKey(q, m.sub_inv_resolution_)
    modifies top_K, top_K.dist2_, top_K.points_
    ensures top_K.Valid() && top_K.count == K
    ensures Searched(m.cache, cells, 1, q, u.f, top_K.slot, top_K.tried, top_K.max_dist2_)
    ensures !IsNearest(DistTo(u.world, q), u.world.Keys, Kept(cells, top_K.slot), K)
  {
    ghost var groups;
    groups, cells := m.getTopK(q, top_K);
    OutcomeOf(top_K);
    assert FirstFive(u, cells, top_K.slot);
  }
}
