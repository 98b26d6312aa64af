// OctVox and OctVoxMap of OctVoxMap.hpp: the list and the hash index over its nodes, changed in
// place, against the cache of module VoxelCache.
module OctVoxels {
  import opened KnnTables
  import opened VoxelGeometry
  import opened VoxelCache
  import opened VoxelPoints

  function Sum(pts: seq<Point>): Point {
    if pts == [] then ORIGIN
    else
      var s, p := Sum(pts[..|pts| - 1]), pts[|pts| - 1];
      Point(s.x + p.x, s.y + p.y, s.z + p.z)
  }

  predicate IsMean(m: Point, pts: seq<Point>) {
    Sum(pts) == Point(m.x * |pts| as real, m.y * |pts| as real, m.z * |pts| as real)
  }

  lemma NewMeanIsMean(m: Point, pts: seq<Point>, pt: Point)
    requires pts != [] && IsMean(m, pts)
    ensures IsMean(NewMean(m, |pts|, pt), pts + [pt])
  {
    assert (pts + [pt])[..|pts|] == pts;
    var q := NewMean(m, |pts|, pt);
    MeanStepIs(m.x, |pts|, pt.x, q.x);
    MeanStepIs(m.y, |pts|, pt.y, q.y);
    MeanStepIs(m.z, |pts|, pt.z, q.z);
  }

  lemma OneIsMean(pt: Point)
    ensures IsMean(pt, [pt])
  {
    assert [pt][..0] == [];
  }

  class OctVox {
    var counts_: seq<int>
    var points_: seq<Point>

    // The points each sub-voxel has taken in.
    ghost var accepted: seq<seq<Point>>

    function Value(): Voxel
      reads this
    {
      Voxel(counts_, points_)
    }

    ghost predicate Valid()
      reads this
    {
      && Shaped(Value()) && |accepted| == 8
      && (forall l | 0 <= l < 8 :: counts_[l] == |accepted[l]|)
      && (forall l | 0 <= l < 8 :: counts_[l] > 0 ==> IsMean(points_[l], accepted[l]))
    }

    constructor (pt: Point, local_idx: nat)
      requires local_idx < 8
      ensures Valid() && Value() == Fresh(pt, local_idx)
      ensures accepted == seq(8, l => if l == local_idx then [pt] else [])
    {
      counts_ := [0, 0, 0, 0, 0, 0, 0, 0][local_idx := 1];
      points_ := [ORIGIN, ORIGIN, ORIGIN, ORIGIN, ORIGIN, ORIGIN, ORIGIN, ORIGIN][local_idx := pt];
      accepted := seq(8, l => if l == local_idx then [pt] else []);
      OneIsMean(pt);
    }

    method AddPoint(pt: Point, local_idx: nat)
      requires Valid() && local_idx < 8
      modifies this
      ensures Valid() && Value() == Add(old(Value()), pt, local_idx)
      ensures accepted ==
              if old(counts_[local_idx]) == 0
                 || (old(counts_[local_idx]) < 20 && Hundredths(pt, old(points_[local_idx])) <= 1.0)
              then old(accepted)[local_idx := old(accepted[local_idx]) + [pt]] else old(accepted)
    {
      var count := counts_[local_idx];
      var stored_point := points_[local_idx];
      if count == 0 {
        points_ := points_[local_idx := pt];
        counts_ := counts_[local_idx := 1];
        assert accepted[local_idx] == [];
        accepted := accepted[local_idx := accepted[local_idx] + [pt]];
        OneIsMean(pt);
        return;
      }
      if count >= MAX_POINTS_PER_SUBVOXEL { return; }
      if Dist2(pt, stored_point) > DISTANCE_THRESHOLD_SQ { return; }
      NewMeanIsMean(stored_point, accepted[local_idx], pt);
      points_ := points_[local_idx := NewMean(stored_point, count, pt)];
      counts_ := counts_[local_idx := count + 1];
      accepted := accepted[local_idx := accepted[local_idx] + [pt]];
    }

    method getPoint(local_idx: nat) returns (ok: bool, pt: Point)
      requires Shaped(Value()) && local_idx < 8
      ensures ok == (counts_[local_idx] != 0)
      ensures ok ==> pt == points_[local_idx]
    {
      ok, pt := counts_[local_idx] != 0, points_[local_idx];
    }
  }
}

module OctVoxMap {
  import opened Basics
  import opened KnnTables
  import opened VoxelGeometry
  import opened VoxelCache
  import opened VoxelContents
  import opened VoxelReset
  import opened OctVoxels
  import opened KnnFlat
  import opened KnnOrder
  import opened Nearest
  import opened KnnHeap
  import opened KnnSearch

  // A list node; its identity is that of the voxel in it.
  datatype Pair = Pair(first: Cell, second: OctVox)

  method AddOne(v: OctVox, pt: Point, local_idx: nat)
    requires v.Valid() && local_idx < 8
    modifies v
    ensures v.Valid() && v.Value() == Add(old(v.Value()), pt, local_idx)
  {
    v.AddPoint(pt, local_idx);
  }

  class OctVoxMap {
    const sub_resolution_: real
    const sub_inv_resolution_: real
    const capacity_: nat
    var reset_map_: bool
    var reset_map_count_: int
    var data_: seq<Pair>
    var grids_: map<Cell, Pair>
    var group_idx_max_: int

    // The contents as a value, and the voxels touched since the map was last cleared.
    ghost var cache: Cache
    ghost var touched: seq<Cell>

    ghost predicate Valid()
      reads this, set p | p in data_ :: p.second
    {
      && Sound(cache, touched, sub_resolution_, sub_inv_resolution_, capacity_)
      && 4 <= group_idx_max_ <= GROUPS
      && Nodes(data_, cache)
      && Indexed(data_, grids_)
    }

    // The part of it that a search needs.
    ghost predicate Linked()
      reads this, set p | p in data_ :: p.second
    {
      WellFormed(cache) && Nodes(data_, cache) && Indexed(data_, grids_) && 4 <= group_idx_max_ <= GROUPS
    }

    ghost function St(): State
      reads this
    {
      State(cache, reset_map_, reset_map_count_)
    }

    constructor (resolution: real, capacity: nat)
      requires resolution > 0.0
      ensures Valid() && St() == State([], false, 0) && touched == []
      ensures sub_resolution_ == resolution / 2.0 && capacity_ == capacity && group_idx_max_ == GROUPS
      ensures data_ == []
    {
      sub_resolution_ := resolution / 2.0;
      sub_inv_resolution_ := 1.0 / (resolution / 2.0);
      capacity_ := capacity;
      reset_map_, reset_map_count_ := false, 0;
      data_, grids_ := [], map[];
      group_idx_max_ := GROUPS;
      cache, touched := [], [];
    }

    method clear()
      requires Valid()
      modifies this`grids_, this`data_, this`cache, this`touched
      ensures Valid() && cache == [] && touched == [] && data_ == []
    {
      grids_ := map[];
      data_ := [];
      cache, touched := [], [];
    }

    method reset_max_group()
      requires Valid()
      modifies this`group_idx_max_
      ensures Valid() && group_idx_max_ == GROUPS
    {
      group_idx_max_ := GROUPS;
    }

    method decrease_max_group()
      requires Valid()
      modifies this`group_idx_max_
      ensures Valid() && group_idx_max_ == if old(group_idx_max_) > 4 then old(group_idx_max_) - 1 else 4
    {
      if group_idx_max_ > 4 {
        group_idx_max_ := group_idx_max_ - 1;
      }
    }

    method insert(cloud_world: seq<Point>)
      requires Valid()
      modifies this`data_, this`grids_, this`cache, this`touched, this`reset_map_, this`reset_map_count_,
               set p | p in data_ :: p.second
      ensures Valid() && St() == Insert(old(St()), cloud_world, sub_inv_resolution_, capacity_)
      ensures touched == if HoldsBack(old(St())) then old(touched)
                         else old(touched) + Touches(cloud_world, sub_inv_resolution_)
      ensures forall p | p in data_ :: p in old(data_) || fresh(p.second)
    {
      if reset_map_ {
        reset_map_count_ := reset_map_count_ - 1;
        if reset_map_count_ > 0 {
          return;
        }
        reset_map_ := false;
      }
      insertEach(cloud_world);
    }

    method insertEach(cloud_world: seq<Point>)
      requires Valid()
      modifies this`data_, this`grids_, this`cache, this`touched, set p | p in data_ :: p.second
      ensures Valid() && cache == InsertAll(old(cache), cloud_world, sub_inv_resolution_, capacity_)
      ensures touched == old(touched) + Touches(cloud_world, sub_inv_resolution_)
      ensures forall p | p in data_ :: p in old(data_) || fresh(p.second)
    {
      ghost var c0, t0, inv, cap := cache, touched, sub_inv_resolution_, capacity_;
      for i := 0 to |cloud_world|
        invariant Valid()
        invariant InsertAll(c0, cloud_world, inv, cap) == InsertAll(cache, cloud_world[i..], inv, cap)
        invariant touched == t0 + Touches(cloud_world[..i], inv)
        invariant forall p | p in data_ :: p in old(data_) || fresh(p.second)
      {
        NextPoint(cloud_world, i, cache, t0, inv, cap);
        insertPoint(cloud_world[i]);
      }
      assert cloud_world[..|cloud_world|] == cloud_world;
    }

    // The stored points as floats, voxel by voxel in list order.
    method getMap() returns (output: seq<real>)
      requires Valid()
      ensures output == Floats(PointsOf(cache))
    {
      output := [];
      ghost var c := cache;
      PointsFromEnds(c);
      for i := 0 to |data_|
        invariant output + Floats(PointsFrom(c, i)) == Floats(PointsOf(c))
      {
        output := entryOut(i, output);
      }
    }

    method entryOut(i: nat, before: seq<real>) returns (output: seq<real>)
      requires Valid() && i < |data_|
      ensures output + Floats(PointsFrom(cache, i + 1)) == before + Floats(PointsFrom(cache, i))
    {
      assert Shows(data_[i], cache[i]);
      PointsFromNext(cache, i);
      output := VoxelOut(data_[i].second, before, PointsFrom(cache, i + 1));
    }

    method resetMap(input: seq<real>)
      requires Valid()
      modifies this`data_, this`grids_, this`cache, this`touched, this`reset_map_, this`reset_map_count_,
               set p | p in data_ :: p.second
      ensures Valid() && St() == Reset(old(St()), input, sub_inv_resolution_, capacity_)
    {
      if |input| == 0 {
        return;
      }
      clear();
      var cloud_world := ReadTriples(input);
      insert(cloud_world);
      holdBack();
    }

    method holdBack()
      requires Valid()
      modifies this`reset_map_, this`reset_map_count_
      ensures Valid() && St() == State(old(cache), true, 10)
    {
      reset_map_ := true;
      reset_map_count_ := 10;
    }

    // The voxel under a key, or null.
    method lookUp(n_key: Cell) returns (voxel_ptr: OctVox?)
      requires Linked()
      ensures Found(voxel_ptr, n_key, World(cache))
    {
      KeyIndexed(data_, cache, grids_, n_key);
      if n_key in grids_ {
        voxel_ptr := grids_[n_key].second;
        ghost var i := Position(KeysOf(cache), n_key);
        assert Shows(data_[i], cache[i]);
        VoxelShares(cache, i);
      } else {
        voxel_ptr := null;
        AbsentVoxel(cache, n_key);
      }
    }

    // The first lines of the table concern few voxels, which are looked up once.
    method lookUpFirst(fine_key: Cell, n: nat) returns (top_voxels_2_search: seq<OctVox?>)
      requires Linked()
      ensures AllFound(top_voxels_2_search, NeighborKeys(fine_key, n), World(cache))
    {
      top_voxels_2_search := [];
      for k := 0 to n
        invariant AllFound(top_voxels_2_search, NeighborKeys(fine_key, k), World(cache))
      {
        var voxel_ptr := lookUp(NeighborKey(fine_key, k));
        AllFoundMore(top_voxels_2_search, voxel_ptr, NeighborKeys(fine_key, k), NeighborKey(fine_key, k), World(cache));
        NextNeighborKey(fine_key, k);
        top_voxels_2_search := top_voxels_2_search + [voxel_ptr];
      }
    }

    method voxelOfLine(fine_key: Cell, neighbor_idx: nat, top_voxels_2_search: seq<OctVox?>)
      returns (voxel_ptr: OctVox?)
      requires Linked() && AllFound(top_voxels_2_search, NeighborKeys(fine_key, |top_voxels_2_search|), World(cache))
      ensures Found(voxel_ptr, NeighborKey(fine_key, neighbor_idx), World(cache))
    {
      if neighbor_idx < |top_voxels_2_search| {
        voxel_ptr := top_voxels_2_search[neighbor_idx];
        NeighborKeyAt(fine_key, |top_voxels_2_search|, neighbor_idx);
      } else {
        voxel_ptr := lookUp(NeighborKey(fine_key, neighbor_idx));
      }
    }

    // The quest is for points of this map.
    ghost predicate Asks(u: Quest, point: Point, fine_key: Cell)
      requires WellFormed(cache)
      reads this`cache
    {
      u.world == World(cache) && u.q == point && u.f == fine_key
    }

    // The five nearest stored points, and candidates the heap has tried before. cells are the occupied
    // sub-voxels of the groups seen. The search stops after the first group after which five of all
    // the candidates are below its threshold.
    method getTopK(point: Point, top_K: KNNHeap<Point>) returns (ghost groups: nat, ghost cells: seq<Cell>)
      requires Valid() && top_K.Valid()
      modifies top_K, top_K.dist2_, top_K.points_
      ensures var u := Quest(World(cache), point, FloorKey(point, sub_inv_resolution_), old(top_K.tried));
              Reached(top_K, u, cells, groups, 0) && StopsFirst(u, groups, group_idx_max_)
      ensures old(top_K.tried) == [] ==>
                Searched(cache, cells, groups, point, FloorKey(point, sub_inv_resolution_),
                         top_K.slot, top_K.tried, top_K.max_dist2_)
      ensures groups < group_idx_max_ ==> top_K.count == K && top_K.max_dist2_ < MinDis2(groups - 1)
      ensures old(top_K.tried) == [] && groups < group_idx_max_ && sub_resolution_ >= 0.25 ==>
                IsNearest(DistTo(World(cache), point), World(cache).Keys, Kept(cells, top_K.slot), K)
    {
      var fine_key := FloorKey(point, sub_inv_resolution_);
      ghost var u := Quest(World(cache), point, fine_key, top_K.tried);
      var top_voxels_2_search := lookUpFirst(fine_key, 8);
      var seen: nat;
      ProgressStarts(World(cache), fine_key);
      NothingAdded(u);
      ghost var enough := Telling(u);
      assert Reached(top_K, u, [], 0, 0);
      seen := search(fine_key, top_voxels_2_search, point, top_K, group_idx_max_, u, enough);
      groups := seen;
      cells :| Reached(top_K, u, cells, groups, 0);
      FirstTold(enough, u, groups, group_idx_max_);
      OutcomeOf(top_K);
      StopsIsEnough(top_K, u, cells, groups);
      if u.before == [] { AllAdded(top_K.tried, u, cells); }
      if u.before == [] && groups < group_idx_max_ && sub_resolution_ >= 0.25 {
        EarlyStopIsExact(cache, cells, groups, point, sub_resolution_, sub_inv_resolution_,
                         top_K.slot, top_K.tried, top_K.max_dist2_);
      }
    }

    // The quest is known, and the voxels around its query have been looked up.
    ghost predicate Readied(u: Quest, ptrs: seq<OctVox?>, point: Point, fine_key: Cell)
      reads this, set p | p in data_ :: p.second, set v | v in ptrs
    {
      Linked() && Asks(u, point, fine_key) && AllFound(ptrs, NeighborKeys(fine_key, |ptrs|), u.world)
    }

    // The loop over the groups.
    method search(fine_key: Cell, top_voxels_2_search: seq<OctVox?>, point: Point, top_K: KNNHeap<Point>,
                  max: nat, ghost u: Quest, ghost enough: seq<bool>)
      returns (groups: nat)
      requires 1 <= max <= GROUPS
      requires Readied(u, top_voxels_2_search, point, fine_key) && Scanned(top_K, u, 0)
      requires Tells(enough, u) && !enough[0]
      modifies top_K, top_K.dist2_, top_K.points_
      ensures Scanned(top_K, u, groups)
      ensures 1 <= groups <= max && (groups < max ==> enough[groups])
      ensures NoneBefore(enough, groups)
    {
      groups := 0;
      var stop := false;
      while groups < max && !stop
        invariant groups <= max && Scanned(top_K, u, groups)
        invariant stop == enough[groups]
        invariant NoneBefore(enough, groups)
        invariant Readied(u, top_voxels_2_search, point, fine_key)
      {
        stop := searchGroup(groups, fine_key, top_voxels_2_search, point, top_K, u, enough);
        groups := groups + 1;
      }
    }

    // One turn of that loop.
    method searchGroup(group_idx: nat, fine_key: Cell, top_voxels_2_search: seq<OctVox?>, point: Point,
                       top_K: KNNHeap<Point>, ghost u: Quest, ghost enough: seq<bool>)
      returns (stop: bool)
      requires Readied(u, top_voxels_2_search, point, fine_key) && Scanned(top_K, u, group_idx)
      requires group_idx < GROUPS && Tells(enough, u)
      modifies top_K, top_K.dist2_, top_K.points_
      ensures Readied(u, top_voxels_2_search, point, fine_key) && Scanned(top_K, u, group_idx + 1)
      ensures stop == enough[group_idx + 1]
    {
      ghost var cells0 :| Reached(top_K, u, cells0, group_idx, 0);
      ghost var cells := scanTable(group_idx, fine_key, top_voxels_2_search, point, top_K, u, cells0);
      stop := Stops(top_K, group_idx + 1);
      StopsIsTold(top_K, u, cells, group_idx + 1, enough);
    }

    method scanTable(group_idx: nat, fine_key: Cell, top_voxels_2_search: seq<OctVox?>, point: Point,
                     top_K: KNNHeap<Point>, ghost u: Quest, ghost cells0: seq<Cell>)
      returns (ghost cells: seq<Cell>)
      requires Readied(u, top_voxels_2_search, point, fine_key) && Reached(top_K, u, cells0, group_idx, 0)
      requires group_idx < GROUPS
      modifies top_K, top_K.dist2_, top_K.points_
      ensures Reached(top_K, u, cells, group_idx + 1, 0)
    {
      TableOf(group_idx);
      cells := scanGroup(Flat(), Start(group_idx), Start(group_idx + 1), fine_key, top_voxels_2_search, point, top_K,
                         u, cells0, group_idx, DataOf(group_idx), LinesOf(group_idx));
    }

    // All lines of a group.
    method scanGroup(flat: seq<nat>, start: nat, group_end: nat, fine_key: Cell,
                     top_voxels_2_search: seq<OctVox?>, point: Point, top_K: KNNHeap<Point>,
                     ghost u: Quest, ghost cells0: seq<Cell>, ghost g: nat, ghost data: nat -> Locals,
                     ghost lines: nat -> seq<nat>)
      returns (ghost cells: seq<Cell>)
      requires Readied(u, top_voxels_2_search, point, fine_key) && Reached(top_K, u, cells0, g, 0)
      requires g < GROUPS && Chain(data, lines) && Lists(data, g) && CutAt(flat, start, group_end, lines(0))
      modifies top_K, top_K.dist2_, top_K.points_
      ensures Reached(top_K, u, cells, g + 1, 0)
    {
      ghost var k := ToNextLine(flat, start, group_end, u.world, fine_key, cells0, g, 0, data, lines);
      cells := scanLines(flat, start, group_end, fine_key, top_voxels_2_search, point, top_K,
                         u, cells0, g, k, data, lines);
      ProgressGroup(u.world, fine_key, cells, g);
    }

    // The loop over them.
    method scanLines(flat: seq<nat>, start: nat, group_end: nat, fine_key: Cell, top_voxels_2_search: seq<OctVox?>,
                     point: Point, top_K: KNNHeap<Point>, ghost u: Quest, ghost cells0: seq<Cell>, ghost g: nat,
                     ghost first: nat, ghost data: nat -> Locals, ghost lines: nat -> seq<nat>)
      returns (ghost cells: seq<Cell>)
      requires Readied(u, top_voxels_2_search, point, fine_key) && Reached(top_K, u, cells0, g, first)
      requires g < GROUPS && Chain(data, lines) && Lists(data, g) && AtLine(flat, start, group_end, first, data, lines)
      modifies top_K, top_K.dist2_, top_K.points_
      ensures Reached(top_K, u, cells, g, NEIGHBORS)
    {
      cells := cells0;
      var group_it: nat := start;
      ghost var k := first;
      while group_it < group_end
        invariant AtLine(flat, group_it, group_end, k, data, lines)
        invariant Reached(top_K, u, cells, g, k)
      {
        group_it, cells, k := scanLine(flat, group_it, group_end, fine_key, top_voxels_2_search, point, top_K,
                                       u, cells, g, k, data, lines);
      }
    }

    // One turn of that loop.
    method scanLine(flat: seq<nat>, at: nat, group_end: nat, fine_key: Cell, top_voxels_2_search: seq<OctVox?>,
                    point: Point, top_K: KNNHeap<Point>, ghost u: Quest, ghost cells0: seq<Cell>,
                    ghost g: nat, ghost k: nat, ghost data: nat -> Locals, ghost lines: nat -> seq<nat>)
      returns (group_it: nat, ghost cells: seq<Cell>, ghost k': nat)
      requires Readied(u, top_voxels_2_search, point, fine_key)
      requires g < GROUPS && k < NEIGHBORS && Chain(data, lines) && Lists(data, g)
      requires AtLine(flat, at, group_end, k, data, lines) && Reached(top_K, u, cells0, g, k)
      modifies top_K, top_K.dist2_, top_K.points_
      ensures AtLine(flat, group_it, group_end, k', data, lines) && at < group_it
      ensures Reached(top_K, u, cells, g, k')
    {
      ReadLine(flat, at, group_end, g, k, data, lines);
      var voxel_ptr := voxelOfLine(fine_key, flat[at], top_voxels_2_search);
      group_it, cells, k' := ScanToNext(voxel_ptr, flat, at, group_end, fine_key, point, top_K,
                                        u, cells0, g, k, data, lines);
    }

    // One round of the loop of insert.
    method insertPoint(pt: Point)
      requires Valid()
      modifies this`data_, this`grids_, this`cache, this`touched, set p | p in data_ :: p.second
      ensures Valid() && cache == Touch(old(cache), pt, sub_inv_resolution_, capacity_)
      ensures touched == old(touched) + [VoxelKey(FloorKey(pt, sub_inv_resolution_))]
      ensures forall p | p in data_ :: p in old(data_) || fresh(p.second)
    {
      var fine_key := FloorKey(pt, sub_inv_resolution_);
      TouchIsSound(cache, touched, pt, sub_resolution_, sub_inv_resolution_, capacity_);
      insertAt(fine_key, pt);
      touched := touched + [VoxelKey(fine_key)];
    }

    method insertAt(fine_key: Cell, pt: Point)
      requires Nodes(data_, cache) && Indexed(data_, grids_) && Resting(cache, capacity_)
      modifies this`data_, this`grids_, this`cache, set p | p in data_ :: p.second
      ensures cache == TouchAt(old(cache), fine_key, pt, capacity_)
      ensures Nodes(data_, cache) && Indexed(data_, grids_)
      ensures forall p | p in data_ :: p in old(data_) || fresh(p.second)
    {
      var key := VoxelKey(fine_key);
      var local_idx := LocalIdx(fine_key);
      KeyIndexed(data_, cache, grids_, key);
      if key !in grids_ {
        insertNew(key, local_idx, pt);
      } else {
        var iter := grids_[key];
        insertOld(iter, local_idx, pt, Position(KeysOf(cache), key));
      }
    }

    // A point whose voxel is not in the map yet.
    method insertNew(key: Cell, local_idx: nat, pt: Point)
      requires Nodes(data_, cache) && Indexed(data_, grids_)
      requires local_idx < 8 && key !in grids_ && key !in KeysOf(cache)
      requires Unique(KeysOf(cache)) && |cache| <= Room(capacity_)
      modifies this`data_, this`grids_, this`cache
      ensures cache == Take([Entry(key, Fresh(pt, local_idx))] + old(cache), Room(capacity_))
      ensures Nodes(data_, cache) && Indexed(data_, grids_)
      ensures forall p | p in data_ :: p in old(data_) || fresh(p.second)
    {
      var vox := new OctVox(pt, local_idx);
      insertNode(Pair(key, vox), Entry(key, Fresh(pt, local_idx)), cache);
    }

    method insertNode(node: Pair, ghost e: Entry, ghost c: Cache)
      requires Nodes(data_, cache) && Indexed(data_, grids_) && cache == c
      requires node.first == e.key && node.first !in grids_ && e.key !in KeysOf(c)
      requires Unique(KeysOf(c)) && |c| <= Room(capacity_)
      requires node.second.Valid() && node.second.Value() == e.vox && forall p | p in data_ :: p.second != node.second
      modifies this`data_, this`grids_, this`cache
      ensures cache == Take([e] + c, Room(capacity_)) && Nodes(data_, cache) && Indexed(data_, grids_)
      ensures forall p | p in data_ :: p in old(data_) || p == node
    {
      pushFront(node, e);
      KeysInFront(e, c);
      Evicts(e, c, capacity_);
      makeRoom();
    }

    method makeRoom()
      requires data_ != [] && Nodes(data_, cache) && Indexed(data_, grids_) && Unique(KeysOf(cache))
      modifies this`data_, this`grids_, this`cache
      ensures cache == old(if |cache| >= capacity_ then cache[..|cache| - 1] else cache)
      ensures Nodes(data_, cache) && Indexed(data_, grids_) && forall p | p in data_ :: p in old(data_)
    {
      if |data_| >= capacity_ {
        evict();
      }
    }

    method pushFront(node: Pair, ghost e: Entry)
      requires Nodes(data_, cache) && Indexed(data_, grids_)
      requires node.first == e.key && node.first !in grids_
      requires node.second.Valid() && node.second.Value() == e.vox && forall p | p in data_ :: p.second != node.second
      modifies this`data_, this`grids_, this`cache
      ensures cache == [e] + old(cache) && data_ == [node] + old(data_)
      ensures Nodes(data_, cache) && Indexed(data_, grids_)
    {
      IndexedFront(data_, grids_, node);
      NodesFront(data_, cache, node, e);
      set_nodes([node] + data_, grids_[node.first := node], [e] + cache);
    }

    method evict()
      requires data_ != [] && Nodes(data_, cache) && Indexed(data_, grids_) && Unique(KeysOf(cache))
      modifies this`data_, this`grids_, this`cache
      ensures cache == old(cache[..|cache| - 1]) && data_ == old(data_[..|data_| - 1])
      ensures Nodes(data_, cache) && Indexed(data_, grids_)
    {
      NodesBack(data_, cache);
      IndexedBack(data_, cache, grids_);
      set_nodes(data_[..|data_| - 1], grids_ - {data_[|data_| - 1].first}, cache[..|cache| - 1]);
    }

    // A point whose voxel stands at place i of the list.
    method insertOld(it: Pair, local_idx: nat, pt: Point, ghost i: nat)
      requires Nodes(data_, cache) && Indexed(data_, grids_)
      requires local_idx < 8 && i < |cache| && data_[i] == it
      modifies this`data_, this`grids_, this`cache, it.second
      ensures cache == [Entry(it.first, Add(old(cache[i].vox), pt, local_idx))] + RemoveAt(old(cache), i)
      ensures Nodes(data_, cache) && Indexed(data_, grids_)
      ensures forall p | p in data_ :: p in old(data_)
    {
      RemoveUpdated(cache, i, Entry(it.first, Add(cache[i].vox, pt, local_idx)));
      addTo(it, local_idx, pt, i);
      splice(it, i);
    }

    method addTo(it: Pair, local_idx: nat, pt: Point, ghost i: nat)
      requires Nodes(data_, cache) && local_idx < 8 && i < |cache| && data_[i] == it
      modifies this`cache, it.second
      ensures cache == old(cache)[i := Entry(it.first, Add(old(cache[i].vox), pt, local_idx))]
      ensures Nodes(data_, cache)
    {
      ghost var before := cache;
      AddOne(it.second, pt, local_idx);
      cache := before[i := Entry(it.first, Add(before[i].vox, pt, local_idx))];
      assert forall j | 0 <= j < |data_| && j != i :: Shows(data_[j], before[j]);
    }

    // data_.splice(data_.begin(), data_, it)
    method splice(it: Pair, ghost i: nat)
      requires Nodes(data_, cache) && Indexed(data_, grids_) && i < |cache| && data_[i] == it
      modifies this`data_, this`grids_, this`cache
      ensures cache == [old(cache)[i]] + RemoveAt(old(cache), i)
      ensures Nodes(data_, cache) && Indexed(data_, grids_)
      ensures forall p | p in data_ :: p in old(data_)
    {
      NodeAt(data_, cache, i);
      NodesSpliced(data_, cache, i);
      IndexedSpliced(data_, grids_, i);
      set_nodes([it] + Without(data_, it), grids_, [cache[i]] + RemoveAt(cache, i));
    }

    method set_nodes(data: seq<Pair>, grids: map<Cell, Pair>, ghost c: Cache)
      requires Nodes(data, c)
      modifies this`data_, this`grids_, this`cache
      ensures data_ == data && grids_ == grids && cache == c && Nodes(data, c)
    {
      data_, grids_, cache := data, grids, c;
    }
  }

  lemma IndexedFront(data: seq<Pair>, grids: map<Cell, Pair>, node: Pair)
    requires Indexed(data, grids) && node.first !in grids
    ensures Indexed([node] + data, grids[node.first := node])
  {
  }

  lemma NodesFront(data: seq<Pair>, cache: Cache, node: Pair, e: Entry)
    requires Nodes(data, cache) && node.first == e.key
    requires node.second.Valid() && node.second.Value() == e.vox
    requires forall p | p in data :: p.second != node.second
    ensures Nodes([node] + data, [e] + cache)
  {
    var d := [node] + data;
    forall i, j | 0 <= i < j < |d| ensures d[i].second != d[j].second {
      assert d[j] == data[j - 1];
      assert i > 0 ==> d[i] == data[i - 1];
      assert data[j - 1] in data;
    }
  }

  lemma KeysInFront(e: Entry, cache: Cache)
    requires Unique(KeysOf(cache)) && e.key !in KeysOf(cache)
    ensures Unique(KeysOf([e] + cache))
  {
    UniqueFront(e.key, KeysOf(cache));
    assert KeysOf([e] + cache) == [e.key] + KeysOf(cache);
  }

  // The map evicts when the list reaches the capacity.
  lemma Evicts(e: Entry, cache: Cache, cap: nat)
    requires |cache| <= Room(cap)
    ensures Take([e] + cache, Room(cap))
            == if |cache| + 1 >= cap then ([e] + cache)[..|cache|] else [e] + cache
  {
  }

  lemma RemoveUpdated<T>(s: seq<T>, i: nat, x: T)
    requires i < |s|
    ensures RemoveAt(s[i := x], i) == RemoveAt(s, i)
  {
  }

  lemma {:induction false} NodeAt(data: seq<Pair>, cache: Cache, i: nat)
    requires i < |data| && Nodes(data, cache)
    ensures Position(data, data[i]) == i
  {
  }

  lemma NodesSpliced(data: seq<Pair>, cache: Cache, i: nat)
    requires i < |data| && Nodes(data, cache)
    ensures Nodes([data[i]] + RemoveAt(data, i), [cache[i]] + RemoveAt(cache, i))
  {
    var d, c := [data[i]] + RemoveAt(data, i), [cache[i]] + RemoveAt(cache, i);
    forall j | 0 <= j < |d| ensures Shows(d[j], c[j]) {
      SplicedAt(data, i, j);
      SplicedAt(cache, i, j);
    }
    forall j, k | 0 <= j < k < |d| ensures d[j].second != d[k].second {
      SplicedAt(data, i, j);
      SplicedAt(data, i, k);
    }
  }

  lemma SplicedAt<T>(s: seq<T>, i: nat, j: nat)
    requires i < |s| && j < |s|
    ensures |[s[i]] + RemoveAt(s, i)| == |s|
    ensures ([s[i]] + RemoveAt(s, i))[j] == s[Source(i, j)]
  {
  }

  // The place that element j comes from when element i moves to the front.
  function Source(i: nat, j: nat): nat {
    if j == 0 then i else if j <= i then j - 1 else j
  }

  lemma IndexedSpliced(data: seq<Pair>, grids: map<Cell, Pair>, i: nat)
    requires i < |data| && Indexed(data, grids)
    ensures Indexed([data[i]] + RemoveAt(data, i), grids)
    ensures forall p | p in [data[i]] + RemoveAt(data, i) :: p in data
  {
    var d := [data[i]] + RemoveAt(data, i);
    forall p ensures p in d <==> p in data {
      if p in data {
        var k :| 0 <= k < |data| && data[k] == p;
        assert d[if k == i then 0 else if k < i then k + 1 else k] == p;
      }
    }
  }

  lemma NodesBack(data: seq<Pair>, cache: Cache)
    requires data != [] && Nodes(data, cache)
    ensures Nodes(data[..|data| - 1], cache[..|cache| - 1])
  {
  }

  lemma IndexedBack(data: seq<Pair>, cache: Cache, grids: map<Cell, Pair>)
    requires data != [] && Nodes(data, cache) && Indexed(data, grids) && Unique(KeysOf(cache))
    ensures Indexed(data[..|data| - 1], grids - {data[|data| - 1].first})
  {
    var n := |data| - 1;
    forall i | 0 <= i < n ensures data[i].first != data[n].first {
      assert KeysOf(cache)[i] != KeysOf(cache)[n];
    }
  }

  // What holds of the contents: no more voxels than there is room for, each with a point, every
  // point in its own sub-voxel, and the voxels those touched last, the latest first.
  ghost predicate Sound(cache: Cache, touched: seq<Cell>, s: real, inv: real, cap: nat) {
    && Inverse(s, inv)
    && Resting(cache, cap) && AllOwnCells(cache, s) && AllOccupied(cache)
    && KeysOf(cache) == Take(Recent(touched), Room(cap))
  }

  function Touches(cloud: seq<Point>, inv: real): (r: seq<Cell>)
    ensures |r| == |cloud|
  {
    seq(|cloud|, i requires 0 <= i < |cloud| => VoxelKey(FloorKey(cloud[i], inv)))
  }

  lemma TouchIsSound(cache: Cache, touched: seq<Cell>, pt: Point, s: real, inv: real, cap: nat)
    requires Sound(cache, touched, s, inv, cap)
    ensures Sound(Touch(cache, pt, inv, cap), touched + [VoxelKey(FloorKey(pt, inv))], s, inv, cap)
  {
    var f := FloorKey(pt, inv);
    TouchKeepsForm(cache, f, pt, cap);
    TouchKeepsCells(cache, pt, s, inv, cap);
    TouchKeepsOccupied(cache, pt, inv, cap);
    TouchKeepsRecent(KeysOf(cache), touched, VoxelKey(f), cap);
  }

  // The stored points from place i of the list on.
  ghost function PointsFrom(cache: Cache, i: nat): seq<Point>
    requires WellFormed(cache) && i <= |cache|
  {
    PointsOf(cache[i..])
  }

  lemma {:induction false} PointsFromEnds(cache: Cache)
    requires WellFormed(cache)
    ensures PointsFrom(cache, 0) == PointsOf(cache) && PointsFrom(cache, |cache|) == []
  {
    assert cache[0..] == cache;
  }

  lemma PointsFromNext(cache: Cache, i: nat)
    requires WellFormed(cache) && i < |cache|
    ensures PointsFrom(cache, i) == StoredFrom(cache[i].vox, 0) + PointsFrom(cache, i + 1)
  {
    assert cache[i..][1..] == cache[i + 1..];
  }

  // One line of the table, and on to the next.
  method ScanToNext(voxel_ptr: OctVox?, flat: seq<nat>, at: nat, group_end: nat, fine_key: Cell, point: Point,
                    top_K: KNNHeap<Point>, ghost u: Quest, ghost cells0: seq<Cell>,
                    ghost g: nat, ghost k: nat, ghost data: nat -> Locals, ghost lines: nat -> seq<nat>)
    returns (group_it: nat, ghost cells: seq<Cell>, ghost k': nat)
    requires g < GROUPS && k < NEIGHBORS && Chain(data, lines) && Lists(data, g)
    requires AtLine(flat, at, group_end, k, data, lines) && Reached(top_K, u, cells0, g, k)
    requires Found(voxel_ptr, NeighborKey(fine_key, k), u.world) && u.q == point && u.f == fine_key
    modifies top_K, top_K.dist2_, top_K.points_
    ensures AtLine(flat, group_it, group_end, k', data, lines) && at < group_it
    ensures Reached(top_K, u, cells, g, k')
  {
    ReadLine(flat, at, group_end, g, k, data, lines);
    group_it, cells := ScanLine(voxel_ptr, flat, at, fine_key, point, top_K, u, cells0, g, data(k));
    k' := ToNextLine(flat, group_it, group_end, u.world, fine_key, cells, g, k + 1, data, lines);
  }

  // One line of the table, from its neighbor byte on.
  method ScanLine(voxel_ptr: OctVox?, flat: seq<nat>, at: nat, fine_key: Cell, point: Point, top_K: KNNHeap<Point>,
                  ghost u: Quest, ghost cells0: seq<Cell>, ghost g: nat, ghost ls: Locals)
    returns (group_it: nat, ghost cells: seq<Cell>)
    requires at + 2 + Size(ls) <= |flat| && g < GROUPS && flat[at] < NEIGHBORS && flat[at + 1] == Size(ls)
    requires Reading(flat, at + 2, ls) && Remaining(ls, g, flat[at], 0)
    requires Found(voxel_ptr, NeighborKey(fine_key, flat[at]), u.world) && u.q == point && u.f == fine_key
    requires Reached(top_K, u, cells0, g, flat[at])
    modifies top_K, top_K.dist2_, top_K.points_
    ensures group_it == at + 2 + Size(ls) && Reached(top_K, u, cells, g, flat[at] + 1)
  {
    var neighbor_idx: nat := flat[at];
    var data_size: nat := flat[at + 1];
    group_it := at + 2;
    if voxel_ptr != null {
      group_it, cells := ScanVoxel(voxel_ptr, flat, group_it, data_size, LocalIdx(fine_key), point, top_K,
                                   u, cells0, g, neighbor_idx, ls);
    } else {
      group_it := group_it + data_size;
      cells := cells0;
      ProgressAbsent(u.world, fine_key, cells, g, neighbor_idx, 0);
    }
  }

  // Hands the stored points of one line of the table to the heap.
  method ScanVoxel(voxel: OctVox, flat: seq<nat>, from: nat, size: nat, local_idx: nat, point: Point,
                   top_K: KNNHeap<Point>, ghost u: Quest, ghost cells0: seq<Cell>,
                   ghost g: nat, ghost k: nat, ghost ls: Locals)
    returns (group_it: nat, ghost cells: seq<Cell>)
    requires g < GROUPS && k < NEIGHBORS && Reached(top_K, u, cells0, g, k)
    requires Shares(voxel.Value(), NeighborKey(u.f, k), u.world) && u.q == point && local_idx == LocalIdx(u.f)
    requires Remaining(ls, g, k, 0) && size == Size(ls)
    requires Reading(flat, from, ls)
    modifies top_K, top_K.dist2_, top_K.points_
    ensures group_it == from + size && Reached(top_K, u, cells, g, k + 1)
  {
    group_it := from;
    var data_size: nat := size;
    cells := cells0;
    ghost var rest: Locals, at: nat := ls, 0;
    while data_size > 0
      invariant data_size == Size(rest) && group_it + data_size == from + size && Reading(flat, group_it, rest)
      invariant Seeking(top_K, u, cells, g, k, at, rest)
    {
      NextByte(flat, group_it, rest);
      var entry: nat := flat[group_it];
      data_size, group_it := data_size - 1, group_it + 1;
      cells := ScanEntry(voxel, entry, local_idx, point, top_K, u, cells, g, k, at, rest);
      rest, at := rest.rest, entry + 1;
    }
    ProgressUnlisted(u.world, u.f, cells, g, k, at);
  }

  method ScanEntry(voxel: OctVox, entry: nat, local_idx: nat, point: Point, top_K: KNNHeap<Point>,
                   ghost u: Quest, ghost cells0: seq<Cell>,
                   ghost g: nat, ghost k: nat, ghost at: nat, ghost rest: Locals)
    returns (ghost cells: seq<Cell>)
    requires g < GROUPS && k < NEIGHBORS && Seeking(top_K, u, cells0, g, k, at, rest)
    requires Shares(voxel.Value(), NeighborKey(u.f, k), u.world) && u.q == point && local_idx == LocalIdx(u.f)
    requires rest.Cons? && entry == rest.l
    modifies top_K, top_K.dist2_, top_K.points_
    ensures Seeking(top_K, u, cells, g, k, entry + 1, rest.rest)
  {
    ProgressListed(u.world, u.f, cells0, g, k, at, rest);
    EntryDenotes(u.f, k, entry);
    cells := TryEntry(voxel, Xor(entry, local_idx), point, top_K, u, cells0, NeighborKey(u.f, k));
  }

  method TryEntry(voxel: OctVox, entry_idx: nat, point: Point, top_K: KNNHeap<Point>,
                  ghost u: Quest, ghost cells0: seq<Cell>, ghost key: Cell)
    returns (ghost cells: seq<Cell>)
    requires top_K.Valid() && Added(top_K.tried, u, cells0) && u.q == point
    requires Shares(voxel.Value(), key, u.world) && entry_idx < 8
    modifies top_K, top_K.dist2_, top_K.points_
    ensures top_K.Valid() && Added(top_K.tried, u, cells)
    ensures cells == Visited(u.world, cells0, Fine(key, Local(entry_idx)))
  {
    var stored, sub_point := voxel.getPoint(entry_idx);
    if stored {
      var dist2 := Dist2(sub_point, point);
      Dist2Nonneg(sub_point, point);
      OneAdded(top_K.tried, u, cells0, Fine(key, Local(entry_idx)));
      top_K.try_insert(dist2, sub_point);
    }
    cells := Visited(u.world, cells0, Fine(key, Local(entry_idx)));
  }

  method VoxelOut(voxel: OctVox, before: seq<real>, ghost rest: seq<Point>) returns (output: seq<real>)
    requires voxel.Valid()
    ensures output + Floats(rest) == before + Floats(StoredFrom(voxel.Value(), 0) + rest)
  {
    output := before;
    ghost var v := voxel.Value();
    for l := 0 to 8
      invariant output + Floats(StoredFrom(v, l) + rest) == before + Floats(StoredFrom(v, 0) + rest)
    {
      var ok, point := voxel.getPoint(l);
      PointOut(output, v, l, rest);
      if ok {
        output := output + [point.x, point.y, point.z];
      }
    }
    assert StoredFrom(v, 8) + rest == rest;
  }

  method ReadTriples(input: seq<real>) returns (cloud_world: seq<Point>)
    ensures cloud_world == Triples(input)
  {
    var num_points := |input| / 3;
    cloud_world := [];
    for i := 0 to num_points
      invariant cloud_world + Triples(input[3 * i..]) == Triples(input)
    {
      var point := Point(input[i * 3], input[i * 3 + 1], input[i * 3 + 2]);
      NextTriple(input, i);
      cloud_world := cloud_world + [point];
    }
  }

  lemma {:induction false} NextPoint(cloud: seq<Point>, i: nat, cache: Cache, t: seq<Cell>, inv: real, cap: nat)
    requires i < |cloud| && Resting(cache, cap)
    ensures Resting(Touch(cache, cloud[i], inv, cap), cap)
    ensures InsertAll(cache, cloud[i..], inv, cap)
              == InsertAll(Touch(cache, cloud[i], inv, cap), cloud[i + 1..], inv, cap)
    ensures t + Touches(cloud[..i + 1], inv) == t + Touches(cloud[..i], inv) + [VoxelKey(FloorKey(cloud[i], inv))]
  {
    TouchKeepsForm(cache, FloorKey(cloud[i], inv), cloud[i], cap);
    assert cloud[i..][1..] == cloud[i + 1..];
    assert Touches(cloud[..i + 1], inv) == Touches(cloud[..i], inv) + [VoxelKey(FloorKey(cloud[i], inv))];
  }

  lemma PointOut(output: seq<real>, v: Voxel, l: nat, rest: seq<Point>)
    requires Shaped(v) && l < 8
    ensures output + Floats(StoredFrom(v, l) + rest)
            == (if v.counts[l] != 0 then output + [v.points[l].x, v.points[l].y, v.points[l].z] else output)
               + Floats(StoredFrom(v, l + 1) + rest)
  {
    var after := StoredFrom(v, l + 1) + rest;
    if v.counts[l] != 0 {
      assert StoredFrom(v, l) + rest == [v.points[l]] + after;
      FloatsOnTop(output, v.points[l], after);
    } else {
      assert StoredFrom(v, l) + rest == after;
    }
  }

  lemma {:induction false} FloatsOnTop(output: seq<real>, p: Point, after: seq<Point>)
    ensures output + Floats([p] + after) == output + [p.x, p.y, p.z] + Floats(after)
  {
    assert ([p] + after)[1..] == after;
    assert Floats([p] + after) == [p.x, p.y, p.z] + Floats(after);
  }

  lemma NextTriple(input: seq<real>, i: nat)
    requires 3 * i + 3 <= |input|
    ensures Triples(input[3 * i..])
              == [Point(input[i * 3], input[i * 3 + 1], input[i * 3 + 2])] + Triples(input[3 * (i + 1)..])
  {
    assert input[3 * i..][3..] == input[3 * (i + 1)..];
  }

  lemma {:induction false} KeyIndexed(data: seq<Pair>, cache: Cache, grids: map<Cell, Pair>, key: Cell)
    requires Nodes(data, cache) && Indexed(data, grids)
    ensures key in grids <==> key in KeysOf(cache)
    ensures key in grids ==> Position(KeysOf(cache), key) < |cache| && data[Position(KeysOf(cache), key)] == grids[key]
  {
    assert forall i | 0 <= i < |data| :: Shows(data[i], cache[i]);
    if key in grids {
      var i :| 0 <= i < |data| && data[i] == grids[key];
      assert Shows(data[i], cache[i]);
      assert KeysOf(cache)[i] == key;
      var j := Position(KeysOf(cache), key);
      assert data[j] in data && Shows(data[j], cache[j]);
    }
    if key in KeysOf(cache) {
      var i :| 0 <= i < |cache| && KeysOf(cache)[i] == key;
      assert data[i] in data && Shows(data[i], cache[i]);
    }
  }

  ghost predicate Shows(p: Pair, e: Entry)
    reads p.second
  {
    p.first == e.key && p.second.Valid() && p.second.Value() == e.vox
  }

  // What a lookup of a voxel finds.
  ghost predicate Found(voxel_ptr: OctVox?, key: Cell, world: map<Cell, Point>)
    reads voxel_ptr
  {
    if voxel_ptr == null then forall c | c in world :: VoxelKey(c) != key
    else Shares(voxel_ptr.Value(), key, world)
  }

  ghost predicate AllFound(ptrs: seq<OctVox?>, keys: seq<Cell>, world: map<Cell, Point>)
    reads set v | v in ptrs
  {
    |ptrs| == |keys| && forall k | 0 <= k < |ptrs| :: Found(ptrs[k], keys[k], world)
  }

  lemma AllFoundMore(ptrs: seq<OctVox?>, voxel_ptr: OctVox?, keys: seq<Cell>, key: Cell, world: map<Cell, Point>)
    requires AllFound(ptrs, keys, world) && Found(voxel_ptr, key, world)
    ensures AllFound(ptrs + [voxel_ptr], keys + [key], world)
  {
  }

  // The list shows the cache, each entry in a node of its own.
  ghost predicate Nodes(data: seq<Pair>, cache: Cache)
    reads set p | p in data :: p.second
  {
    && |data| == |cache|
    && (forall i | 0 <= i < |data| :: Shows(data[i], cache[i]))
    && (forall i, j | 0 <= i < j < |data| :: data[i].second != data[j].second)
  }

  // The index leads from every key in the list to its node, and from nothing else.
  ghost predicate Indexed(data: seq<Pair>, grids: map<Cell, Pair>) {
    && (forall p | p in data :: p.first in grids && grids[p.first] == p)
    && (forall k | k in grids :: grids[k] in data && grids[k].first == k)
  }
}
