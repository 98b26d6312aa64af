// getMap and resetMap of OctVoxMap.hpp: the stored points written out as floats and read back,
// and the inserts that are held back after a reset.
module VoxelReset {
  import opened Basics
  import opened KnnTables
  import opened VoxelGeometry
  import opened VoxelCache
  import opened VoxelContents

  // ---- getMap ----

  function StoredFrom(v: Voxel, l: nat): seq<Point>
    requires Shaped(v) && l <= 8
    decreases 8 - l
  {
    if l == 8 then [] else (if v.counts[l] != 0 then [v.points[l]] else []) + StoredFrom(v, l + 1)
  }

  // How many of the sub-voxels from l up to m have a point.
  function OccupiedTo(v: Voxel, l: nat, m: nat): nat
    requires Shaped(v) && l <= m <= 8
    decreases m - l
  {
    if l == m then 0 else (if v.counts[l] != 0 then 1 else 0) + OccupiedTo(v, l + 1, m)
  }

  // The points come in the order of their sub-voxels: behind as many as there are before.
  lemma {:induction false} StoredAt(v: Voxel, l: nat, m: nat)
    requires Shaped(v) && l <= m < 8 && v.counts[m] != 0
    ensures |StoredFrom(v, l)| == OccupiedTo(v, l, 8)
    ensures OccupiedTo(v, l, m) < |StoredFrom(v, l)| && StoredFrom(v, l)[OccupiedTo(v, l, m)] == v.points[m]
    decreases 8 - l
  {
    SizeFrom(v, l);
    if l < m { StoredAt(v, l + 1, m); }
  }

  lemma {:induction false} SizeFrom(v: Voxel, l: nat)
    requires Shaped(v) && l <= 8
    ensures |StoredFrom(v, l)| == OccupiedTo(v, l, 8)
    decreases 8 - l
  {
    if l < 8 { SizeFrom(v, l + 1); }
  }

  function PointsOf(cache: Cache): seq<Point>
    requires forall i | 0 <= i < |cache| :: Shaped(cache[i].vox)
  {
    if cache == [] then [] else StoredFrom(cache[0].vox, 0) + PointsOf(cache[1..])
  }

  function Floats(pts: seq<Point>): (r: seq<real>)
    ensures |r| == 3 * |pts|
  {
    if pts == [] then [] else [pts[0].x, pts[0].y, pts[0].z] + Floats(pts[1..])
  }

  // The points that resetMap reads; floats beyond the last full triple are ignored.
  function Triples(input: seq<real>): seq<Point> {
    if |input| < 3 then [] else [Point(input[0], input[1], input[2])] + Triples(input[3..])
  }

  // Three floats a point: x, y and z.
  lemma {:induction false} FloatsAt(pts: seq<Point>, i: nat)
    requires i < |pts|
    ensures Floats(pts)[3 * i] == pts[i].x && Floats(pts)[3 * i + 1] == pts[i].y && Floats(pts)[3 * i + 2] == pts[i].z
  {
    if i > 0 { FloatsAt(pts[1..], i - 1); }
  }

  lemma {:induction false} TriplesOfFloats(pts: seq<Point>)
    ensures Triples(Floats(pts)) == pts
  {
    if pts != [] {
      assert Floats(pts)[3..] == Floats(pts[1..]);
      TriplesOfFloats(pts[1..]);
    }
  }

  // ---- every voxel in the list has a point ----

  predicate SomeBefore(v: Voxel, n: nat)
    requires Shaped(v) && n <= 8
  {
    exists l :: 0 <= l < n && v.counts[l] != 0
  }

  predicate AllOccupied(cache: Cache)
    requires forall i | 0 <= i < |cache| :: Shaped(cache[i].vox)
  {
    forall i | 0 <= i < |cache| :: SomeBefore(cache[i].vox, 8)
  }

  lemma TouchKeepsOccupied(cache: Cache, pt: Point, inv: real, cap: nat)
    requires Resting(cache, cap) && AllOccupied(cache)
    ensures Resting(Touch(cache, pt, inv, cap), cap) && AllOccupied(Touch(cache, pt, inv, cap))
  {
    var f := FloorKey(pt, inv);
    var key, l := VoxelKey(f), LocalIdx(f);
    TouchKeepsForm(cache, f, pt, cap);
    var i := Position(KeysOf(cache), key);
    if i < |cache| {
      var v := cache[i].vox;
      assert SomeBefore(v, 8);
      var j :| 0 <= j < 8 && v.counts[j] != 0;
      assert Add(v, pt, l).counts[j] != 0;
    } else {
      assert Fresh(pt, l).counts[l] != 0;
    }
  }

  lemma {:induction false} InsertKeepsOccupied(cache: Cache, cloud: seq<Point>, inv: real, cap: nat)
    requires Resting(cache, cap) && AllOccupied(cache)
    ensures AllOccupied(InsertAll(cache, cloud, inv, cap))
    decreases |cloud|
  {
    if cloud != [] {
      TouchKeepsOccupied(cache, cloud[0], inv, cap);
      InsertKeepsOccupied(Touch(cache, cloud[0], inv, cap), cloud[1..], inv, cap);
    }
  }

  // ---- loading the points of one voxel ----

  // The voxel that the stored points of the first n sub-voxels make.
  function Reloaded(v: Voxel, n: nat): (r: Voxel)
    requires Shaped(v) && n <= 8
    ensures Shaped(r)
  {
    Voxel(seq(8, l requires 0 <= l < 8 => if l < n && v.counts[l] != 0 then 1 else 0),
          seq(8, l requires 0 <= l < 8 => if l < n && v.counts[l] != 0 then v.points[l] else ORIGIN))
  }

  function Loaded(acc: Cache, e: Entry, n: nat): Cache
    requires Shaped(e.vox) && n <= 8
  {
    if SomeBefore(e.vox, n) then [Entry(e.key, Reloaded(e.vox, n))] + acc else acc
  }

  lemma LoadedRests(acc: Cache, e: Entry, n: nat, cap: nat)
    requires WellFormed(acc) && e.key !in KeysOf(acc) && |acc| < Room(cap)
    requires Shaped(e.vox) && n <= 8
    ensures Resting(Loaded(acc, e, n), cap)
  {
    if SomeBefore(e.vox, n) {
      assert KeysOf(Loaded(acc, e, n)) == [e.key] + KeysOf(acc);
      UniqueFront(e.key, KeysOf(acc));
    }
  }

  lemma LoadPoint(acc: Cache, e: Entry, n: nat, s: real, inv: real, cap: nat)
    requires Inverse(s, inv) && OwnCells(e, s) && n < 8 && e.vox.counts[n] != 0
    requires WellFormed(acc) && e.key !in KeysOf(acc) && |acc| < Room(cap)
    requires WellFormed(Loaded(acc, e, n))
    ensures Touch(Loaded(acc, e, n), e.vox.points[n], inv, cap) == Loaded(acc, e, n + 1)
  {
    var pt, f := e.vox.points[n], Fine(e.key, Local(n));
    assert OwnPlace(e, n, s);
    FloorIs(pt, s, inv, f);
    PartsOfFine(e.key, n);
    LoadAt(acc, e, n, f, cap);
  }

  lemma LoadAt(acc: Cache, e: Entry, n: nat, f: Cell, cap: nat)
    requires Shaped(e.vox) && n < 8 && e.vox.counts[n] != 0 && VoxelKey(f) == e.key && LocalIdx(f) == n
    requires WellFormed(acc) && e.key !in KeysOf(acc) && |acc| < Room(cap)
    requires WellFormed(Loaded(acc, e, n))
    ensures TouchAt(Loaded(acc, e, n), f, e.vox.points[n], cap) == Loaded(acc, e, n + 1)
  {
    var v, pt, have := e.vox, e.vox.points[n], Loaded(acc, e, n);
    assert SomeBefore(v, n + 1);
    if SomeBefore(v, n) {
      assert KeysOf(have)[0] == e.key;
      assert Position(KeysOf(have), e.key) == 0;
      ReloadedMore(v, n, pt);
      assert RemoveAt(have, 0) == acc;
    } else {
      assert Position(KeysOf(acc), e.key) == |acc|;
      ReloadedFirst(v, n, pt);
    }
  }

  lemma ReloadedMore(v: Voxel, n: nat, pt: Point)
    requires Shaped(v) && n < 8 && v.counts[n] != 0 && pt == v.points[n]
    ensures Add(Reloaded(v, n), pt, n) == Reloaded(v, n + 1)
  {
  }

  lemma ReloadedFirst(v: Voxel, n: nat, pt: Point)
    requires Shaped(v) && n < 8 && v.counts[n] != 0 && pt == v.points[n] && !SomeBefore(v, n)
    ensures Fresh(pt, n) == Reloaded(v, n + 1)
  {
    assert forall l | 0 <= l < n :: v.counts[l] == 0;
  }

  lemma LoadNothing(acc: Cache, e: Entry, n: nat)
    requires Shaped(e.vox) && n < 8 && e.vox.counts[n] == 0
    ensures Loaded(acc, e, n) == Loaded(acc, e, n + 1)
  {
    assert SomeBefore(e.vox, n) == SomeBefore(e.vox, n + 1);
    assert Reloaded(e.vox, n) == Reloaded(e.vox, n + 1);
  }

  lemma {:induction false} LoadVoxel(acc: Cache, e: Entry, n: nat, s: real, inv: real, cap: nat)
    requires Inverse(s, inv) && OwnCells(e, s) && n <= 8
    requires WellFormed(acc) && e.key !in KeysOf(acc) && |acc| < Room(cap)
    ensures Resting(Loaded(acc, e, n), cap)
    ensures InsertAll(Loaded(acc, e, n), StoredFrom(e.vox, n), inv, cap) == Loaded(acc, e, 8)
    decreases 8 - n
  {
    LoadedRests(acc, e, n, cap);
    if n < 8 {
      LoadVoxel(acc, e, n + 1, s, inv, cap);
      if e.vox.counts[n] != 0 {
        LoadPoint(acc, e, n, s, inv, cap);
        var cloud := StoredFrom(e.vox, n);
        assert cloud[0] == e.vox.points[n] && cloud[1..] == StoredFrom(e.vox, n + 1);
      } else {
        LoadNothing(acc, e, n);
        assert StoredFrom(e.vox, n) == StoredFrom(e.vox, n + 1);
      }
    }
  }

  // ---- loading a whole map ----

  function Backwards(cache: Cache): (r: Cache)
    requires forall i | 0 <= i < |cache| :: Shaped(cache[i].vox)
    ensures |r| == |cache|
    ensures forall i | 0 <= i < |r| :: r[i].key == cache[|cache| - 1 - i].key
    ensures forall i | 0 <= i < |r| :: r[i].vox == Reloaded(cache[|cache| - 1 - i].vox, 8)
  {
    if cache == [] then [] else Backwards(cache[1..]) + [Entry(cache[0].key, Reloaded(cache[0].vox, 8))]
  }

  ghost predicate Apart(a: Cache, b: Cache) {
    forall i, j | 0 <= i < |a| && 0 <= j < |b| :: a[i].key != b[j].key
  }

  lemma RestForm(cache: Cache)
    requires WellFormed(cache) && cache != []
    ensures WellFormed(cache[1..]) && forall j | 0 < j < |cache| :: cache[0].key != cache[j].key
  {
    var ks, ks' := KeysOf(cache), KeysOf(cache[1..]);
    forall i: nat, j: nat | i < j < |ks'|
      ensures Unlike(ks', i, j)
    {
      assert Unlike(ks, i + 1, j + 1);
    }
    forall j | 0 < j < |cache|
      ensures cache[0].key != cache[j].key
    {
      assert Unlike(ks, 0, j);
    }
  }

  lemma StillApart(acc: Cache, cache: Cache)
    requires WellFormed(cache) && cache != [] && SomeBefore(cache[0].vox, 8) && Apart(acc, cache)
    ensures WellFormed(cache[1..]) && Apart(Loaded(acc, cache[0], 8), cache[1..])
    ensures cache[0].key !in KeysOf(acc)
  {
    RestForm(cache);
    var e, rest, acc' := cache[0], cache[1..], Loaded(acc, cache[0], 8);
    forall i, j | 0 <= i < |acc'| && 0 <= j < |rest| ensures acc'[i].key != rest[j].key {
      assert rest[j] == cache[j + 1];
      assert i > 0 ==> acc'[i] == acc[i - 1];
    }
  }

  lemma {:induction false} LoadFirst(acc: Cache, cache: Cache, s: real, inv: real, cap: nat)
    requires Inverse(s, inv) && WellFormed(acc) && WellFormed(cache) && Apart(acc, cache) && cache != []
    requires OwnCells(cache[0], s) && SomeBefore(cache[0].vox, 8) && |acc| < Room(cap)
    ensures WellFormed(cache[1..]) && Apart(Loaded(acc, cache[0], 8), cache[1..])
    ensures Resting(Loaded(acc, cache[0], 8), cap)
    ensures InsertAll(acc, PointsOf(cache), inv, cap)
              == InsertAll(Loaded(acc, cache[0], 8), PointsOf(cache[1..]), inv, cap)
  {
    var e := cache[0];
    StillApart(acc, cache);
    LoadVoxel(acc, e, 0, s, inv, cap);
    assert Loaded(acc, e, 0) == acc;
    InsertAllSplits(acc, StoredFrom(e.vox, 0), PointsOf(cache[1..]), inv, cap);
  }

  lemma {:induction false} BackwardsOf(acc: Cache, cache: Cache)
    requires |cache| > 0 && (forall i | 0 <= i < |cache| :: Shaped(cache[i].vox))
    requires SomeBefore(cache[0].vox, 8)
    ensures Backwards(cache[1..]) + Loaded(acc, cache[0], 8) == Backwards(cache) + acc
  {
  }

  lemma {:induction false} LoadAll(acc: Cache, cache: Cache, s: real, inv: real, cap: nat)
    requires Inverse(s, inv) && WellFormed(acc) && WellFormed(cache) && Apart(acc, cache)
    requires AllOwnCells(cache, s) && AllOccupied(cache) && |acc| + |cache| <= Room(cap)
    ensures InsertAll(acc, PointsOf(cache), inv, cap) == Backwards(cache) + acc
    decreases |cache|
  {
    if cache == [] {
      assert Backwards(cache) + acc == acc;
    } else {
      assert OwnCells(cache[0], s) && SomeBefore(cache[0].vox, 8);
      LoadFirst(acc, cache, s, inv, cap);
      LoadAll(Loaded(acc, cache[0], 8), cache[1..], s, inv, cap);
      BackwardsOf(acc, cache);
    }
  }

  lemma {:induction false} BackwardsForm(cache: Cache)
    requires WellFormed(cache)
    ensures WellFormed(Backwards(cache))
  {
    var b := Backwards(cache);
    forall i: nat, j: nat | i < j < |b|
      ensures Unlike(KeysOf(b), i, j)
    {
      assert Unlike(KeysOf(cache), |b| - 1 - j, |b| - 1 - i);
    }
  }

  predicate AgreeAt(w: map<Cell, Point>, w': map<Cell, Point>, c: Cell) {
    (c in w <==> c in w') && (c in w ==> w[c] == w'[c])
  }

  lemma SameMap(w: map<Cell, Point>, w': map<Cell, Point>)
    requires forall c :: AgreeAt(w, w', c)
    ensures w == w'
  {
    assert forall c :: AgreeAt(w, w', c) ==> (c in w <==> c in w');
  }

  lemma {:induction false} BackwardsWorld(cache: Cache)
    requires WellFormed(cache)
    ensures WellFormed(Backwards(cache)) && World(Backwards(cache)) == World(cache)
  {
    BackwardsForm(cache);
    forall c ensures AgreeAt(World(cache), World(Backwards(cache)), c) {
      SameThere(cache, c);
    }
    SameMap(World(cache), World(Backwards(cache)));
  }

  lemma {:induction false} SameThere(cache: Cache, c: Cell)
    requires WellFormed(cache) && WellFormed(Backwards(cache))
    ensures Stored(Backwards(cache), c) == Stored(cache, c)
    ensures Stored(cache, c) ==> PointAt(Backwards(cache), c) == PointAt(cache, c)
  {
    var b, n, key := Backwards(cache), |cache|, VoxelKey(c);
    var i := Position(KeysOf(cache), key);
    if i < n {
      assert b[n - 1 - i].key == key;
      EntryIndex(b, n - 1 - i);
    } else {
      assert forall j | 0 <= j < n :: KeysOf(b)[j] == KeysOf(cache)[n - 1 - j];
      assert Position(KeysOf(b), key) == n;
    }
  }

  // ---- insert and resetMap, with the inserts held back ----

  datatype State = State(cache: Cache, reset_map: bool, reset_map_count: int)

  predicate HoldsBack(st: State) {
    st.reset_map && st.reset_map_count > 1
  }

  function Insert(st: State, cloud: seq<Point>, inv: real, cap: nat): (r: State)
    requires Resting(st.cache, cap)
    ensures Resting(r.cache, cap)
  {
    if HoldsBack(st) then st.(reset_map_count := st.reset_map_count - 1)
    else State(InsertAll(st.cache, cloud, inv, cap), false,
               if st.reset_map then st.reset_map_count - 1 else st.reset_map_count)
  }

  function Reset(st: State, input: seq<real>, inv: real, cap: nat): (r: State)
    requires Resting(st.cache, cap)
    ensures Resting(r.cache, cap)
  {
    if input == [] then st
    else State(Insert(st.(cache := []), Triples(input), inv, cap).cache, true, 10)
  }

  // A map written out and read back holds the same stored points, its voxels in the opposite
  // order, if and only if no earlier reset is still holding inserts back.
  lemma ResetRestores(st: State, s: real, inv: real, cap: nat)
    requires Inverse(s, inv) && Resting(st.cache, cap) && st.cache != []
    requires AllOwnCells(st.cache, s) && AllOccupied(st.cache)
    ensures var after := Reset(st, Floats(PointsOf(st.cache)), inv, cap).cache;
      && (!HoldsBack(st) ==> after == Backwards(st.cache))
      && (HoldsBack(st) ==> after == [])
      && (World(after) == World(st.cache) <==> !HoldsBack(st))
  {
    var pts := PointsOf(st.cache);
    TriplesOfFloats(pts);
    SomePoint(st.cache);
    BackwardsWorld(st.cache);
    if !HoldsBack(st) {
      LoadAll([], st.cache, s, inv, cap);
      assert Backwards(st.cache) + [] == Backwards(st.cache);
    }
  }

  lemma {:induction false} SomePoint(cache: Cache)
    requires WellFormed(cache) && cache != [] && AllOccupied(cache)
    ensures PointsOf(cache) != [] && World(cache) != World([])
  {
    var v := cache[0].vox;
    assert SomeBefore(v, 8);
    var l :| 0 <= l < 8 && v.counts[l] != 0;
    StoredFromHas(v, l, 0);
    SomeStored(cache, l);
    NothingStored(Fine(cache[0].key, Local(l)));
  }

  lemma NothingStored(c: Cell)
    ensures c !in World([])
  {
  }

  lemma SomeStored(cache: Cache, l: nat)
    requires WellFormed(cache) && cache != [] && l < 8 && cache[0].vox.counts[l] != 0
    ensures Fine(cache[0].key, Local(l)) in World(cache)
  {
    PartsOfFine(cache[0].key, l);
    EntryIndex(cache, 0);
  }

  lemma {:induction false} StoredFromHas(v: Voxel, l: nat, n: nat)
    requires Shaped(v) && n <= l < 8 && v.counts[l] != 0
    ensures StoredFrom(v, n) != []
    decreases 8 - n
  {
    if n < l { StoredFromHas(v, l, n + 1); }
  }

  // ---- the inserts after a reset ----

  function InsertEach(st: State, clouds: seq<seq<Point>>, inv: real, cap: nat): (r: State)
    requires Resting(st.cache, cap)
    ensures Resting(r.cache, cap)
    decreases |clouds|
  {
    if clouds == [] then st else InsertEach(Insert(st, clouds[0], inv, cap), clouds[1..], inv, cap)
  }

  lemma {:induction false} HeldBack(st: State, clouds: seq<seq<Point>>, inv: real, cap: nat)
    requires Resting(st.cache, cap) && st.reset_map && |clouds| < st.reset_map_count
    ensures InsertEach(st, clouds, inv, cap) == st.(reset_map_count := st.reset_map_count - |clouds|)
    decreases |clouds|
  {
    if clouds != [] {
      HeldBack(Insert(st, clouds[0], inv, cap), clouds[1..], inv, cap);
    }
  }

  // Nine inserts after a reset have no effect; from the tenth on the map takes points again.
  lemma {:induction false} TenthInsertCounts(st: State, input: seq<real>, clouds: seq<seq<Point>>, cloud: seq<Point>,
                                             inv: real, cap: nat)
    requires Resting(st.cache, cap) && input != [] && |clouds| <= 9
    ensures var st0 := Reset(st, input, inv, cap);
      && InsertEach(st0, clouds, inv, cap).cache == st0.cache
      && (|clouds| == 9 ==>
          Insert(InsertEach(st0, clouds, inv, cap), cloud, inv, cap)
          == State(InsertAll(st0.cache, cloud, inv, cap), false, 0))
  {
    HeldBack(Reset(st, input, inv, cap), clouds, inv, cap);
  }
}
