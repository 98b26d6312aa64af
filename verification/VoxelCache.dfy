// The contents of the OctVoxMap as a value: voxels in list order, most recent first, and what a
// point does to them.
module VoxelCache {
  import opened Basics
  import opened KnnTables
  import opened VoxelGeometry

  const MAX_POINTS_PER_SUBVOXEL := 20
  const DISTANCE_THRESHOLD_SQ := 0.01

  const ORIGIN := Point(0.0, 0.0, 0.0)

  datatype Voxel = Voxel(counts: seq<int>, points: seq<Point>)

  datatype Entry = Entry(key: Cell, vox: Voxel)

  type Cache = seq<Entry>

  // ---- lists ----

  function RemoveAt<T>(s: seq<T>, i: nat): seq<T> {
    if i < |s| then s[..i] + s[i + 1..] else s
  }

  function Without<T(==)>(s: seq<T>, x: T): seq<T> {
    RemoveAt(s, Position(s, x))
  }

  function Take<T>(s: seq<T>, n: nat): seq<T> {
    if n <= |s| then s[..n] else s
  }

  // ---- one voxel ----

  function Fresh(pt: Point, l: nat): Voxel
    requires l < 8
  {
    Voxel([0, 0, 0, 0, 0, 0, 0, 0][l := 1],
          [ORIGIN, ORIGIN, ORIGIN, ORIGIN, ORIGIN, ORIGIN, ORIGIN, ORIGIN][l := pt])
  }

  // (m * count + pt) / (count + 1)
  function MeanStep(m: real, n: int, v: real): real
    requires n >= 0
  {
    (m * n as real + v) / (n + 1) as real
  }

  function NewMean(m: Point, n: int, pt: Point): Point
    requires n >= 0
  {
    Point(MeanStep(m.x, n, pt.x), MeanStep(m.y, n, pt.y), MeanStep(m.z, n, pt.z))
  }

  predicate Shaped(v: Voxel) {
    |v.counts| == 8 && |v.points| == 8
    && forall l | 0 <= l < 8 :: 0 <= v.counts[l] <= MAX_POINTS_PER_SUBVOXEL
  }

  predicate Accepts(v: Voxel, pt: Point, l: nat)
    requires Shaped(v) && l < 8
  {
    v.counts[l] == 0
    || (v.counts[l] < MAX_POINTS_PER_SUBVOXEL && Dist2(pt, v.points[l]) <= DISTANCE_THRESHOLD_SQ)
  }

  function Add(v: Voxel, pt: Point, l: nat): Voxel
    requires Shaped(v) && l < 8
  {
    if !Accepts(v, pt, l) then v
    else if v.counts[l] == 0 then Voxel(v.counts[l := 1], v.points[l := pt])
    else Voxel(v.counts[l := v.counts[l] + 1], v.points[l := NewMean(v.points[l], v.counts[l], pt)])
  }

  // ---- the whole cache ----

  function KeysOf(cache: Cache): (ks: seq<Cell>)
    ensures |ks| == |cache|
    ensures forall i | 0 <= i < |cache| :: ks[i] == cache[i].key
  {
    seq(|cache|, i requires 0 <= i < |cache| => cache[i].key)
  }

  ghost predicate WellFormed(cache: Cache) {
    Unique(KeysOf(cache)) && forall i | 0 <= i < |cache| :: Shaped(cache[i].vox)
  }

  // The number of voxels the map can hold: it evicts when the list reaches the capacity.
  function Room(cap: nat): nat {
    if cap <= 1 then 0 else cap - 1
  }

  function TouchAt(cache: Cache, f: Cell, pt: Point, cap: nat): Cache
    requires WellFormed(cache)
  {
    var key, l := VoxelKey(f), LocalIdx(f);
    var i := Position(KeysOf(cache), key);
    if i == |cache| then Take([Entry(key, Fresh(pt, l))] + cache, Room(cap))
    else [Entry(key, Add(cache[i].vox, pt, l))] + RemoveAt(cache, i)
  }

  function Touch(cache: Cache, pt: Point, inv: real, cap: nat): Cache
    requires WellFormed(cache)
  {
    TouchAt(cache, FloorKey(pt, inv), pt, cap)
  }

  lemma TouchKeepsForm(cache: Cache, f: Cell, pt: Point, cap: nat)
    requires WellFormed(cache) && |cache| <= Room(cap)
    ensures WellFormed(TouchAt(cache, f, pt, cap)) && |TouchAt(cache, f, pt, cap)| <= Room(cap)
    ensures KeysOf(TouchAt(cache, f, pt, cap)) == TouchKeys(KeysOf(cache), VoxelKey(f), cap)
  {
    if Position(KeysOf(cache), VoxelKey(f)) == |cache| {
      TouchNewKeepsForm(cache, f, pt, cap);
    } else {
      TouchOldKeepsForm(cache, f, pt, cap);
    }
  }

  lemma TouchNewKeepsForm(cache: Cache, f: Cell, pt: Point, cap: nat)
    requires WellFormed(cache) && |cache| <= Room(cap)
    requires Position(KeysOf(cache), VoxelKey(f)) == |cache|
    ensures WellFormed(TouchAt(cache, f, pt, cap)) && |TouchAt(cache, f, pt, cap)| <= Room(cap)
    ensures KeysOf(TouchAt(cache, f, pt, cap)) == TouchKeys(KeysOf(cache), VoxelKey(f), cap)
  {
    var key, ks := VoxelKey(f), KeysOf(cache);
    assert key !in ks;
    UniqueFront(key, ks);
    UniquePart([key] + ks, |Take([key] + ks, Room(cap))|);
    assert KeysOf(TouchAt(cache, f, pt, cap)) == Take([key] + ks, Room(cap));
  }

  lemma TouchOldKeepsForm(cache: Cache, f: Cell, pt: Point, cap: nat)
    requires WellFormed(cache) && |cache| <= Room(cap)
    requires Position(KeysOf(cache), VoxelKey(f)) < |cache|
    ensures WellFormed(TouchAt(cache, f, pt, cap)) && |TouchAt(cache, f, pt, cap)| <= Room(cap)
    ensures KeysOf(TouchAt(cache, f, pt, cap)) == TouchKeys(KeysOf(cache), VoxelKey(f), cap)
  {
    var key, l, ks := VoxelKey(f), LocalIdx(f), KeysOf(cache);
    var i := Position(ks, key);
    OnTop(cache, i, Entry(key, Add(cache[i].vox, pt, l)));
  }

  lemma OnTop(cache: Cache, i: nat, e: Entry)
    requires WellFormed(cache) && i < |cache| && e.key == cache[i].key && Shaped(e.vox)
    ensures WellFormed([e] + RemoveAt(cache, i)) && |[e] + RemoveAt(cache, i)| == |cache|
    ensures KeysOf([e] + RemoveAt(cache, i)) == [e.key] + RemoveAt(KeysOf(cache), i)
  {
    KeysRemoved(cache, i);
    KeysFront(RemoveAt(cache, i), e);
    OnTopUnique(KeysOf(cache), i);
    ShapedRemoved(cache, i);
  }

  lemma KeysFront(cache: Cache, e: Entry)
    ensures KeysOf([e] + cache) == [e.key] + KeysOf(cache)
  {
  }

  lemma KeysRemoved(cache: Cache, i: nat)
    requires i < |cache|
    ensures KeysOf(RemoveAt(cache, i)) == RemoveAt(KeysOf(cache), i)
  {
    forall j: nat | j + 1 < |cache|
      ensures KeysOf(RemoveAt(cache, i))[j] == RemoveAt(KeysOf(cache), i)[j]
    {
      RemovedAt(cache, i, j);
      RemovedAt(KeysOf(cache), i, j);
    }
  }

  lemma RemovedAt<T>(s: seq<T>, i: nat, j: nat)
    requires i < |s| && j + 1 < |s|
    ensures |RemoveAt(s, i)| == |s| - 1 && RemoveAt(s, i)[j] == s[if j < i then j else j + 1]
  {
  }

  lemma ShapedRemoved(cache: Cache, i: nat)
    requires i < |cache| && forall j | 0 <= j < |cache| :: Shaped(cache[j].vox)
    ensures forall j | 0 <= j < |RemoveAt(cache, i)| :: Shaped(RemoveAt(cache, i)[j].vox)
  {
  }

  lemma OnTopUnique(ks: seq<Cell>, i: nat)
    requires Unique(ks) && i < |ks|
    ensures Unique([ks[i]] + RemoveAt(ks, i))
  {
    UniqueWithout(ks, i);
    UniqueFront(ks[i], RemoveAt(ks, i));
  }

  function TouchKeys(ks: seq<Cell>, key: Cell, cap: nat): seq<Cell> {
    if key in ks then [key] + Without(ks, key) else Take([key] + ks, Room(cap))
  }

  ghost predicate Resting(cache: Cache, cap: nat) {
    WellFormed(cache) && |cache| <= Room(cap)
  }

  function InsertAll(cache: Cache, cloud: seq<Point>, inv: real, cap: nat): (r: Cache)
    requires Resting(cache, cap)
    ensures Resting(r, cap)
    decreases |cloud|
  {
    if cloud == [] then cache
    else
      TouchKeepsForm(cache, FloorKey(cloud[0], inv), cloud[0], cap);
      InsertAll(Touch(cache, cloud[0], inv, cap), cloud[1..], inv, cap)
  }

  lemma {:induction false} InsertAllSplits(cache: Cache, a: seq<Point>, b: seq<Point>, inv: real, cap: nat)
    requires Resting(cache, cap)
    ensures InsertAll(cache, a + b, inv, cap) == InsertAll(InsertAll(cache, a, inv, cap), b, inv, cap)
    decreases |a|
  {
    if a == [] {
      assert a + b == b;
    } else {
      TouchKeepsForm(cache, FloorKey(a[0], inv), a[0], cap);
      assert (a + b)[0] == a[0] && (a + b)[1..] == a[1..] + b;
      InsertAllSplits(Touch(cache, a[0], inv, cap), a[1..], b, inv, cap);
    }
  }

  // ---- which voxels are resident ----

  // The distinct elements of a history, the latest touched first.
  function Recent(h: seq<Cell>): seq<Cell> {
    if h == [] then [] else [h[|h| - 1]] + Without(Recent(h[..|h| - 1]), h[|h| - 1])
  }

  // The place of the last occurrence of x, counted from 1; 0 if there is none.
  function LastTouch(h: seq<Cell>, x: Cell): nat {
    if h == [] then 0 else if h[|h| - 1] == x then |h| else LastTouch(h[..|h| - 1], x)
  }

  ghost predicate ByLastTouch(h: seq<Cell>, r: seq<Cell>) {
    && (forall x :: x in r <==> x in h)
    && (forall i: nat, j: nat :: i < j < |r| ==> Later(h, r, i, j))
  }

  // Key i of the list was touched after key j.
  ghost predicate Later(h: seq<Cell>, r: seq<Cell>, i: nat, j: nat)
    requires i < |r| && j < |r|
  {
    LastTouch(h, r[i]) > LastTouch(h, r[j])
  }

  // Recent lists every key of the history, by its last touch, latest first.
  lemma {:induction false} RecentIsByLastTouch(h: seq<Cell>)
    ensures ByLastTouch(h, Recent(h)) && Unique(Recent(h))
  {
    if h != [] {
      var h', x := h[..|h| - 1], h[|h| - 1];
      RecentIsByLastTouch(h');
      assert h == h' + [x];
      WithoutIs(Recent(h'), x);
      UniqueFront(x, Without(Recent(h'), x));
      TouchOnTop(h', Recent(h'), Without(Recent(h'), x), x, h);
    }
  }

  lemma TouchOnTop(h: seq<Cell>, r: seq<Cell>, w: seq<Cell>, x: Cell, h': seq<Cell>)
    requires ByLastTouch(h, r) && w == Without(r, x) && h' == h + [x]
    requires forall y :: y in w <==> y in r && y != x
    ensures ByLastTouch(h', [x] + w)
  {
    var r' := [x] + w;
    forall i: nat, j: nat | i < j < |r'|
      ensures Later(h', r', i, j)
    {
      assert w[j - 1] in w;
      if i == 0 {
        TouchedBefore(h, x, w[j - 1]);
      } else {
        assert w[i - 1] in w;
        StillAbove(h, r, x, i - 1, j - 1);
      }
    }
  }

  lemma {:induction false} StillAbove(h: seq<Cell>, r: seq<Cell>, x: Cell, i: nat, j: nat)
    requires ByLastTouch(h, r) && i < j < |Without(r, x)| && Without(r, x)[i] != x && Without(r, x)[j] != x
    ensures LastTouch(h + [x], Without(r, x)[i]) > LastTouch(h + [x], Without(r, x)[j])
  {
    TouchedBefore(h, x, Without(r, x)[i]);
    TouchedBefore(h, x, Without(r, x)[j]);
    OrderKept(h, r, x, i, j);
  }

  lemma {:induction false} TouchedBefore(h: seq<Cell>, x: Cell, y: Cell)
    requires x != y
    ensures LastTouch(h + [x], y) == LastTouch(h, y) < LastTouch(h + [x], x)
  {
    assert (h + [x])[..|h|] == h;
    LastTouchBound(h, y);
  }

  lemma {:induction false} LastTouchBound(h: seq<Cell>, x: Cell)
    ensures LastTouch(h, x) <= |h|
  {
    if h != [] { LastTouchBound(h[..|h| - 1], x); }
  }

  lemma {:induction false} OrderKept(h: seq<Cell>, r: seq<Cell>, x: Cell, i: nat, j: nat)
    requires ByLastTouch(h, r) && i < j < |Without(r, x)|
    ensures Later(h, Without(r, x), i, j)
  {
    var k := Position(r, x);
    assert Later(h, r, if i < k then i else i + 1, if j < k then j else j + 1);
    if k < |r| {
      RemovedAt(r, k, i);
      RemovedAt(r, k, j);
    }
  }

  lemma WithoutIs(r: seq<Cell>, x: Cell)
    requires Unique(r)
    ensures forall y :: y in Without(r, x) <==> y in r && y != x
    ensures Unique(Without(r, x))
    ensures |Without(r, x)| <= |r| && (x in r ==> |Without(r, x)| == |r| - 1)
  {
    var k := Position(r, x);
    if k < |r| {
      UniqueWithout(r, k);
      assert r == r[..k] + [x] + r[k + 1..];
    }
  }

  lemma TakeOnTop<T>(x: T, s: seq<T>, n: nat)
    ensures Take([x] + s, n) == if n == 0 then [] else [x] + Take(s, n - 1)
  {
  }

  lemma TakeRemoved<T>(s: seq<T>, k: nat, n: nat)
    requires n > 0
    ensures Take(RemoveAt(s, k), n - 1) == if k < n then Take(RemoveAt(Take(s, n), k), n - 1) else Take(s, n - 1)
  {
  }

  // One touch of a cache that holds the most recent keys leaves it holding the most recent keys.
  lemma {:induction false} TouchKeepsRecent(ks: seq<Cell>, h: seq<Cell>, key: Cell, cap: nat)
    requires ks == Take(Recent(h), Room(cap))
    ensures TouchKeys(ks, key, cap) == Take(Recent(h + [key]), Room(cap))
  {
    RecentMore(h, key);
    var r, n := Recent(h), Room(cap);
    TakeOnTop(key, Without(r, key), n);
    if key in ks {
      FoundInPart(r, ks, key, n);
    } else {
      TakeOnTop(key, ks, n);
      if n > 0 { NotInPart(r, ks, key, n); }
    }
  }

  lemma {:induction false} RecentMore(h: seq<Cell>, key: Cell)
    ensures Recent(h + [key]) == [key] + Without(Recent(h), key)
  {
    assert (h + [key])[..|h|] == h;
  }

  lemma {:induction false} FoundInPart(r: seq<Cell>, ks: seq<Cell>, key: Cell, n: nat)
    requires ks == Take(r, n) && key in ks
    ensures n > 0 && Take(Without(r, key), n - 1) == Without(ks, key)
  {
    SamePlace(r, ks, key, n);
    TakeRemoved(r, Position(r, key), n);
    assert Take(Without(ks, key), n - 1) == Without(ks, key);
  }

  lemma {:induction false} SamePlace(r: seq<Cell>, ks: seq<Cell>, key: Cell, n: nat)
    requires ks == Take(r, n) && key in ks
    ensures Position(ks, key) == Position(r, key) < |ks| <= n
  {
  }

  lemma {:induction false} NotInPart(r: seq<Cell>, ks: seq<Cell>, key: Cell, n: nat)
    requires ks == Take(r, n) && key !in ks && n > 0
    ensures Take(Without(r, key), n - 1) == Take(ks, n - 1)
  {
    assert Position(r, key) >= |ks|;
    TakeRemoved(r, Position(r, key), n);
    assert Take(ks, n - 1) == Take(r, n - 1);
  }

  // The map holds the voxels touched last, as many as there are but at most the capacity less one.
  lemma {:induction false} HoldsCapacityLessOne(cache: Cache, h: seq<Cell>, cap: nat)
    requires KeysOf(cache) == Take(Recent(h), Room(cap))
    ensures |cache| == if |Recent(h)| < cap then |Recent(h)| else if cap == 0 then 0 else cap - 1
  {
  }
}
