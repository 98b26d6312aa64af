// What an OctVoxMap knows: its stored points, where they lie, and what a map saved and loaded
// again keeps of them.
module VoxelContents {
  import opened Basics
  import opened KnnTables
  import opened VoxelGeometry
  import opened VoxelCache

  // ---- every stored point lies in its own sub-voxel ----

  predicate OwnPlace(e: Entry, l: nat, s: real)
    requires Shaped(e.vox) && l < 8
  {
    e.vox.counts[l] != 0 ==> InCell(e.vox.points[l], Fine(e.key, Local(l)), s)
  }

  predicate OwnCells(e: Entry, s: real) {
    Shaped(e.vox) && forall l | 0 <= l < 8 :: OwnPlace(e, l, s)
  }

  predicate AllOwnCells(cache: Cache, s: real) {
    forall i | 0 <= i < |cache| :: OwnCells(cache[i], s)
  }

  lemma MeanInSlab(m: real, n: int, v: real, i: int, s: real)
    requires n > 0 && s > 0.0 && InSlab(m, i, s) && InSlab(v, i, s)
    ensures InSlab(MeanStep(m, n, v), i, s)
  {
    MeanBetween(m, n as real, v, i as real * s, (i + 1) as real * s, MeanStep(m, n, v));
  }

  lemma MeanBetween(m: real, n: real, v: real, lo: real, hi: real, r: real)
    requires n > 0.0 && lo <= m < hi && lo <= v < hi && r == (m * n + v) / (n + 1.0)
    ensures lo <= r < hi
  {
    ScaleLe(lo, m, n);
    ScaleLt(m, hi, n);
    OneMore(lo, n);
    OneMore(hi, n);
    SumsBetween(lo * n, m * n, hi * n, lo, v, hi, lo * (n + 1.0), hi * (n + 1.0));
    QuotientBetween(lo, hi, m * n + v, n + 1.0);
  }

  lemma SumsBetween(a: real, b: real, c: real, lo: real, v: real, hi: real, first: real, last: real)
    requires a <= b < c && lo <= v < hi && first == a + lo && last == c + hi
    ensures first <= b + v < last
  {
  }

  lemma OneMore(x: real, n: real)
    ensures x * (n + 1.0) == x * n + x
  {
  }

  lemma QuotientBetween(lo: real, hi: real, x: real, n: real)
    requires n > 0.0 && lo * n <= x < hi * n
    ensures lo <= x / n < hi
  {
    var r := x / n;
    Quotient(x, n);
    if r < lo { ScaleLt(r, lo, n); }
    if r >= hi { ScaleLe(hi, r, n); }
  }

  lemma Quotient(x: real, n: real)
    requires n > 0.0
    ensures (x / n) * n == x
  {
  }

  lemma NewMeanInCell(m: Point, n: int, pt: Point, f: Cell, s: real)
    requires n > 0 && s > 0.0 && InCell(m, f, s) && InCell(pt, f, s)
    ensures InCell(NewMean(m, n, pt), f, s)
  {
    MeanInSlab(m.x, n, pt.x, f.x, s);
    MeanInSlab(m.y, n, pt.y, f.y, s);
    MeanInSlab(m.z, n, pt.z, f.z, s);
  }

  lemma AddKeepsCells(e: Entry, pt: Point, l: nat, s: real)
    requires s > 0.0 && OwnCells(e, s) && l < 8 && InCell(pt, Fine(e.key, Local(l)), s)
    ensures OwnCells(Entry(e.key, Add(e.vox, pt, l)), s)
  {
    var e' := Entry(e.key, Add(e.vox, pt, l));
    if e.vox.counts[l] > 0 {
      assert OwnPlace(e, l, s);
      NewMeanInCell(e.vox.points[l], e.vox.counts[l], pt, Fine(e.key, Local(l)), s);
    }
    forall j | 0 <= j < 8 ensures OwnPlace(e', j, s) {
      assert OwnPlace(e, j, s);
    }
  }

  lemma TouchKeepsCells(cache: Cache, pt: Point, s: real, inv: real, cap: nat)
    requires Inverse(s, inv) && WellFormed(cache) && AllOwnCells(cache, s)
    ensures AllOwnCells(Touch(cache, pt, inv, cap), s)
  {
    var f := FloorKey(pt, inv);
    var key, l := VoxelKey(f), LocalIdx(f);
    FloorInCell(pt, s, inv);
    FineFromParts(f);
    var i := Position(KeysOf(cache), key);
    if i < |cache| {
      AddKeepsCells(cache[i], pt, l, s);
    } else {
      var e := Entry(key, Fresh(pt, l));
      assert forall j | 0 <= j < 8 :: OwnPlace(e, j, s);
    }
  }

  lemma {:induction false} InsertKeepsCells(cache: Cache, cloud: seq<Point>, s: real, inv: real, cap: nat)
    requires Inverse(s, inv) && Resting(cache, cap) && AllOwnCells(cache, s)
    ensures AllOwnCells(InsertAll(cache, cloud, inv, cap), s)
    decreases |cloud|
  {
    if cloud != [] {
      TouchKeepsForm(cache, FloorKey(cloud[0], inv), cloud[0], cap);
      TouchKeepsCells(cache, cloud[0], s, inv, cap);
      InsertKeepsCells(Touch(cache, cloud[0], inv, cap), cloud[1..], s, inv, cap);
    }
  }

  // ---- the stored points ----

  predicate Stored(cache: Cache, c: Cell)
    requires WellFormed(cache)
  {
    var i := Position(KeysOf(cache), VoxelKey(c));
    i < |cache| && cache[i].vox.counts[LocalIdx(c)] != 0
  }

  function PointAt(cache: Cache, c: Cell): Point
    requires WellFormed(cache) && Stored(cache, c)
  {
    cache[Position(KeysOf(cache), VoxelKey(c))].vox.points[LocalIdx(c)]
  }

  function Cells(cache: Cache): set<Cell>
    requires WellFormed(cache)
  {
    set i, l | 0 <= i < |cache| && 0 <= l < 8 && cache[i].vox.counts[l] != 0 :: Fine(cache[i].key, Local(l))
  }

  lemma EntryIndex(cache: Cache, i: nat)
    requires WellFormed(cache) && i < |cache|
    ensures Position(KeysOf(cache), cache[i].key) == i
  {
    OnePlace(KeysOf(cache), i);
  }

  lemma CellsAreStored(cache: Cache, c: Cell)
    requires WellFormed(cache)
    ensures c in Cells(cache) <==> Stored(cache, c)
  {
    if c in Cells(cache) {
      var i, l :| 0 <= i < |cache| && 0 <= l < 8 && cache[i].vox.counts[l] != 0 && c == Fine(cache[i].key, Local(l));
      PartsOfFine(cache[i].key, l);
      EntryIndex(cache, i);
    }
    if Stored(cache, c) {
      FineFromParts(c);
      var i := Position(KeysOf(cache), VoxelKey(c));
      assert cache[i].vox.counts[LocalIdx(c)] != 0 && c == Fine(cache[i].key, Local(LocalIdx(c)));
    }
  }

  // The stored point of every occupied sub-voxel.
  ghost function World(cache: Cache): (w: map<Cell, Point>)
    requires WellFormed(cache)
    ensures forall c :: c in w <==> Stored(cache, c)
    ensures forall c | c in w :: w[c] == PointAt(cache, c)
  {
    assert forall c :: c in Cells(cache) <==> Stored(cache, c) by {
      forall c ensures c in Cells(cache) <==> Stored(cache, c) {
        CellsAreStored(cache, c);
      }
    }
    map c | c in Cells(cache) :: PointAt(cache, c)
  }

  lemma WorldInCells(cache: Cache, s: real, c: Cell)
    requires WellFormed(cache) && AllOwnCells(cache, s) && c in World(cache)
    ensures InCell(World(cache)[c], c, s)
  {
    FineFromParts(c);
    var i := Position(KeysOf(cache), VoxelKey(c));
    assert OwnCells(cache[i], s);
    assert OwnPlace(cache[i], LocalIdx(c), s);
  }
}
