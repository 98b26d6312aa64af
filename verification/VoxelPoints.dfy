// What one point does to the stored points and their counts, sub-voxel by sub-voxel.
module VoxelPoints {
  import opened Basics
  import opened KnnTables
  import opened VoxelGeometry
  import opened VoxelCache
  import opened VoxelContents

  // How many points the sub-voxel has taken in.
  function CountAt(cache: Cache, c: Cell): nat
    requires WellFormed(cache)
  {
    var i := Position(KeysOf(cache), VoxelKey(c));
    if i < |cache| then cache[i].vox.counts[LocalIdx(c)] else 0
  }

  lemma StoredBy(cache: Cache, e: Entry, c: Cell)
    requires WellFormed(cache) && e in cache && e.key == VoxelKey(c)
    ensures CountAt(cache, c) == e.vox.counts[LocalIdx(c)]
    ensures Stored(cache, c) <==> e.vox.counts[LocalIdx(c)] != 0
    ensures Stored(cache, c) ==> PointAt(cache, c) == e.vox.points[LocalIdx(c)]
  {
    var i :| 0 <= i < |cache| && cache[i] == e;
    EntryIndex(cache, i);
  }

  lemma EntryHasKey(cache: Cache, x: Entry)
    ensures x in cache ==> x.key in KeysOf(cache)
  {
    if x in cache {
      var i :| 0 <= i < |cache| && cache[i] == x;
      assert KeysOf(cache)[i] == x.key;
    }
  }

  // The cache with some of the entries of other keys.
  ghost predicate Others(cache: Cache, key: Cell, rest: Cache) {
    forall x :: x in rest ==> x in cache && x.key != key
  }

  lemma {:induction false} RemovedOthers(cache: Cache, i: nat)
    requires WellFormed(cache) && i < |cache|
    ensures Others(cache, cache[i].key, RemoveAt(cache, i))
  {
    OnePlace(KeysOf(cache), i);
    var rest := RemoveAt(cache, i);
    forall x
      ensures x in rest ==> x in cache && x.key != cache[i].key
    {
      if x in rest {
        var j :| 0 <= j < |rest| && rest[j] == x;
        RemovedAt(cache, i, j);
        assert KeysOf(cache)[if j < i then j else j + 1] != KeysOf(cache)[i];
      }
    }
  }

  lemma PartOthers(cache: Cache, key: Cell, n: nat)
    requires key !in KeysOf(cache)
    ensures Others(cache, key, Take(cache, n))
  {
    forall x | x in Take(cache, n)
      ensures x in cache && x.key != key
    {
      EntryHasKey(cache, x);
    }
  }

  // A point touches one voxel, which comes to the front, and leaves the other voxels as they are.
  lemma {:induction false} TouchedEntry(cache: Cache, f: Cell, pt: Point, cap: nat) returns (e: Entry, rest: Cache)
    requires Resting(cache, cap) && cap >= 2
    ensures TouchAt(cache, f, pt, cap) == [e] + rest && e.key == VoxelKey(f) && Others(cache, e.key, rest)
    ensures Shaped(VoxelUnder(cache, e.key)) && e.vox == Add(VoxelUnder(cache, e.key), pt, LocalIdx(f))
  {
    var key, l, i := VoxelKey(f), LocalIdx(f), Position(KeysOf(cache), VoxelKey(f));
    if i == |cache| {
      e, rest := Entry(key, Fresh(pt, l)), Take(cache, Room(cap) - 1);
      TakeOnTop(e, cache, Room(cap));
      PartOthers(cache, key, Room(cap) - 1);
      FreshIsAdded(VoxelUnder(cache, key), pt, l);
    } else {
      e, rest := Entry(key, Add(cache[i].vox, pt, l)), RemoveAt(cache, i);
      RemovedOthers(cache, i);
    }
  }

  lemma FreshIsAdded(v: Voxel, pt: Point, l: nat)
    requires l < 8 && v == Vacant()
    ensures Shaped(v) && Fresh(pt, l) == Add(v, pt, l)
  {
  }

  // An absent voxel is one that has taken in nothing.
  function Vacant(): Voxel {
    Voxel([0, 0, 0, 0, 0, 0, 0, 0], [ORIGIN, ORIGIN, ORIGIN, ORIGIN, ORIGIN, ORIGIN, ORIGIN, ORIGIN])
  }

  function VoxelUnder(cache: Cache, key: Cell): Voxel {
    var i := Position(KeysOf(cache), key);
    if i < |cache| then cache[i].vox else Vacant()
  }

  lemma CountUnder(cache: Cache, c: Cell)
    requires WellFormed(cache)
    ensures Shaped(VoxelUnder(cache, VoxelKey(c)))
    ensures CountAt(cache, c) == VoxelUnder(cache, VoxelKey(c)).counts[LocalIdx(c)]
    ensures Stored(cache, c) <==> CountAt(cache, c) > 0
    ensures Stored(cache, c) ==> PointAt(cache, c) == VoxelUnder(cache, VoxelKey(c)).points[LocalIdx(c)]
  {
  }

  // What is known of sub-voxel c is the same before and after.
  ghost predicate Same(cache: Cache, after: Cache, c: Cell)
    requires WellFormed(cache) && WellFormed(after)
  {
    && CountAt(after, c) == CountAt(cache, c)
    && (Stored(cache, c) ==> Stored(after, c) && PointAt(after, c) == PointAt(cache, c))
  }

  // Sub-voxel f has taken in one more point pt, and stores the mean.
  ghost predicate Took(cache: Cache, after: Cache, f: Cell, pt: Point)
    requires WellFormed(cache) && WellFormed(after)
  {
    var n := CountAt(cache, f);
    && CountAt(after, f) == n + 1 && Stored(after, f)
    && (n == 0 ==> PointAt(after, f) == pt)
    && (n > 0 ==> MeanOf(PointAt(cache, f), n, pt, PointAt(after, f)))
  }

  // From p, the mean of n points, to q it is one part in n + 1 of the way to pt: q is the mean with pt.
  predicate MeanOf(p: Point, n: int, pt: Point, q: Point) {
    PartOfWay(p.x, n, pt.x, q.x) && PartOfWay(p.y, n, pt.y, q.y) && PartOfWay(p.z, n, pt.z, q.z)
  }

  predicate PartOfWay(p: real, n: int, v: real, q: real) {
    (q - p) * (n + 1) as real == v - p
  }

  lemma NewMeanIs(p: Point, n: int, pt: Point, q: Point)
    requires n > 0 && q == NewMean(p, n, pt)
    ensures MeanOf(p, n, pt, q)
  {
    MeanStepIs(p.x, n, pt.x, q.x);
    MeanStepIs(p.y, n, pt.y, q.y);
    MeanStepIs(p.z, n, pt.z, q.z);
  }

  lemma MeanStepIs(m: real, n: int, v: real, r: real)
    requires n > 0 && r == MeanStep(m, n, v)
    ensures PartOfWay(m, n, v, r) && r * (n + 1) as real == m * n as real + v
  {
    var k := n as real;
    Quotient(m * k + v, k + 1.0);
    OneMore(m, k);
    assert (r - m) * (k + 1.0) == r * (k + 1.0) - m * (k + 1.0);
  }

  // The square of their distance, in hundredths.
  function Hundredths(p: Point, q: Point): real {
    100.0 * ((p.x - q.x) * (p.x - q.x) + (p.y - q.y) * (p.y - q.y) + (p.z - q.z) * (p.z - q.z))
  }

  // A point is taken in by its sub-voxel if that is empty, or has taken in fewer than 20 points and the
  // one stored is at most 0.1 away.
  lemma TouchTakes(cache: Cache, f: Cell, pt: Point, cap: nat)
    requires Resting(cache, cap) && cap >= 2
    ensures var after := TouchAt(cache, f, pt, cap);
      && WellFormed(after) && VoxelKey(f) in KeysOf(after)
      && if CountAt(cache, f) == 0 || (CountAt(cache, f) < 20 && Hundredths(pt, PointAt(cache, f)) <= 1.0)
         then Took(cache, after, f, pt) else Same(cache, after, f)
  {
    TouchKeepsForm(cache, f, pt, cap);
    var after := TouchAt(cache, f, pt, cap);
    var e, rest := TouchedEntry(cache, f, pt, cap);
    assert KeysOf(after)[0] == e.key;
    CountUnder(cache, f);
    StoredBy(after, e, f);
    var v, l := VoxelUnder(cache, e.key), LocalIdx(f);
    AddTakes(v, pt, l);
    if v.counts[l] > 0 && e.vox.counts[l] != v.counts[l] { NewMeanIs(v.points[l], v.counts[l], pt, e.vox.points[l]); }
  }

  // Of the voxels still listed, it changes no other sub-voxel.
  lemma TouchSpares(cache: Cache, f: Cell, pt: Point, cap: nat, c: Cell)
    requires Resting(cache, cap) && cap >= 2 && c != f
    ensures var after := TouchAt(cache, f, pt, cap);
      WellFormed(after) && (VoxelKey(c) in KeysOf(after) ==> Same(cache, after, c))
  {
    TouchKeepsForm(cache, f, pt, cap);
    var after := TouchAt(cache, f, pt, cap);
    var e, rest := TouchedEntry(cache, f, pt, cap);
    if VoxelKey(c) == e.key {
      OtherPart(c, f);
      CountUnder(cache, c);
      StoredBy(after, e, c);
      AddTakes(VoxelUnder(cache, e.key), pt, LocalIdx(f));
    } else if VoxelKey(c) in KeysOf(after) {
      OtherVoxel(cache, after, e, rest, c);
    }
  }

  lemma OtherPart(c: Cell, f: Cell)
    requires VoxelKey(c) == VoxelKey(f) && c != f
    ensures LocalIdx(c) != LocalIdx(f)
  {
    FineFromParts(c);
    FineFromParts(f);
  }

  lemma OtherVoxel(cache: Cache, after: Cache, e: Entry, rest: Cache, c: Cell)
    requires WellFormed(cache) && WellFormed(after) && after == [e] + rest && Others(cache, e.key, rest)
    requires VoxelKey(c) in KeysOf(after) && VoxelKey(c) != e.key
    ensures Same(cache, after, c)
  {
    var i := Position(KeysOf(after), VoxelKey(c));
    var x := after[i];
    assert x in rest;
    StoredBy(cache, x, c);
    StoredBy(after, x, c);
  }

  lemma AddTakes(v: Voxel, pt: Point, l: nat)
    requires Shaped(v) && l < 8
    ensures var w := Add(v, pt, l);
      if v.counts[l] == 0 then w.counts[l] == 1 && w.points[l] == pt
      else if v.counts[l] < 20 && Hundredths(pt, v.points[l]) <= 1.0 then
        w.counts[l] == v.counts[l] + 1 && w.points[l] == NewMean(v.points[l], v.counts[l], pt)
      else w.counts[l] == v.counts[l] && w.points[l] == v.points[l]
    ensures forall j | 0 <= j < 8 && j != l ::
              Add(v, pt, l).counts[j] == v.counts[j] && Add(v, pt, l).points[j] == v.points[j]
  {
  }

  // ---- laws ----

  // A stored point moves by at most 0.05.
  lemma StoredPointMovesLittle(cache: Cache, f: Cell, pt: Point, cap: nat)
    requires Resting(cache, cap) && cap >= 2 && Stored(cache, f)
    ensures var after := TouchAt(cache, f, pt, cap);
      WellFormed(after) && Stored(after, f) && 4.0 * Hundredths(PointAt(after, f), PointAt(cache, f)) <= 1.0
  {
    TouchTakes(cache, f, pt, cap);
    CountUnder(cache, f);
    TakesLittle(cache, TouchAt(cache, f, pt, cap), f, pt);
  }

  lemma TakesLittle(cache: Cache, after: Cache, f: Cell, pt: Point)
    requires WellFormed(cache) && WellFormed(after) && Stored(cache, f) && CountAt(cache, f) > 0
    requires Same(cache, after, f) || (Took(cache, after, f, pt) && Hundredths(pt, PointAt(cache, f)) <= 1.0)
    ensures Stored(after, f) && 4.0 * Hundredths(PointAt(after, f), PointAt(cache, f)) <= 1.0
  {
    if !Same(cache, after, f) {
      MeanMovesLittle(PointAt(cache, f), PointAt(after, f), pt, CountAt(cache, f));
    }
  }

  lemma MeanMovesLittle(p: Point, q: Point, pt: Point, n: int)
    requires n >= 1 && Hundredths(pt, p) <= 1.0 && MeanOf(p, n, pt, q)
    ensures 4.0 * Hundredths(q, p) <= 1.0
  {
    MovesByPart(p.x, n, pt.x, q.x);
    MovesByPart(p.y, n, pt.y, q.y);
    MovesByPart(p.z, n, pt.z, q.z);
    InHundredths(p, q, pt);
  }

  lemma InHundredths(p: Point, q: Point, pt: Point)
    requires 4.0 * Square(q.x - p.x) <= Square(pt.x - p.x) && 4.0 * Square(q.y - p.y) <= Square(pt.y - p.y)
    requires 4.0 * Square(q.z - p.z) <= Square(pt.z - p.z)
    ensures 4.0 * Hundredths(q, p) <= Hundredths(pt, p)
  {
    HundredthsAre(q, p);
    HundredthsAre(pt, p);
  }

  lemma HundredthsAre(p: Point, q: Point)
    ensures Hundredths(p, q) == 100.0 * (Square(p.x - q.x) + Square(p.y - q.y) + Square(p.z - q.z))
  {
  }

  lemma MovesByPart(p: real, n: int, v: real, q: real)
    requires n >= 1 && PartOfWay(p, n, v, q)
    ensures 4.0 * Square(q - p) <= Square(v - p)
  {
    TwiceOrMore(q - p, (n + 1) as real, v - p);
  }

  lemma TwiceOrMore(d: real, n: real, e: real)
    requires n >= 2.0 && d * n == e
    ensures 4.0 * Square(d) <= Square(e)
  {
    if d >= 0.0 {
      ScaleLe(2.0, n, d);
      SquareMonotone(2.0 * d, e);
    } else {
      ScaleLe(2.0, n, -d);
      SquareMonotone(-(2.0 * d), -e);
    }
  }

  // A point more than 0.1 away from the one stored, or one more than 20, leaves all stored points as
  // they are.
  lemma {:induction false} RefusedChangesNothing(cache: Cache, f: Cell, pt: Point, cap: nat)
    requires Resting(cache, cap) && cap >= 2 && Stored(cache, f)
    requires Hundredths(pt, PointAt(cache, f)) > 1.0 || CountAt(cache, f) >= 20
    ensures WellFormed(TouchAt(cache, f, pt, cap)) && World(TouchAt(cache, f, pt, cap)) == World(cache)
  {
    TouchKeepsForm(cache, f, pt, cap);
    forall c
      ensures SameStored(cache, TouchAt(cache, f, pt, cap), c)
    {
      RefusedAt(cache, f, pt, cap, c);
    }
    SameWorlds(cache, TouchAt(cache, f, pt, cap));
  }

  lemma {:induction false} RefusedAt(cache: Cache, f: Cell, pt: Point, cap: nat, c: Cell)
    requires Resting(cache, cap) && cap >= 2 && Stored(cache, f)
    requires Hundredths(pt, PointAt(cache, f)) > 1.0 || CountAt(cache, f) >= 20
    ensures WellFormed(TouchAt(cache, f, pt, cap)) && SameStored(cache, TouchAt(cache, f, pt, cap), c)
  {
    TouchTakes(cache, f, pt, cap);
    CountUnder(cache, f);
    CountUnder(cache, c);
    CountUnder(TouchAt(cache, f, pt, cap), c);
    if c != f {
      TouchSpares(cache, f, pt, cap, c);
      SameKeys(cache, f, pt, cap, VoxelKey(c));
    }
  }

  ghost predicate SameStored(cache: Cache, after: Cache, c: Cell)
    requires WellFormed(cache) && WellFormed(after)
  {
    && (Stored(after, c) <==> Stored(cache, c))
    && (Stored(cache, c) ==> PointAt(after, c) == PointAt(cache, c))
  }

  lemma SameWorlds(cache: Cache, after: Cache)
    requires WellFormed(cache) && WellFormed(after) && forall c :: SameStored(cache, after, c)
    ensures World(after) == World(cache)
  {
    forall c
      ensures c in World(after) <==> c in World(cache)
      ensures c in World(after) ==> World(after)[c] == World(cache)[c]
    {
      assert SameStored(cache, after, c);
    }
  }

  // Without need to evict, a point removes no voxel.
  lemma SameKeys(cache: Cache, f: Cell, pt: Point, cap: nat, key: Cell)
    requires Resting(cache, cap) && (VoxelKey(f) in KeysOf(cache) || |cache| < Room(cap))
    ensures key in KeysOf(TouchAt(cache, f, pt, cap)) <==> key in KeysOf(cache) || key == VoxelKey(f)
  {
    TouchKeepsForm(cache, f, pt, cap);
    var ks, k := KeysOf(cache), VoxelKey(f);
    WithoutIs(ks, k);
    if k !in ks { assert Take([k] + ks, Room(cap)) == [k] + ks; }
  }

  // A point in an empty sub-voxel is stored.
  lemma {:induction false} TouchAddsPoint(cache: Cache, f: Cell, pt: Point, cap: nat)
    requires Resting(cache, cap) && |cache| < Room(cap) && f !in World(cache)
    ensures Resting(TouchAt(cache, f, pt, cap), cap) && |TouchAt(cache, f, pt, cap)| <= |cache| + 1
    ensures World(TouchAt(cache, f, pt, cap)) == World(cache)[f := pt]
  {
    TouchKeepsForm(cache, f, pt, cap);
    forall c
      ensures Shows(cache, TouchAt(cache, f, pt, cap), f, pt, c)
    {
      AddedAt(cache, f, pt, cap, c);
    }
    SameWorld(cache, TouchAt(cache, f, pt, cap), f, pt);
  }

  lemma {:induction false} AddedAt(cache: Cache, f: Cell, pt: Point, cap: nat, c: Cell)
    requires Resting(cache, cap) && |cache| < Room(cap) && !Stored(cache, f)
    ensures WellFormed(TouchAt(cache, f, pt, cap)) && Shows(cache, TouchAt(cache, f, pt, cap), f, pt, c)
  {
    TouchTakes(cache, f, pt, cap);
    CountUnder(cache, c);
    CountUnder(TouchAt(cache, f, pt, cap), c);
    if c == f {
      CountUnder(cache, f);
    } else {
      TouchSpares(cache, f, pt, cap, c);
      SameKeys(cache, f, pt, cap, VoxelKey(c));
    }
  }

  // In sub-voxel c there is what was there before, or the new point.
  ghost predicate Shows(cache: Cache, after: Cache, f: Cell, pt: Point, c: Cell)
    requires WellFormed(cache) && WellFormed(after)
  {
    && (Stored(after, c) <==> c == f || Stored(cache, c))
    && (Stored(after, c) ==> PointAt(after, c) == if c == f then pt else PointAt(cache, c))
  }

  lemma SameWorld(cache: Cache, after: Cache, f: Cell, pt: Point)
    requires WellFormed(cache) && WellFormed(after) && forall c :: Shows(cache, after, f, pt, c)
    ensures World(after) == World(cache)[f := pt]
  {
    forall c
      ensures c in World(after) <==> c == f || c in World(cache)
      ensures c in World(after) ==> World(after)[c] == if c == f then pt else World(cache)[c]
    {
      assert Shows(cache, after, f, pt, c);
    }
  }
}
