// VoxelGridClosest of VoxelGridFilter.h: one point of every occupied voxel, the one closest to the
// voxel's centre, found under a key that packs the voxel's indices into one word.
module PackedKey {
  import opened KnnTables
  import opened Words
  import opened GrowthPolicy

  // std::size_t(i)
  function Unsigned(i: int): nat {
    i % 0x1_0000_0000_0000_0000
  }

  const SHIFT_15 := 0x8000       // 1 << 15
  const SHIFT_30 := 0x4000_0000  // 1 << 30

  // a << n, where p is 1 << n
  function ShiftLeft(a: nat, p: nat): nat {
    a * p % 0x1_0000_0000_0000_0000
  }

  // The key of a voxel, from its indices after the offset has been added.
  function Key(c: Cell): nat {
    Or(Or(ShiftLeft(Unsigned(c.z), SHIFT_30), ShiftLeft(Unsigned(c.y), SHIFT_15)), Unsigned(c.x))
  }

  lemma {:induction false} OrAdds(a: nat, b: nat, n: nat)
    requires b < Power(n)
    ensures Or(a * Power(n), b) == a * Power(n) + b
    decreases n
  {
    if n > 0 && a > 0 {
      var h := a * Power(n - 1);
      assert a * Power(n) == 2 * h;
      assert h > 0;
      OrAdds(a, b / 2, n - 1);
      OrEven(h, b);
    }
  }

  lemma {:induction false} OrEven(h: nat, b: nat)
    requires h > 0
    ensures Or(2 * h, b) == if b == 0 then 2 * h else b % 2 + 2 * Or(h, b / 2)
  {
    assert (2 * h) / 2 == h && (2 * h) % 2 == 0;
  }

  // Every index is at least lo and below n.
  predicate IndicesWithin(c: Cell, lo: int, n: int) {
    lo <= c.x < n && lo <= c.y < n && lo <= c.z < n
  }

  predicate IndicesBelow(c: Cell, n: int) {
    IndicesWithin(c, 0, n)
  }

  lemma KeyIsSum(c: Cell)
    requires IndicesBelow(c, 0x8000)
    ensures Key(c) == (c.z * 0x8000 + c.y) * 0x8000 + c.x
  {
    var a, b := ShiftedParts(c);
    var m, n := ShiftsUsed();
    OrOfParts(c.z, c.y, c.x, m, n, a, b);
  }

  lemma ShiftedParts(c: Cell) returns (a: nat, b: nat)
    requires IndicesBelow(c, 0x8000)
    ensures Key(c) == Or(Or(a, b), c.x) && a == c.z * SHIFT_30 && b == c.y * SHIFT_15
  {
    KeyOfParts(c, ShiftLeft(Unsigned(c.z), SHIFT_30), ShiftLeft(Unsigned(c.y), SHIFT_15), Unsigned(c.x));
    NothingLost(c.x);
    NothingLost(c.y);
    NothingLost(c.z);
    a, b := c.z * SHIFT_30, c.y * SHIFT_15;
  }

  lemma {:induction false} KeyOfParts(c: Cell, a: nat, b: nat, x: nat)
    requires a == ShiftLeft(Unsigned(c.z), SHIFT_30) && b == ShiftLeft(Unsigned(c.y), SHIFT_15) && x == Unsigned(c.x)
    ensures Key(c) == Or(Or(a, b), x)
  {
  }

  // No bit is shifted out.
  lemma NothingLost(i: int)
    requires 0 <= i < 0x8000
    ensures Unsigned(i) == i && ShiftLeft(i, SHIFT_15) == i * SHIFT_15 && ShiftLeft(i, SHIFT_30) == i * SHIFT_30
  {
  }

  lemma ShiftsUsed() returns (m: nat, n: nat)
    ensures m == 15 && n == 30 && Power(m) == SHIFT_15 && Power(n) == SHIFT_30
  {
    m, n := 15, 30;
    assert Power(5) == 32;
    assert Power(10) == 1024;
    assert Power(20) == 1024 * 1024;
  }

  // The three parts, shifted by 0, m and n bits, do not overlap.
  lemma {:induction false} OrOfParts(z: nat, y: nat, x: nat, m: nat, n: nat, a: nat, b: nat)
    requires Power(m) == SHIFT_15 && Power(n) == SHIFT_30 && y < 0x8000 && x < 0x8000
    requires a == z * SHIFT_30 && b == y * SHIFT_15
    ensures Or(Or(a, b), x) == a + b + x
  {
    OrAddsBy(z, b, n, SHIFT_30, a);
    OrAddsBy(z * SHIFT_15 + y, x, m, SHIFT_15, a + b);
  }

  lemma {:induction false} OrAddsBy(i: nat, b: nat, n: nat, p: nat, a: nat)
    requires p == Power(n) && a == i * p && b < p
    ensures Or(a, b) == a + b
  {
    OrAdds(i, b, n);
  }

  ghost predicate KeysDiffer(lo: int, n: int) {
    forall c, d | IndicesWithin(c, lo, n) && IndicesWithin(d, lo, n) :: Key(c) == Key(d) ==> c == d
  }

  // In a box around index 0, keys tell all voxels apart if and only if no index is negative and none
  // needs more than 15 bits.
  lemma KeysDifferUpTo15Bits(lo: int, n: int)
    requires lo <= 0 < n
    ensures KeysDiffer(lo, n) <==> lo == 0 && n <= 0x8000
  {
    if lo < 0 {
      var c, d := Cell(-1, 0, 0), Cell(-1, -1, 0);
      NegativeKey(c);
      NegativeKey(d);
      assert IndicesWithin(c, lo, n) && IndicesWithin(d, lo, n) && Key(c) == Key(d) && c != d;
    } else if n <= 0x8000 {
      forall c, d | IndicesWithin(c, lo, n) && IndicesWithin(d, lo, n) && Key(c) == Key(d) ensures c == d {
        KeyIsSum(c);
        KeyIsSum(d);
        SameDigits(c.z * 0x8000 + c.y, c.x, d.z * 0x8000 + d.y, d.x);
        SameDigits(c.z, c.y, d.z, d.y);
      }
    } else {
      var c, d := Cell(0x8000, 0, 0), Cell(0, 1, 0);
      SameKey(c, d);
      assert IndicesWithin(c, lo, n) && IndicesWithin(d, lo, n) && Key(c) == Key(d) && c != d;
    }
  }

  // An x index of -1 fills all bits of the key.
  lemma NegativeKey(c: Cell)
    requires c.x == -1
    ensures Key(c) == 0xffff_ffff_ffff_ffff
  {
    PowerOf64();
    var a, b := ShiftLeft(Unsigned(c.z), SHIFT_30), ShiftLeft(Unsigned(c.y), SHIFT_15);
    OrFits(a, b, 64);
    OrAllOnes(Or(a, b), 64);
  }

  lemma PowerOf64()
    ensures Power(64) == 0x1_0000_0000_0000_0000
  {
    PowerOf63();
  }

  lemma {:induction false} OrAllOnes(a: nat, n: nat)
    requires a < Power(n)
    ensures Or(a, Power(n) - 1) == Power(n) - 1
  {
    if n > 0 {
      OrAllOnes(a / 2, n - 1);
      OrOdd(a, Power(n - 1) - 1);
    }
  }

  lemma {:induction false} OrOdd(a: nat, b: nat)
    ensures Or(a, 2 * b + 1) == 2 * Or(a / 2, b) + 1
  {
    assert (2 * b + 1) / 2 == b && (2 * b + 1) % 2 == 1;
  }

  lemma SameDigits(a: int, b: int, a': int, b': int)
    requires 0 <= b < 0x8000 && 0 <= b' < 0x8000 && a * 0x8000 + b == a' * 0x8000 + b'
    ensures a == a' && b == b'
  {
  }

  lemma SameKey(c: Cell, d: Cell)
    requires c == Cell(0x8000, 0, 0) && d == Cell(0, 1, 0)
    ensures Key(c) == Key(d)
  {
    KeyIsSum(d);
  }
}

module VoxelGrid {
  import opened Basics
  import opened GrowthPolicy
  import opened Words
  import RobinHoodTable
  import opened KnnTables
  import opened VoxelGeometry
  import opened PackedKey

  const OFFSET := 1000

  // std::round: to the nearest integer, halves away from zero
  function Round(r: real): int {
    if r >= 0.0 then (r + 0.5).Floor else -((-r + 0.5).Floor)
  }

  function RoundAxis(v: real, inv: real): int {
    Round(v * inv)
  }

  function VoxelOf(p: Point, inv: real): Cell {
    Cell(RoundAxis(p.x, inv), RoundAxis(p.y, inv), RoundAxis(p.z, inv))
  }

  function Middle(i: int, size: real): real {
    size * i as real
  }

  function Centre(c: Cell, size: real): Point {
    Point(Middle(c.x, size), Middle(c.y, size), Middle(c.z, size))
  }

  predicate WithinHalf(d: real, half: real) {
    -half <= d <= half
  }

  // Round goes to the nearest integer, halves away from zero.
  lemma RoundIs(r: real, k: int)
    ensures Round(r) == k <==>
              if r >= 0.0 then k as real - 0.5 <= r < k as real + 0.5 else k as real - 0.5 < r <= k as real + 0.5
  {
  }

  // Along an axis, a point lies within half a leaf size of the middle of its voxel.
  lemma CentreIsNear(x: real, size: real, inv: real, half: real)
    requires size > 0.0 && inv == 1.0 / size && half == 0.5 * size
    ensures WithinHalf(x - Middle(RoundAxis(x, inv), size), half)
  {
    RoundIsNear(x, size, inv, x * inv, Round(x * inv), half);
  }

  // No point of the voxel is further than half from m along any axis.
  ghost predicate IsMiddle(m: Point, c: Cell, inv: real, half: real) {
    forall p | VoxelOf(p, inv) == c ::
      WithinHalf(p.x - m.x, half) && WithinHalf(p.y - m.y, half) && WithinHalf(p.z - m.z, half)
  }

  // The centre is the middle of the voxel's box, lies in it, and nothing else is its middle.
  lemma CentreIsMiddle(c: Cell, size: real, inv: real, half: real, m: Point)
    requires size > 0.0 && inv == 1.0 / size && half == 0.5 * size
    ensures VoxelOf(Centre(c, size), inv) == c && (IsMiddle(m, c, inv, half) <==> m == Centre(c, size))
  {
    OnAxis(c.x, size, inv);
    OnAxis(c.y, size, inv);
    OnAxis(c.z, size, inv);
    forall p | VoxelOf(p, inv) == c
      ensures WithinHalf(p.x - Centre(c, size).x, half)
      ensures WithinHalf(p.y - Centre(c, size).y, half)
      ensures WithinHalf(p.z - Centre(c, size).z, half)
    {
      CentreIsNear(p.x, size, inv, half);
      CentreIsNear(p.y, size, inv, half);
      CentreIsNear(p.z, size, inv, half);
    }
    if IsMiddle(m, c, inv, half) { OnlyMiddle(c, size, inv, half, m); }
  }

  lemma OnlyMiddle(c: Cell, size: real, inv: real, half: real, m: Point)
    requires size > 0.0 && inv == 1.0 / size && half == 0.5 * size && IsMiddle(m, c, inv, half)
    ensures m == Centre(c, size)
  {
    var q := Centre(c, size);
    OnAxis(c.x, size, inv);
    OnAxis(c.y, size, inv);
    OnAxis(c.z, size, inv);
    forall v | RoundAxis(v, inv) == c.x
      ensures WithinHalf(v - m.x, half)
    {
      assert VoxelOf(Point(v, q.y, q.z), inv) == c;
    }
    forall v | RoundAxis(v, inv) == c.y
      ensures WithinHalf(v - m.y, half)
    {
      assert VoxelOf(Point(q.x, v, q.z), inv) == c;
    }
    forall v | RoundAxis(v, inv) == c.z
      ensures WithinHalf(v - m.z, half)
    {
      assert VoxelOf(Point(q.x, q.y, v), inv) == c;
    }
    OnlyMiddleOfAxis(c.x, size, inv, half, m.x);
    OnlyMiddleOfAxis(c.y, size, inv, half, m.y);
    OnlyMiddleOfAxis(c.z, size, inv, half, m.z);
  }

  lemma OnlyMiddleOfAxis(i: int, size: real, inv: real, half: real, m: real)
    requires size > 0.0 && inv == 1.0 / size && half == 0.5 * size
    requires forall v | RoundAxis(v, inv) == i :: WithinHalf(v - m, half)
    ensures m == Middle(i, size)
  {
    if m != Middle(i, size) {
      var v := FarSide(i, size, inv, half, m);
    }
  }

  // Off the middle, some point of the interval is further away than half of it.
  lemma FarSide(i: int, size: real, inv: real, half: real, m: real) returns (v: real)
    requires size > 0.0 && inv == 1.0 / size && half == 0.5 * size && m != Middle(i, size)
    ensures RoundAxis(v, inv) == i && !WithinHalf(v - m, half)
  {
    var d := m - Middle(i, size);
    var e := if d > 0.0 then d else -d;
    var t := if e < half then e / 2.0 else half / 2.0;
    v := if d > 0.0 then Middle(i, size) - half + t else Middle(i, size) + half - t;
    NearSide(i, size, inv, half, if d > 0.0 then t - half else half - t, v);
  }

  lemma NearSide(i: int, size: real, inv: real, half: real, o: real, v: real)
    requires size > 0.0 && inv == 1.0 / size && half == 0.5 * size && -half < o < half && v == Middle(i, size) + o
    ensures RoundAxis(v, inv) == i
  {
    Undone(i as real, size, inv, i as real * inv);
    assert size * inv == 1.0;
    assert half * inv == 0.5;
    Inverted(o, inv, half, o * inv, half * inv);
    assert v * inv == i as real + o * inv by {
      assert v * inv == size * i as real * inv + o * inv;
    }
    RoundIs(v * inv, i);
  }

  lemma Inverted(o: real, inv: real, half: real, p: real, h: real)
    requires inv > 0.0 && h == half * inv && h == 0.5 && -half < o < half && p == o * inv
    ensures -0.5 < p < 0.5
  {
    ScaleLt(o, half, inv);
    assert p < h;
    ScaleLt(-half, o, inv);
    Negated(half, inv);
    assert -h < p;
  }

  lemma Negated(a: real, s: real)
    ensures (-a) * s == -(a * s)
  {
  }

  lemma RoundIsNear(x: real, size: real, inv: real, r: real, k: int, half: real)
    requires size > 0.0 && inv == 1.0 / size && r == x * inv && k == Round(r) && half == 0.5 * size
    ensures WithinHalf(x - size * k as real, half)
  {
    Undone(x, size, inv, r);
    NearMultiple(r, k as real, size, half);
  }

  lemma NearMultiple(r: real, k: real, size: real, half: real)
    requires size > 0.0 && -0.5 <= r - k <= 0.5 && half == 0.5 * size
    ensures WithinHalf(size * r - size * k, half)
  {
    Scaled(r - k, size, size * (r - k), half);
    ScaledDifference(r, k, size);
  }

  lemma ScaledDifference(r: real, k: real, size: real)
    ensures size * r - size * k == size * (r - k)
  {
  }

  lemma Undone(x: real, size: real, inv: real, r: real)
    requires size > 0.0 && inv == 1.0 / size && r == x * inv
    ensures size * r == x
  {
    assert size * inv == 1.0;
    assert size * r == x * (size * inv);
  }

  lemma Scaled(d: real, size: real, e: real, half: real)
    requires size > 0.0 && -0.5 <= d <= 0.5 && e == size * d && half == 0.5 * size
    ensures -half <= e <= half
  {
    Product(0.5 - d, size);
    Product(0.5 + d, size);
    assert (0.5 - d) * size == half - e;
    assert (0.5 + d) * size == half + e;
  }

  lemma Product(a: real, b: real)
    requires a >= 0.0 && b >= 0.0
    ensures a * b >= 0.0
  {
  }

  // What filter computes of every point: the voxel's key and the distance from its centre.
  datatype Sample = Sample(key: nat, d2: real)

  function SampleOf(p: Point, size: real, inv: real): Sample {
    Sample(KeyOf(VoxelOf(p, inv)), Dist2(p, Centre(VoxelOf(p, inv), size)))
  }

  function Offset1000(c: Cell): Cell {
    Cell(c.x + OFFSET, c.y + OFFSET, c.z + OFFSET)
  }

  function KeyOf(c: Cell): nat {
    Key(Offset1000(c))
  }

  function Samples(cloud: seq<Point>, size: real, inv: real): (s: seq<Sample>)
    ensures |s| == |cloud|
    ensures forall i | 0 <= i < |cloud| :: s[i] == SampleOf(cloud[i], size, inv)
  {
    seq(|cloud|, i requires 0 <= i < |cloud| => SampleOf(cloud[i], size, inv))
  }

  // The distinct keys of the first n samples, in order of first occurrence.
  function Firsts(s: seq<Sample>, n: nat): (ks: seq<nat>)
    requires n <= |s|
  {
    if n == 0 then []
    else
      var ks := Firsts(s, n - 1);
      if s[n - 1].key in ks then ks else ks + [s[n - 1].key]
  }

  // Sample m is the first of least distance among the first n with its key.
  predicate IsBest(s: seq<Sample>, m: int, k: nat, n: nat) {
    && 0 <= m < n <= |s| && s[m].key == k
    && forall i | 0 <= i < n && s[i].key == k :: s[m].d2 < s[i].d2 || (s[m].d2 == s[i].d2 && m <= i)
  }

  // One pick for every key, in order.
  predicate Picks(s: seq<Sample>, pick: seq<int>, n: nat)
    requires n <= |s|
  {
    && |pick| == |Firsts(s, n)|
    && forall j | 0 <= j < |pick| :: IsBest(s, pick[j], Firsts(s, n)[j], n)
  }

  lemma {:induction false} FirstsAre(s: seq<Sample>, n: nat)
    requires n <= |s|
    ensures forall k :: k in Firsts(s, n) <==> exists i :: 0 <= i < n && s[i].key == k
  {
    if n > 0 {
      FirstsAre(s, n - 1);
      var ks := Firsts(s, n - 1);
      forall k ensures k in Firsts(s, n) <==> exists i :: 0 <= i < n && s[i].key == k {
        if k in Firsts(s, n) && k !in ks { assert s[n - 1].key == k; }
      }
    }
  }

  // No key comes twice.
  lemma {:induction false} FirstsDiffer(s: seq<Sample>, n: nat, i: nat, j: nat)
    requires n <= |s| && i < |Firsts(s, n)| && j < |Firsts(s, n)| && i != j
    ensures Firsts(s, n)[i] != Firsts(s, n)[j]
  {
    var ks := Firsts(s, n - 1);
    if i < |ks| && j < |ks| {
      FirstsDiffer(s, n - 1, i, j);
    } else {
      assert i < |ks| ==> ks[i] in ks;
      assert j < |ks| ==> ks[j] in ks;
    }
  }

  // The place of the first sample with key k among the first n; n if there is none.
  function FirstPlace(s: seq<Sample>, k: nat, n: nat): nat
    requires n <= |s|
  {
    if n == 0 then 0
    else
      var i := FirstPlace(s, k, n - 1);
      if i < n - 1 || s[n - 1].key == k then i else n
  }

  lemma {:induction false} FirstPlaceIs(s: seq<Sample>, k: nat, n: nat)
    requires n <= |s|
    ensures var i := FirstPlace(s, k, n);
      && i <= n && (i < n ==> s[i].key == k) && forall j | 0 <= j < i :: s[j].key != k
  {
    if n > 0 { FirstPlaceIs(s, k, n - 1); }
  }

  // The keys come in the order in which they occur first.
  lemma {:induction false} FirstsInOrder(s: seq<Sample>, n: nat, i: nat, j: nat)
    requires n <= |s| && i < j < |Firsts(s, n)|
    ensures FirstPlace(s, Firsts(s, n)[i], n) < FirstPlace(s, Firsts(s, n)[j], n) < n
  {
    var ks := Firsts(s, n - 1);
    FirstsAre(s, n - 1);
    FirstPlaceIs(s, Firsts(s, n)[i], n - 1);
    FirstPlaceIs(s, Firsts(s, n)[j], n - 1);
    if j < |ks| {
      FirstsInOrder(s, n - 1, i, j);
    } else {
      assert ks[i] in ks && s[n - 1].key !in ks;
    }
  }

  lemma BestStays(s: seq<Sample>, m: int, k: nat, n: nat)
    requires n < |s| && IsBest(s, m, k, n) && s[n].key != k
    ensures IsBest(s, m, k, n + 1)
  {
  }

  lemma BestOfTwo(s: seq<Sample>, m: int, k: nat, n: nat)
    requires n < |s| && IsBest(s, m, k, n) && s[n].key == k
    ensures IsBest(s, if s[n].d2 < s[m].d2 then n else m, k, n + 1)
  {
  }

  lemma {:induction false} NewKey(s: seq<Sample>, pick: seq<int>, n: nat)
    requires n < |s| && Picks(s, pick, n) && s[n].key !in Firsts(s, n)
    ensures Picks(s, pick + [n], n + 1)
  {
    var ks := Firsts(s, n);
    FirstsAre(s, n);
    assert IsBest(s, n, s[n].key, n + 1);
    forall j | 0 <= j < |pick| ensures IsBest(s, pick[j], ks[j], n + 1) {
      assert ks[j] in ks;
      BestStays(s, pick[j], ks[j], n);
    }
    PicksMore(s, pick, n, ks);
  }

  lemma {:induction false} PicksMore(s: seq<Sample>, pick: seq<int>, n: nat, ks: seq<nat>)
    requires n < |s| && ks == Firsts(s, n) && s[n].key !in ks && |pick| == |ks|
    requires forall j | 0 <= j < |pick| :: IsBest(s, pick[j], ks[j], n + 1)
    requires IsBest(s, n, s[n].key, n + 1)
    ensures Picks(s, pick + [n], n + 1)
  {
    var ks', pick' := ks + [s[n].key], pick + [n];
    assert Firsts(s, n + 1) == ks';
    forall j | 0 <= j < |pick'| ensures IsBest(s, pick'[j], ks'[j], n + 1) {
      if j < |pick| { assert pick'[j] == pick[j] && ks'[j] == ks[j]; }
    }
  }

  lemma {:induction false} OldKey(s: seq<Sample>, pick: seq<int>, n: nat, at: nat)
    requires n < |s| && Picks(s, pick, n) && at < |pick| && Firsts(s, n)[at] == s[n].key
    ensures Picks(s, if s[n].d2 < s[pick[at]].d2 then pick[at := n] else pick, n + 1)
  {
    var ks := Firsts(s, n);
    var after := if s[n].d2 < s[pick[at]].d2 then pick[at := n] else pick;
    FirstsAre(s, n);
    assert Firsts(s, n + 1) == ks;
    BestOfTwo(s, pick[at], ks[at], n);
    forall j | 0 <= j < |after| ensures IsBest(s, after[j], ks[j], n + 1) {
      if j != at {
        FirstsDiffer(s, n, j, at);
        assert IsBest(s, pick[j], ks[j], n);
        BestStays(s, pick[j], ks[j], n);
      }
    }
  }

  // The points picked and their distances.
  ghost predicate Output(cloud: seq<Point>, s: seq<Sample>, pick: seq<int>, points: seq<Point>, dist2: seq<real>)
    requires |s| == |cloud|
  {
    && |points| == |dist2| == |pick|
    && forall j | 0 <= j < |pick| :: 0 <= pick[j] < |cloud| && points[j] == cloud[pick[j]] && dist2[j] == s[pick[j]].d2
  }

  // Every key is mapped to its place.
  ghost predicate Places(ks: seq<nat>, places: map<nat, nat>) {
    (forall k :: k in places <==> k in ks) && forall j | 0 <= j < |ks| :: places[ks[j]] == j
  }

  lemma NewPlace(ks: seq<nat>, places: map<nat, nat>, k: nat)
    requires Places(ks, places) && k !in places
    ensures Places(ks + [k], places[k := |ks|])
  {
    forall j | 0 <= j < |ks|
      ensures ks[j] != k
    {
      assert ks[j] in ks;
    }
  }

  lemma {:induction false} PlaceIs(ks: seq<nat>, places: map<nat, nat>, k: nat)
    requires Places(ks, places)
    ensures k in places <==> Position(ks, k) < |ks|
    ensures k in places ==> places[k] == Position(ks, k)
  {
    if k in places { assert ks[Position(ks, k)] == k; }
  }

  lemma PlacesSize(ks: seq<nat>, places: map<nat, nat>)
    requires Places(ks, places)
    ensures |places| == |ks|
  {
    forall i: nat, j: nat | i < j < |ks|
      ensures Unlike(ks, i, j)
    {
      assert places[ks[i]] == i && places[ks[j]] == j;
    }
    UniqueSize(ks, places.Keys);
    KeysSize(places);
  }

  lemma KeysSize(places: map<nat, nat>)
    ensures |places| == |places.Keys|
  {
  }

  // What filter has collected: the keys in order, the point kept for each and its distance, and which
  // point of the cloud it is.
  datatype Kept = Kept(keys: seq<nat>, pick: seq<int>, points: seq<Point>, dist2: seq<real>)

  const Nothing := Kept([], [], [], [])

  predicate Level(k: Kept) {
    |k.keys| == |k.pick| == |k.points| == |k.dist2|
  }

  // One more point, number i.
  function Keep(k: Kept, pt: Point, e: Sample, i: nat): Kept {
    var at := Position(k.keys, e.key);
    if at == |k.keys| then Kept(k.keys + [e.key], k.pick + [i], k.points + [pt], k.dist2 + [e.d2])
    else if Level(k) && e.d2 < k.dist2[at]
    then Kept(k.keys, k.pick[at := i], k.points[at := pt], k.dist2[at := e.d2]) else k
  }

  // The first n points.
  function KeepAll(cloud: seq<Point>, s: seq<Sample>, n: nat): Kept
    requires n <= |s| == |cloud|
  {
    if n == 0 then Nothing else Keep(KeepAll(cloud, s, n - 1), cloud[n - 1], s[n - 1], n - 1)
  }

  lemma {:induction false} KeepAllIsLevel(cloud: seq<Point>, s: seq<Sample>, n: nat)
    requires n <= |s| == |cloud|
    ensures Level(KeepAll(cloud, s, n))
  {
    if n > 0 { KeepAllIsLevel(cloud, s, n - 1); }
  }

  lemma {:induction false} KeepAllGrows(cloud: seq<Point>, s: seq<Sample>, i: nat, n: nat)
    requires i <= n <= |s| == |cloud|
    ensures |KeepAll(cloud, s, i).keys| <= |KeepAll(cloud, s, n).keys|
  {
    if i < n { KeepAllGrows(cloud, s, i, n - 1); }
  }

  ghost predicate AreSamples(cloud: seq<Point>, size: real, inv: real, s: seq<Sample>) {
    |s| == |cloud| && forall i: nat :: i < |s| ==> IsSample(cloud, size, inv, s, i)
  }

  predicate IsSample(cloud: seq<Point>, size: real, inv: real, s: seq<Sample>, i: nat)
    requires i < |s| == |cloud|
  {
    s[i] == SampleOf(cloud[i], size, inv)
  }

  lemma SamplesAre(cloud: seq<Point>, size: real, inv: real)
    ensures AreSamples(cloud, size, inv, Samples(cloud, size, inv))
  {
  }

  // at gives what the first points make.
  ghost predicate Runs(cloud: seq<Point>, s: seq<Sample>, at: nat -> Kept) {
    |s| == |cloud| && at(0) == Nothing && forall i: nat :: i < |s| ==> RunsOn(cloud, s, at, i)
  }

  ghost predicate RunsOn(cloud: seq<Point>, s: seq<Sample>, at: nat -> Kept, i: nat)
    requires i < |s| == |cloud|
  {
    at(i + 1) == Keep(at(i), cloud[i], s[i], i) && Level(at(i)) && |at(i).keys| <= |at(|s|).keys|
  }

  lemma TheRun(cloud: seq<Point>, s: seq<Sample>) returns (at: nat -> Kept)
    requires |s| == |cloud|
    ensures Runs(cloud, s, at) && at(|s|) == KeepAll(cloud, s, |s|)
  {
    at := (n: nat) => if n <= |s| then KeepAll(cloud, s, n) else Nothing;
    forall i: nat | i < |s|
      ensures RunsOn(cloud, s, at, i)
    {
      KeepAllIsLevel(cloud, s, i);
      KeepAllGrows(cloud, s, i, |s|);
    }
  }

  // One pick for every key, in order, and the points and distances that go with them.
  ghost predicate Collected(cloud: seq<Point>, s: seq<Sample>, k: Kept, n: nat)
    requires n <= |s| == |cloud|
  {
    Picks(s, k.pick, n) && Output(cloud, s, k.pick, k.points, k.dist2) && k.keys == Firsts(s, n)
  }

  lemma {:induction false} KeepAllCollects(cloud: seq<Point>, s: seq<Sample>, n: nat)
    requires n <= |s| == |cloud|
    ensures Collected(cloud, s, KeepAll(cloud, s, n), n)
  {
    if n > 0 {
      KeepAllCollects(cloud, s, n - 1);
      OneMoreCollected(cloud, s, KeepAll(cloud, s, n - 1), n - 1);
    }
  }

  lemma OneMoreCollected(cloud: seq<Point>, s: seq<Sample>, k: Kept, n: nat)
    requires n < |s| == |cloud| && Collected(cloud, s, k, n)
    ensures Collected(cloud, s, Keep(k, cloud[n], s[n], n), n + 1)
  {
    if Position(k.keys, s[n].key) == |k.keys| { NewCollected(cloud, s, k, n); } else { OldCollected(cloud, s, k, n); }
  }

  lemma NewCollected(cloud: seq<Point>, s: seq<Sample>, k: Kept, n: nat)
    requires n < |s| == |cloud| && Collected(cloud, s, k, n) && Position(k.keys, s[n].key) == |k.keys|
    ensures Collected(cloud, s, Keep(k, cloud[n], s[n], n), n + 1)
  {
    assert s[n].key !in k.keys;
    NewKey(s, k.pick, n);
  }

  lemma OldCollected(cloud: seq<Point>, s: seq<Sample>, k: Kept, n: nat)
    requires n < |s| == |cloud| && Collected(cloud, s, k, n) && Position(k.keys, s[n].key) < |k.keys|
    ensures Collected(cloud, s, Keep(k, cloud[n], s[n], n), n + 1)
  {
    OldKey(s, k.pick, n, Position(k.keys, s[n].key));
    assert Firsts(s, n + 1) == Firsts(s, n);
  }

  class VoxelGridClosest {
    var cloud_: seq<Point>
    var voxel_size_: real
    var inv_voxel_size_: real
    const voxel_map_: RobinHoodTable.Table<nat, nat>
    var points_: seq<Point>
    var dist2_: seq<real>

    // What has been collected.
    ghost var kept: Kept

    ghost predicate Valid()
      reads this, voxel_map_, voxel_map_.mInfo, voxel_map_.mKeyVals
    {
      voxel_map_.Valid()
    }

    // The fields show what has been collected.
    ghost predicate Shows(k: Kept)
      reads this, voxel_map_, voxel_map_.mInfo, voxel_map_.mKeyVals
    {
      && Valid() && kept == k && Places(k.keys, voxel_map_.Contents())
      && points_ == k.points && dist2_ == k.dist2
    }

    constructor (hash: nat -> bv64)
      ensures Scaled() && voxel_size_ == 0.5 && cloud_ == [] && points_ == []
      ensures voxel_map_.mMask + 1 == 16384
      ensures Valid() && fresh(voxel_map_) && fresh(voxel_map_.mInfo) && fresh(voxel_map_.mKeyVals)
    {
      voxel_size_, inv_voxel_size_ := 0.5, 2.0;
      cloud_, points_, dist2_, kept := [], [], [], Nothing;
      voxel_map_ := new RobinHoodTable.Table<nat, nat>(hash);
      new;
      ReserveFits();
      var ok, size := voxel_map_.reserve(10000);
      RobinHoodTable.SizeFor10000(size);
    }

    // The stored inverse is that of the leaf size.
    ghost predicate Scaled()
      reads this
    {
      voxel_size_ > 0.0 && inv_voxel_size_ == 1.0 / voxel_size_
    }

    method setLeafSize(lx: real)
      requires lx > 0.0
      modifies this`voxel_size_, this`inv_voxel_size_
      ensures Scaled() && voxel_size_ == lx
    {
      voxel_size_ := lx;
      inv_voxel_size_ := 1.0 / lx;
    }

    method setInputCloud(cloud: seq<Point>)
      modifies this`cloud_
      ensures cloud_ == cloud
    {
      cloud_ := cloud;
    }

    // The cloud, the leaf size and its inverse.
    ghost predicate Reads(cloud: seq<Point>, size: real, inv: real)
      reads this
    {
      cloud_ == cloud && voxel_size_ == size && inv_voxel_size_ == inv
    }

    // The picks say which point of the cloud each point of the output is. The points that were in
    // the output change places with it. ok is false when the table threw an overflow error, which
    // takes more than 126 keys.
    method filter(old_output: seq<Point>) returns (output: seq<Point>, ok: bool, ghost pick: seq<int>)
      requires Valid()
      modifies this`points_, this`dist2_, this`kept, voxel_map_, voxel_map_.mInfo, voxel_map_.mKeyVals
      ensures voxel_map_.mInfo == old(voxel_map_.mInfo) || fresh(voxel_map_.mInfo)
      ensures voxel_map_.mKeyVals == old(voxel_map_.mKeyVals) || fresh(voxel_map_.mKeyVals)
      ensures Valid()
      ensures ok ==> Picks(Samples(cloud_, voxel_size_, inv_voxel_size_), pick, |cloud_|)
      ensures ok ==> |output| == |pick| && points_ == old_output
      ensures ok ==> forall j | 0 <= j < |pick| :: 0 <= pick[j] < |cloud_| && output[j] == cloud_[pick[j]]
      ensures |Firsts(Samples(cloud_, voxel_size_, inv_voxel_size_), |cloud_|)| <= 126 ==> ok
    {
      ghost var s := Samples(cloud_, voxel_size_, inv_voxel_size_);
      SamplesAre(cloud_, voxel_size_, inv_voxel_size_);
      AllCollected(cloud_, s);
      pick, output := KeepAll(cloud_, s, |s|).pick, old_output;
      ghost var at := TheRun(cloud_, s);
      ok := collect(cloud_, voxel_size_, inv_voxel_size_, s, at);
      if ok {
        output := points_;
        points_ := old_output;
      }
    }

    method collect(ghost cloud: seq<Point>, ghost size: real, ghost inv: real, ghost s: seq<Sample>,
                   ghost at: nat -> Kept)
      returns (ok: bool)
      requires Valid() && Reads(cloud, size, inv) && AreSamples(cloud, size, inv, s) && Runs(cloud, s, at)
      modifies this`points_, this`dist2_, this`kept, voxel_map_, voxel_map_.mInfo, voxel_map_.mKeyVals
      ensures voxel_map_.mInfo == old(voxel_map_.mInfo) || fresh(voxel_map_.mInfo)
      ensures voxel_map_.mKeyVals == old(voxel_map_.mKeyVals) || fresh(voxel_map_.mKeyVals)
      ensures Valid() && (ok ==> Shows(at(|s|))) && (|at(|s|).keys| <= 126 ==> ok)
    {
      forget();
      ok := collectAll(cloud, size, inv, s, at);
    }

    // The loop over the points.
    method collectAll(ghost cloud: seq<Point>, ghost size: real, ghost inv: real, ghost s: seq<Sample>,
                      ghost at: nat -> Kept)
      returns (ok: bool)
      requires Shows(at(0)) && Reads(cloud, size, inv) && AreSamples(cloud, size, inv, s) && Runs(cloud, s, at)
      modifies this`points_, this`dist2_, this`kept, voxel_map_, voxel_map_.mInfo, voxel_map_.mKeyVals
      ensures voxel_map_.mInfo == old(voxel_map_.mInfo) || fresh(voxel_map_.mInfo)
      ensures voxel_map_.mKeyVals == old(voxel_map_.mKeyVals) || fresh(voxel_map_.mKeyVals)
      ensures Valid() && (ok ==> Shows(at(|s|))) && (|at(|s|).keys| <= 126 ==> ok)
    {
      for i := 0 to |cloud_|
        invariant voxel_map_.mInfo == old(voxel_map_.mInfo) || fresh(voxel_map_.mInfo)
        invariant voxel_map_.mKeyVals == old(voxel_map_.mKeyVals) || fresh(voxel_map_.mKeyVals)
        invariant Shows(at(i))
      {
        ok := filterNext(i, cloud, size, inv, s, at);
        if !ok { return; }
      }
      ok := true;
    }

    // One turn of that loop.
    method filterNext(i: nat, ghost cloud: seq<Point>, ghost size: real, ghost inv: real, ghost s: seq<Sample>,
                      ghost at: nat -> Kept)
      returns (ok: bool)
      requires Shows(at(i)) && Reads(cloud, size, inv) && AreSamples(cloud, size, inv, s) && Runs(cloud, s, at)
      requires i < |s|
      modifies this`points_, this`dist2_, this`kept, voxel_map_, voxel_map_.mInfo, voxel_map_.mKeyVals
      ensures voxel_map_.mInfo == old(voxel_map_.mInfo) || fresh(voxel_map_.mInfo)
      ensures voxel_map_.mKeyVals == old(voxel_map_.mKeyVals) || fresh(voxel_map_.mKeyVals)
      ensures Valid() && (ok ==> Shows(at(i + 1))) && (|at(|s|).keys| <= 126 ==> ok)
    {
      assert RunsOn(cloud, s, at, i);
      ok := filterPoint(i, cloud, size, inv, s, at(i));
    }

    method forget()
      requires Valid()
      modifies this`points_, this`dist2_, this`kept, voxel_map_, voxel_map_.mInfo
      ensures voxel_map_.mInfo == old(voxel_map_.mInfo) && voxel_map_.mKeyVals == old(voxel_map_.mKeyVals)
      ensures Shows(Nothing)
    {
      voxel_map_.clear();
      dist2_ := [];
      points_ := [];
      kept := Nothing;
    }

    method filterPoint(i: nat, ghost cloud: seq<Point>, ghost size: real, ghost inv: real, ghost s: seq<Sample>,
                       ghost k: Kept)
      returns (ok: bool)
      requires Shows(k) && Level(k) && Reads(cloud, size, inv) && AreSamples(cloud, size, inv, s)
      requires i < |cloud|
      modifies this`points_, this`dist2_, this`kept, voxel_map_, voxel_map_.mInfo, voxel_map_.mKeyVals
      ensures voxel_map_.mInfo == old(voxel_map_.mInfo) || fresh(voxel_map_.mInfo)
      ensures voxel_map_.mKeyVals == old(voxel_map_.mKeyVals) || fresh(voxel_map_.mKeyVals)
      ensures Valid() && (ok ==> Shows(Keep(k, cloud[i], s[i], i))) && (|k.keys| <= 126 ==> ok)
    {
      var e := sample(cloud_[i]);
      assert IsSample(cloud, size, inv, s, i);
      ok := keep(cloud_[i], e, i, k);
    }

    // The index and key of a point, and its distance from the centre.
    method sample(pt: Point) returns (e: Sample)
      ensures e == SampleOf(pt, voxel_size_, inv_voxel_size_)
    {
      e := SampleOf(pt, voxel_size_, inv_voxel_size_);
    }

    // The place of a key, if it has one.
    method find(key: nat, ghost k: Kept) returns (found: bool, at: nat)
      requires Shows(k)
      ensures found <==> Position(k.keys, key) < |k.keys|
      ensures found ==> at == Position(k.keys, key)
    {
      PlaceIs(k.keys, voxel_map_.Contents(), key);
      var it := voxel_map_.findIdx(key);
      found, at := it != voxel_map_.Cap(), 0;
      if found { at := voxel_map_.mKeyVals[it].val; }
    }

    method keep(pt: Point, e: Sample, ghost i: nat, ghost k: Kept) returns (ok: bool)
      requires Shows(k) && Level(k)
      modifies this`points_, this`dist2_, this`kept, voxel_map_, voxel_map_.mInfo, voxel_map_.mKeyVals
      ensures voxel_map_.mInfo == old(voxel_map_.mInfo) || fresh(voxel_map_.mInfo)
      ensures voxel_map_.mKeyVals == old(voxel_map_.mKeyVals) || fresh(voxel_map_.mKeyVals)
      ensures Valid() && (ok ==> Shows(Keep(k, pt, e, i))) && (|k.keys| <= 126 ==> ok)
    {
      var found, at := find(e.key, k);
      ok := true;
      if !found {
        ok := keepNew(pt, e, i, k);
      } else if e.d2 < dist2_[at] {
        points_ := points_[at := pt];
        dist2_ := dist2_[at := e.d2];
        kept := Keep(k, pt, e, i);
      }
    }

    // A point with a new key. If the table throws, it may have lost some of the keys.
    method keepNew(pt: Point, e: Sample, ghost i: nat, ghost k: Kept) returns (ok: bool)
      requires Shows(k) && Level(k) && Position(k.keys, e.key) == |k.keys|
      modifies this`points_, this`dist2_, this`kept, voxel_map_, voxel_map_.mInfo, voxel_map_.mKeyVals
      ensures voxel_map_.mInfo == old(voxel_map_.mInfo) || fresh(voxel_map_.mInfo)
      ensures voxel_map_.mKeyVals == old(voxel_map_.mKeyVals) || fresh(voxel_map_.mKeyVals)
      ensures Valid() && (ok ==> Shows(Keep(k, pt, e, i))) && (|k.keys| <= 126 ==> ok)
    {
      ok := emplace(e.key, |points_|, k);
      append(pt, e.d2);
      kept := Keep(k, pt, e, i);
    }

    method emplace(key: nat, at: nat, ghost k: Kept) returns (ok: bool)
      requires Valid() && Places(k.keys, voxel_map_.Contents()) && Position(k.keys, key) == |k.keys| == at
      modifies voxel_map_, voxel_map_.mInfo, voxel_map_.mKeyVals
      ensures voxel_map_.mInfo == old(voxel_map_.mInfo) || fresh(voxel_map_.mInfo)
      ensures voxel_map_.mKeyVals == old(voxel_map_.mKeyVals) || fresh(voxel_map_.mKeyVals)
      ensures Valid() && (ok ==> Places(k.keys + [key], voxel_map_.Contents())) && (|k.keys| <= 126 ==> ok)
    {
      ghost var m := voxel_map_.Contents();
      PlaceIs(k.keys, m, key);
      PlacesSize(k.keys, m);
      NewPlace(k.keys, m, key);
      var inserted, lost;
      inserted, ok, lost := voxel_map_.emplace(key, at);
    }

    method append(pt: Point, d2: real)
      modifies this`points_, this`dist2_
      ensures points_ == old(points_) + [pt] && dist2_ == old(dist2_) + [d2]
    {
      points_ := points_ + [pt];
      dist2_ := dist2_ + [d2];
    }
  }

  lemma {:induction false} AllCollected(cloud: seq<Point>, s: seq<Sample>)
    requires |s| == |cloud|
    ensures var k := KeepAll(cloud, s, |s|);
            && Picks(s, k.pick, |s|) && |k.points| == |k.pick| && k.keys == Firsts(s, |s|)
            && forall j | 0 <= j < |k.pick| :: 0 <= k.pick[j] < |cloud| && k.points[j] == cloud[k.pick[j]]
  {
    KeepAllCollects(cloud, s, |s|);
  }

  lemma ReserveFits()
    ensures RobinHoodTable.SomeSize(10000)
  {
    assert Power(14) == 16384;
    PowerIsPow2(14);
    assert RobinHoodTable.Suffices(16384, 10000);
  }

  // ---- in terms of voxels ----

  // The indices of all points are at least lo and below n.
  ghost predicate Indexed(cloud: seq<Point>, inv: real, lo: int, n: int) {
    forall i | 0 <= i < |cloud| :: IndicesWithin(VoxelOf(cloud[i], inv), lo, n)
  }

  ghost predicate ToldApart(lo: int, n: int) {
    forall c, d | IndicesWithin(c, lo, n) && IndicesWithin(d, lo, n) && KeyOf(c) == KeyOf(d) :: c == d
  }

  // The offset tells voxels with negative indices apart, as far as -1000.
  lemma ToldApartFromMinus1000(lo: int, n: int)
    requires lo <= -1000 < n
    ensures ToldApart(lo, n) <==> lo == -1000 && n <= 31768
  {
    KeysDifferUpTo15Bits(lo + 1000, n + 1000);
    if lo == -1000 && n <= 31768 {
      forall c, d | IndicesWithin(c, lo, n) && IndicesWithin(d, lo, n) && KeyOf(c) == KeyOf(d)
        ensures c == d
      {
        assert Key(Offset1000(c)) == Key(Offset1000(d)) ==> Offset1000(c) == Offset1000(d);
      }
    } else {
      var c, d := Alike(lo, n);
      assert IndicesWithin(c, lo, n) && IndicesWithin(d, lo, n) && KeyOf(c) == KeyOf(d);
    }
  }

  lemma Alike(lo: int, n: int) returns (c: Cell, d: Cell)
    requires !KeysDiffer(lo + 1000, n + 1000)
    ensures IndicesWithin(c, lo, n) && IndicesWithin(d, lo, n) && KeyOf(c) == KeyOf(d) && c != d
  {
    var c', d' :| IndicesWithin(c', lo + 1000, n + 1000) && IndicesWithin(d', lo + 1000, n + 1000)
                  && Key(c') == Key(d') && c' != d';
    c, d := Back1000(c'), Back1000(d');
  }

  // Point m stands for point i: it lies in the same voxel, no further from the centre, and before
  // those as near.
  ghost predicate StandsFor(cloud: seq<Point>, size: real, inv: real, m: int, i: int)
    requires 0 <= i < |cloud|
  {
    var c := Centre(VoxelOf(cloud[i], inv), size);
    && 0 <= m < |cloud| && VoxelOf(cloud[m], inv) == VoxelOf(cloud[i], inv)
    && (Dist2(cloud[m], c) < Dist2(cloud[i], c) || (Dist2(cloud[m], c) == Dist2(cloud[i], c) && m <= i))
  }

  ghost predicate Represented(cloud: seq<Point>, size: real, inv: real, pick: seq<int>, i: int)
    requires 0 <= i < |cloud|
  {
    exists m | m in pick :: StandsFor(cloud, size, inv, m, i)
  }

  // One point of every occupied voxel, the first of those nearest to the voxel's centre.
  ghost predicate OneOfEach(cloud: seq<Point>, size: real, inv: real, pick: seq<int>) {
    && (forall i | 0 <= i < |cloud| :: Represented(cloud, size, inv, pick, i))
    && (forall j, l | 0 <= j < l < |pick| ::
          && 0 <= pick[j] < |cloud| && 0 <= pick[l] < |cloud|
          && VoxelOf(cloud[pick[j]], inv) != VoxelOf(cloud[pick[l]], inv))
  }

  lemma OnePerVoxel(cloud: seq<Point>, size: real, inv: real, pick: seq<int>)
    requires Indexed(cloud, inv, -1000, 31768) && Picks(Samples(cloud, size, inv), pick, |cloud|)
    ensures OneOfEach(cloud, size, inv, pick)
  {
    forall i: nat | i < |cloud|
      ensures Represented(cloud, size, inv, pick, i)
    {
      var m := PickFor(cloud, size, inv, pick, i);
    }
    PicksDiffer(cloud, size, inv, pick);
  }

  // Point m is no further from mid than point i, and before those as near.
  predicate Nearer(cloud: seq<Point>, mid: Point, m: int, i: int)
    requires 0 <= i < |cloud| && 0 <= m < |cloud|
  {
    Dist2(cloud[m], mid) < Dist2(cloud[i], mid) || (Dist2(cloud[m], mid) == Dist2(cloud[i], mid) && m <= i)
  }

  // The same with the middle of the voxel's box for its centre.
  ghost predicate NearestToMiddle(cloud: seq<Point>, inv: real, half: real, pick: seq<int>) {
    forall i: nat, mid: Point | i < |cloud| :: NearestFor(cloud, inv, half, pick, i, mid)
  }

  ghost predicate NearestFor(cloud: seq<Point>, inv: real, half: real, pick: seq<int>, i: nat, mid: Point)
    requires i < |cloud|
  {
    IsMiddle(mid, VoxelOf(cloud[i], inv), inv, half) ==>
      exists m | m in pick :: 0 <= m < |cloud| && VoxelOf(cloud[m], inv) == VoxelOf(cloud[i], inv)
                              && Nearer(cloud, mid, m, i)
  }

  lemma OnePerBox(cloud: seq<Point>, size: real, inv: real, half: real, pick: seq<int>)
    requires size > 0.0 && inv == 1.0 / size && half == 0.5 * size && Indexed(cloud, inv, -1000, 31768)
    requires Picks(Samples(cloud, size, inv), pick, |cloud|)
    ensures NearestToMiddle(cloud, inv, half, pick)
  {
    forall i: nat, mid: Point | i < |cloud|
      ensures NearestFor(cloud, inv, half, pick, i, mid)
    {
      CentreIsMiddle(VoxelOf(cloud[i], inv), size, inv, half, mid);
      var m := PickFor(cloud, size, inv, pick, i);
    }
  }

  lemma OnePerBoth(cloud: seq<Point>, size: real, inv: real, half: real, pick: seq<int>)
    requires size > 0.0 && inv == 1.0 / size && half == 0.5 * size && Indexed(cloud, inv, -1000, 31768)
    requires Picks(Samples(cloud, size, inv), pick, |cloud|)
    ensures OneOfEach(cloud, size, inv, pick) && NearestToMiddle(cloud, inv, half, pick)
  {
    OnePerVoxel(cloud, size, inv, pick);
    OnePerBox(cloud, size, inv, half, pick);
  }

  lemma PickFor(cloud: seq<Point>, size: real, inv: real, pick: seq<int>, i: nat) returns (m: int)
    requires Indexed(cloud, inv, -1000, 31768) && Picks(Samples(cloud, size, inv), pick, |cloud|) && i < |cloud|
    ensures m in pick && StandsFor(cloud, size, inv, m, i)
  {
    var s, n := Samples(cloud, size, inv), |cloud|;
    var ks := Firsts(s, n);
    FirstsAre(s, n);
    assert s[i].key in ks;
    var j :| 0 <= j < |ks| && ks[j] == s[i].key;
    m := pick[j];
    assert IsBest(s, m, ks[j], n);
    SameVoxel(cloud, size, inv, m, i);
  }

  lemma PicksDiffer(cloud: seq<Point>, size: real, inv: real, pick: seq<int>)
    requires Picks(Samples(cloud, size, inv), pick, |cloud|)
    ensures forall j, l | 0 <= j < l < |pick| ::
              && 0 <= pick[j] < |cloud| && 0 <= pick[l] < |cloud|
              && VoxelOf(cloud[pick[j]], inv) != VoxelOf(cloud[pick[l]], inv)
  {
    var s, n := Samples(cloud, size, inv), |cloud|;
    var ks := Firsts(s, n);
    FirstsAre(s, n);
    forall j: nat, l: nat | j < l < |pick|
      ensures 0 <= pick[j] < |cloud| && 0 <= pick[l] < |cloud|
      ensures VoxelOf(cloud[pick[j]], inv) != VoxelOf(cloud[pick[l]], inv)
    {
      FirstsDiffer(s, n, j, l);
      assert IsBest(s, pick[j], ks[j], n) && IsBest(s, pick[l], ks[l], n);
      SampleKey(cloud[pick[j]], size, inv);
      SampleKey(cloud[pick[l]], size, inv);
    }
  }

  lemma SampleKey(p: Point, size: real, inv: real)
    ensures SampleOf(p, size, inv).key == KeyOf(VoxelOf(p, inv))
  {
  }

  lemma SameVoxel(cloud: seq<Point>, size: real, inv: real, i: nat, j: nat)
    requires Indexed(cloud, inv, -1000, 31768) && i < |cloud| && j < |cloud|
    requires Samples(cloud, size, inv)[i].key == Samples(cloud, size, inv)[j].key
    ensures VoxelOf(cloud[i], inv) == VoxelOf(cloud[j], inv)
  {
    ToldApartFromMinus1000(-1000, 31768);
    SampleKey(cloud[i], size, inv);
    SampleKey(cloud[j], size, inv);
  }

  // The output is right for every cloud with indices in the box.
  ghost predicate OutputIsRight(size: real, inv: real, lo: int, n: int) {
    forall cloud, pick | Indexed(cloud, inv, lo, n) && Picks(Samples(cloud, size, inv), pick, |cloud|) ::
      OneOfEach(cloud, size, inv, pick)
  }

  lemma RightInBox(size: real, inv: real, n: int)
    requires n <= 31768
    ensures OutputIsRight(size, inv, -1000, n)
  {
    forall cloud, pick | Indexed(cloud, inv, -1000, n) && Picks(Samples(cloud, size, inv), pick, |cloud|)
      ensures OneOfEach(cloud, size, inv, pick)
    {
      OnePerVoxel(cloud, size, inv, pick);
    }
  }

  lemma WrongOutside(size: real, inv: real, lo: int, n: int)
    requires size > 0.0 && inv == 1.0 / size && !KeysDiffer(lo + 1000, n + 1000)
    ensures !OutputIsRight(size, inv, lo, n)
  {
    var c, d := Alike(lo, n);
    var cloud, pick := TwoCentres(c, d, size, inv);
    assert Indexed(cloud, inv, lo, n);
  }

  // In a box around index -1000, that is so if and only if no index is below it and none is above 31767.
  lemma RightUpTo15Bits(size: real, inv: real, lo: int, n: int)
    requires size > 0.0 && inv == 1.0 / size && lo <= -1000 < n
    ensures OutputIsRight(size, inv, lo, n) <==> lo == -1000 && n <= 31768
  {
    KeysDifferUpTo15Bits(lo + 1000, n + 1000);
    if lo == -1000 && n <= 31768 { RightInBox(size, inv, n); } else { WrongOutside(size, inv, lo, n); }
  }

  function Back1000(c: Cell): (b: Cell)
    ensures Offset1000(b) == c
  {
    Cell(c.x - OFFSET, c.y - OFFSET, c.z - OFFSET)
  }

  // Of two points in voxels with the same key, one is missing.
  lemma TwoCentres(c: Cell, d: Cell, size: real, inv: real) returns (cloud: seq<Point>, pick: seq<int>)
    requires size > 0.0 && inv == 1.0 / size && KeyOf(c) == KeyOf(d) && c != d
    ensures |cloud| == 2 && VoxelOf(cloud[0], inv) == c && VoxelOf(cloud[1], inv) == d
    ensures Picks(Samples(cloud, size, inv), pick, |cloud|) && !OneOfEach(cloud, size, inv, pick)
  {
    var half := 0.5 * size;
    CentreIsMiddle(c, size, inv, half, Centre(c, size));
    CentreIsMiddle(d, size, inv, half, Centre(d, size));
    cloud := [Centre(c, size), Centre(d, size)];
    pick := BestOfBoth(Samples(cloud, size, inv));
    OtherIsMissing(cloud, size, inv, pick);
  }

  lemma OtherIsMissing(cloud: seq<Point>, size: real, inv: real, pick: seq<int>)
    requires |cloud| == 2 && (pick == [0] || pick == [1]) && VoxelOf(cloud[0], inv) != VoxelOf(cloud[1], inv)
    ensures !OneOfEach(cloud, size, inv, pick)
  {
    assert !Represented(cloud, size, inv, pick, 1 - pick[0]);
  }

  lemma BestOfBoth(s: seq<Sample>) returns (pick: seq<int>)
    requires |s| == 2 && s[0].key == s[1].key
    ensures Picks(s, pick, 2) && (pick == [0] || pick == [1])
  {
    assert Firsts(s, 0) == [];
    assert Firsts(s, 1) == [s[0].key];
    assert Firsts(s, 2) == Firsts(s, 1);
    pick := [if s[1].d2 < s[0].d2 then 1 else 0];
  }

  lemma OnAxis(i: int, size: real, inv: real)
    requires size > 0.0 && inv == 1.0 / size
    ensures RoundAxis(Middle(i, size), inv) == i
  {
    var x := size * i as real;
    Undone(i as real, size, inv, i as real * inv);
    assert x * inv == size * (i as real * inv);
  }

  // SuperLIO::init's filter of leaf size lx.
  method Init(lx: real, hash: nat -> bv64) returns (f: VoxelGridClosest)
    requires lx > 0.0
    ensures fresh(f) && fresh(f.voxel_map_) && fresh(f.voxel_map_.mInfo) && fresh(f.voxel_map_.mKeyVals)
    ensures f.Valid() && f.Scaled() && f.voxel_size_ == lx
  {
    f := new VoxelGridClosest(hash);
    f.setLeafSize(lx);
  }

  // SuperLIO::DownSample: one point of every voxel of the scan, if its indices fit and the table does
  // not throw.
  method DownSample(f: VoxelGridClosest, scan: seq<Point>, old_output: seq<Point>)
    returns (output: seq<Point>, ok: bool, ghost pick: seq<int>)
    requires f.Valid() && f.Scaled()
    modifies f, f.voxel_map_, f.voxel_map_.mInfo, f.voxel_map_.mKeyVals
    ensures f.Valid() && f.Scaled() && f.voxel_size_ == old(f.voxel_size_)
    ensures ok ==> |output| == |pick|
    ensures ok ==> forall j | 0 <= j < |pick| :: 0 <= pick[j] < |scan| && output[j] == scan[pick[j]]
    ensures ok && Indexed(scan, f.inv_voxel_size_, -1000, 31768) ==>
              && OneOfEach(scan, f.voxel_size_, f.inv_voxel_size_, pick)
              && NearestToMiddle(scan, f.inv_voxel_size_, 0.5 * f.voxel_size_, pick)
    ensures |Firsts(Samples(scan, f.voxel_size_, f.inv_voxel_size_), |scan|)| <= 126 ==> ok
  {
    f.setInputCloud(scan);
    output, ok, pick := f.filter(old_output);
    if ok && Indexed(scan, f.inv_voxel_size_, -1000, 31768) {
      OnePerBoth(scan, f.voxel_size_, f.inv_voxel_size_, 0.5 * f.voxel_size_, pick);
    }
  }
}
