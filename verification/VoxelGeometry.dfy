// Points, the voxels and sub-voxels they fall into, and how the search of OctVoxMap.hpp walks
// through the sub-voxels around a query.
module VoxelGeometry {
  import opened KnnTables

  datatype Point = Point(x: real, y: real, z: real)

  function FloorKey(p: Point, inv: real): Cell {
    Cell(FloorAxis(p.x, inv), FloorAxis(p.y, inv), FloorAxis(p.z, inv))
  }

  function FloorAxis(v: real, inv: real): int {
    (v * inv).Floor
  }

  // fine_key >> 1 on every axis
  function VoxelKey(f: Cell): Cell {
    Cell(f.x / 2, f.y / 2, f.z / 2)
  }

  // fine_key & 1 on every axis
  function Bits(f: Cell): Cell {
    Cell(f.x % 2, f.y % 2, f.z % 2)
  }

  // (dz << 2) | (dy << 1) | dx
  function LocalIdx(f: Cell): (l: nat)
    ensures l < 8 && Local(l) == Bits(f)
  {
    LocalIndexed(f.x % 2, f.y % 2, f.z % 2);
    LocalIndex(Bits(f))
  }

  lemma FineFromParts(f: Cell)
    ensures f == Fine(VoxelKey(f), Local(LocalIdx(f)))
  {
  }

  lemma PartsOfFine(key: Cell, l: nat)
    requires l < 8
    ensures VoxelKey(Fine(key, Local(l))) == key && LocalIdx(Fine(key, Local(l))) == l
  {
    var f := Fine(key, Local(l));
    assert f.x == 2 * key.x + Local(l).x && f.y == 2 * key.y + Local(l).y && f.z == 2 * key.z + Local(l).z;
    assert VoxelKey(f) == key && Bits(f) == Local(l);
    assert LocalIndex(Local(l)) == l;
  }

  // ---- where a point can be ----

  // v lies in the half-open cell i of side s.
  predicate InSlab(v: real, i: int, s: real) {
    i as real * s <= v < (i + 1) as real * s
  }

  predicate InCell(p: Point, f: Cell, s: real) {
    InSlab(p.x, f.x, s) && InSlab(p.y, f.y, s) && InSlab(p.z, f.z, s)
  }

  predicate Inverse(s: real, inv: real) {
    s > 0.0 && s * inv == 1.0
  }

  lemma FloorInSlab(v: real, s: real, inv: real)
    requires Inverse(s, inv)
    ensures InSlab(v, FloorAxis(v, inv), s)
  {
    var i := FloorAxis(v, inv);
    var w := v * inv;
    assert i as real <= w < i as real + 1.0;
    assert w * s == v by {
      assert (v * inv) * s == v * (s * inv);
    }
    ScaleLe(i as real, w, s);
    ScaleLt(w, i as real + 1.0, s);
  }

  lemma ScaleLe(a: real, b: real, s: real)
    requires a <= b && s >= 0.0
    ensures a * s <= b * s
  {
  }

  lemma ScaleLt(a: real, b: real, s: real)
    requires a < b && s > 0.0
    ensures a * s < b * s
  {
  }

  lemma FloorInCell(p: Point, s: real, inv: real)
    requires Inverse(s, inv)
    ensures InCell(p, FloorKey(p, inv), s)
  {
    FloorInSlab(p.x, s, inv);
    FloorInSlab(p.y, s, inv);
    FloorInSlab(p.z, s, inv);
  }

  lemma {:induction false} OnlyCell(v: real, s: real, i: int, j: int)
    requires s > 0.0 && InSlab(v, i, s) && InSlab(v, j, s)
    ensures i == j
  {
    if i < j {
      ScaleLe((i + 1) as real, j as real, s);
    } else if j < i {
      ScaleLe((j + 1) as real, i as real, s);
    }
  }

  lemma FloorIs(p: Point, s: real, inv: real, f: Cell)
    requires Inverse(s, inv) && InCell(p, f, s)
    ensures FloorKey(p, inv) == f
  {
    FloorInCell(p, s, inv);
    OnlyCell(p.x, s, f.x, FloorKey(p, inv).x);
    OnlyCell(p.y, s, f.y, FloorKey(p, inv).y);
    OnlyCell(p.z, s, f.z, FloorKey(p, inv).z);
  }

  // ---- how far points of two cells are at least ----

  function Square(v: real): real {
    v * v
  }

  // (a - b).squaredNorm()
  function Dist2(a: Point, b: Point): real {
    Square(a.x - b.x) + Square(a.y - b.y) + Square(a.z - b.z)
  }

  lemma SquareNonneg(v: real)
    ensures Square(v) >= 0.0
  {
  }

  lemma Dist2Nonneg(a: Point, b: Point)
    ensures Dist2(a, b) >= 0.0
  {
    SquareNonneg(a.x - b.x);
    SquareNonneg(a.y - b.y);
    SquareNonneg(a.z - b.z);
  }

  lemma SquareGrows(a: real, v: real)
    requires 0.0 <= a <= v || 0.0 <= a <= -v
    ensures Square(v) >= Square(a)
  {
    if a <= v {
      SquareMonotone(a, v);
    } else {
      SquareMonotone(a, -v);
      assert (-v) * (-v) == v * v;
    }
  }

  lemma SquareMonotone(a: real, v: real)
    requires 0.0 <= a <= v
    ensures Square(v) >= Square(a)
  {
    ScaleLe(a, v, a);
    ScaleLe(a, v, v);
  }

  // Along one axis, with n the number of whole cells strictly between.
  lemma AxisApart(u: real, v: real, i: int, j: int, s: real, n: int)
    requires s > 0.0 && InSlab(u, i, s) && InSlab(v, j, s)
    requires n >= 0 && (i - j > n || j - i > n)
    ensures Square(u - v) >= Square(n as real * s)
  {
    var k := n as real * s;
    assert k >= 0.0;
    if i - j > n {
      Between(v, u, j, i, s, n);
    } else {
      Between(u, v, i, j, s, n);
    }
    SquareGrows(k, u - v);
  }

  lemma Between(u: real, v: real, i: int, j: int, s: real, n: int)
    requires s > 0.0 && InSlab(u, i, s) && InSlab(v, j, s) && n >= 0 && j - i > n
    ensures v - u >= n as real * s
  {
    var a, b, c := (i + 1) as real, j as real, n as real;
    ScaleLe(a + c, b, s);
    ScaleSum(a, c, s);
    Difference(u, v, a * s, b * s, c * s, (a + c) * s);
  }

  lemma ScaleSum(a: real, c: real, s: real)
    ensures (a + c) * s == a * s + c * s
  {
  }

  lemma Difference(u: real, v: real, a: real, b: real, c: real, sum: real)
    requires u < a && b <= v && sum <= b && sum == a + c
    ensures v - u >= c
  {
  }

  // d2 is at least the gap of cells i and j, in squares s2 of their side.
  predicate AxisFar(d2: real, i: int, j: int, s2: real) {
    d2 >= Gap2(i - j) as real * s2
  }

  lemma AxisGap(u: real, v: real, i: int, j: int, s: real, s2: real)
    requires s > 0.0 && s2 == Square(s) && InSlab(u, i, s) && InSlab(v, j, s)
    ensures AxisFar(Square(u - v), i, j, s2)
  {
    var o := i - j;
    SquareNonneg(u - v);
    if o >= 4 || o <= -4 {
      AxisApart(u, v, i, j, s, 3);
    } else if o == 3 || o == -3 {
      AxisApart(u, v, i, j, s, 2);
    } else if o == 2 || o == -2 {
      AxisApart(u, v, i, j, s, 1);
    }
  }

  // Points of cells whose gaps have at least n squares s2 of the side.
  lemma CellsApart(p: Point, q: Point, f: Cell, g: Cell, s: real, s2: real, n: nat)
    requires s > 0.0 && s2 == Square(s) && InCell(p, f, s) && InCell(q, g, s)
    requires n <= MinDist2(Cell(f.x - g.x, f.y - g.y, f.z - g.z))
    ensures Dist2(p, q) >= n as real * s2
  {
    var dx, dy, dz := AxesGap(p, q, f, g, s, s2);
    AddAxes(dx, dy, dz, f, g, s2, n);
  }

  lemma AxesGap(p: Point, q: Point, f: Cell, g: Cell, s: real, s2: real) returns (dx: real, dy: real, dz: real)
    requires s > 0.0 && s2 == Square(s) && InCell(p, f, s) && InCell(q, g, s)
    ensures Dist2(p, q) == dx + dy + dz && s2 >= 0.0
    ensures AxisFar(dx, f.x, g.x, s2) && AxisFar(dy, f.y, g.y, s2) && AxisFar(dz, f.z, g.z, s2)
  {
    SquareNonneg(s);
    AxisGap(p.x, q.x, f.x, g.x, s, s2);
    AxisGap(p.y, q.y, f.y, g.y, s, s2);
    AxisGap(p.z, q.z, f.z, g.z, s, s2);
    dx, dy, dz := Square(p.x - q.x), Square(p.y - q.y), Square(p.z - q.z);
  }

  lemma AddAxes(dx: real, dy: real, dz: real, f: Cell, g: Cell, s2: real, n: nat)
    requires AxisFar(dx, f.x, g.x, s2) && AxisFar(dy, f.y, g.y, s2) && AxisFar(dz, f.z, g.z, s2)
    requires s2 >= 0.0 && n <= MinDist2(Cell(f.x - g.x, f.y - g.y, f.z - g.z))
    ensures dx + dy + dz >= n as real * s2
  {
    AddGaps(dx, dy, dz, Gap2(f.x - g.x), Gap2(f.y - g.y), Gap2(f.z - g.z), s2, n);
  }

  lemma AddGaps(dx: real, dy: real, dz: real, a: nat, b: nat, c: nat, s2: real, n: nat)
    requires dx >= a as real * s2 && dy >= b as real * s2 && dz >= c as real * s2
    requires s2 >= 0.0 && n <= a + b + c
    ensures dx + dy + dz >= n as real * s2
  {
    SumOfGaps(a, b, c, s2);
    ScaleLe(n as real, (a + b + c) as real, s2);
  }

  lemma SumOfGaps(a: nat, b: nat, c: nat, s2: real)
    ensures (a + b + c) as real * s2 == a as real * s2 + b as real * s2 + c as real * s2
  {
    ScaleSum((a + b) as real, c as real, s2);
    ScaleSum(a as real, b as real, s2);
  }
}
