// The tables of HKNN_list60_gem.h that getTopK interprets, and what they are: the enumeration
// of the sub-voxels around a query, group by group, by their least possible distance.
module KnnTables {

  datatype Cell = Cell(x: int, y: int, z: int)

  const NEIGHBORS := 60
  const GROUPS := 6

  // HKNN_neighbor_voxel
  function Neighbor(k: nat): Cell {
    match k
    case 0 => Cell(0, 0, 0)
    case 1 => Cell(0, -1, 0)
    case 2 => Cell(0, 0, -1)
    case 3 => Cell(-1, 0, 0)
    case 4 => Cell(-1, 0, -1)
    case 5 => Cell(0, -1, -1)
    case 6 => Cell(-1, -1, 0)
    case 7 => Cell(-1, -1, -1)
    case 8 => Cell(1, 0, 0)
    case 9 => Cell(0, 1, 0)
    case 10 => Cell(0, 0, 1)
    case 11 => Cell(0, -1, 1)
    case 12 => Cell(1, -1, 0)
    case 13 => Cell(1, 0, -1)
    case 14 => Cell(0, 1, -1)
    case 15 => Cell(-1, 1, 0)
    case 16 => Cell(-1, 0, 1)
    case 17 => Cell(-1, -1, 1)
    case 18 => Cell(-1, 1, -1)
    case 19 => Cell(1, -1, -1)
    case 20 => Cell(0, 0, -2)
    case 21 => Cell(0, 1, 1)
    case 22 => Cell(1, 1, 0)
    case 23 => Cell(1, 0, 1)
    case 24 => Cell(-2, 0, 0)
    case 25 => Cell(0, -2, 0)
    case 26 => Cell(-2, 0, -1)
    case 27 => Cell(-1, 0, -2)
    case 28 => Cell(-1, -2, 0)
    case 29 => Cell(-2, -1, 0)
    case 30 => Cell(0, -2, -1)
    case 31 => Cell(1, 1, -1)
    case 32 => Cell(-1, 1, 1)
    case 33 => Cell(1, -1, 1)
    case 34 => Cell(0, -1, -2)
    case 35 => Cell(-2, -1, -1)
    case 36 => Cell(-1, -1, -2)
    case 37 => Cell(-1, -2, -1)
    case 38 => Cell(-2, 1, 0)
    case 39 => Cell(1, -2, 0)
    case 40 => Cell(0, -2, 1)
    case 41 => Cell(0, 1, -2)
    case 42 => Cell(1, 0, -2)
    case 43 => Cell(1, 1, 1)
    case 44 => Cell(-2, 0, 1)
    case 45 => Cell(1, -1, -2)
    case 46 => Cell(1, -2, -1)
    case 47 => Cell(-2, 1, -1)
    case 48 => Cell(-2, -1, 1)
    case 49 => Cell(-1, 1, -2)
    case 50 => Cell(-1, -2, 1)
    case 51 => Cell(0, -2, -2)
    case 52 => Cell(-2, 0, -2)
    case 53 => Cell(-2, 1, 1)
    case 54 => Cell(1, 1, -2)
    case 55 => Cell(1, -2, 1)
    case 56 => Cell(-2, -2, 0)
    case 57 => Cell(-2, -1, -2)
    case 58 => Cell(-2, -2, -1)
    case _ => Cell(-1, -2, -2)
  }

  // The data bytes of a line of flat_search_order, which is written: neighbor, number of data
  // bytes, data bytes.
  datatype Locals = Nil | Cons(l: nat, rest: Locals)

  function Size(ls: Locals): nat {
    if ls.Nil? then 0 else 1 + Size(ls.rest)
  }

  function One(a: nat): (r: Locals)
    ensures r.Cons? && Size(r) == 1
  {
    Cons(a, Nil)
  }

  function Two(a: nat, b: nat): (r: Locals)
    ensures r.Cons? && Size(r) == 2
  {
    Cons(a, One(b))
  }

  function Three(a: nat, b: nat, c: nat): (r: Locals)
    ensures r.Cons? && Size(r) == 3
  {
    Cons(a, Two(b, c))
  }

  function Four(a: nat, b: nat, c: nat, d: nat): (r: Locals)
    ensures r.Cons? && Size(r) == 4
  {
    Cons(a, Three(b, c, d))
  }

  function AllEight(): (r: Locals)
    ensures r.Cons? && Size(r) == 8
  {
    var r4 := Four(4, 5, 6, 7);
    var r2 := Cons(2, Cons(3, r4));
    assert Size(r2) == 6;
    Cons(0, Cons(1, r2))
  }

  // flat_search_order: the line of neighbor k in group g, Nil if the group has no such line. In
  // every group the lines come in the order of their neighbors.
  function Data(g: nat, k: nat): Locals {
    match g
    case 0 => Group0(k)
    case 1 => Group1(k)
    case 2 => Group2(k)
    case 3 => Group3(k)
    case 4 => Group4(k)
    case 5 => Group5(k)
    case _ => Nil
  }

  function Group0(k: nat): Locals {
    match k
    case 0 => AllEight()
    case 1 => Four(2, 3, 6, 7)
    case 2 => Four(4, 5, 6, 7)
    case 3 => Four(1, 3, 5, 7)
    case 4 => Two(5, 7)
    case 5 => Two(6, 7)
    case 6 => Two(3, 7)
    case 7 => One(7)
    case _ => Nil
  }

  function Group1(k: nat): Locals {
    match k
    case 1 => Four(0, 1, 4, 5)
    case 2 => Four(0, 1, 2, 3)
    case 3 => Four(0, 2, 4, 6)
    case 4 => Four(1, 3, 4, 6)
    case 5 => Four(2, 3, 4, 5)
    case 6 => Four(1, 2, 5, 6)
    case 7 => Three(3, 5, 6)
    case 8 => Four(0, 2, 4, 6)
    case 9 => Four(0, 1, 4, 5)
    case 10 => Four(0, 1, 2, 3)
    case 11 => Two(2, 3)
    case 12 => Two(2, 6)
    case 13 => Two(4, 6)
    case 14 => Two(4, 5)
    case 15 => Two(1, 5)
    case 16 => Two(1, 3)
    case 17 => One(3)
    case 18 => One(5)
    case 19 => One(6)
    case _ => Nil
  }

  function Group2(k: nat): Locals {
    match k
    case 4 => Two(0, 2)
    case 5 => Two(0, 1)
    case 6 => Two(0, 4)
    case 7 => Four(0, 1, 2, 4)
    case 11 => Two(0, 1)
    case 12 => Two(0, 4)
    case 13 => Two(0, 2)
    case 14 => Two(0, 1)
    case 15 => Two(0, 4)
    case 16 => Two(0, 2)
    case 17 => Three(0, 1, 2)
    case 18 => Three(0, 1, 4)
    case 19 => Three(0, 2, 4)
    case 21 => Two(0, 1)
    case 22 => Two(0, 4)
    case 23 => Two(0, 2)
    case 31 => Two(0, 4)
    case 32 => Two(0, 1)
    case 33 => Two(0, 2)
    case 43 => One(0)
    case _ => Nil
  }

  function Group3(k: nat): Locals {
    match k
    case 8 => Four(1, 3, 5, 7)
    case 9 => Four(2, 3, 6, 7)
    case 10 => Four(4, 5, 6, 7)
    case 11 => Two(6, 7)
    case 12 => Two(3, 7)
    case 13 => Two(5, 7)
    case 14 => Two(6, 7)
    case 15 => Two(3, 7)
    case 16 => Two(5, 7)
    case 17 => One(7)
    case 18 => One(7)
    case 19 => One(7)
    case 20 => Four(4, 5, 6, 7)
    case 24 => Four(1, 3, 5, 7)
    case 25 => Four(2, 3, 6, 7)
    case 26 => Two(5, 7)
    case 27 => Two(5, 7)
    case 28 => Two(3, 7)
    case 29 => Two(3, 7)
    case 30 => Two(6, 7)
    case 34 => Two(6, 7)
    case 35 => One(7)
    case 36 => One(7)
    case 37 => One(7)
    case _ => Nil
  }

  function Group4(k: nat): Locals {
    match k
    case 11 => Two(4, 5)
    case 12 => Two(1, 5)
    case 13 => Two(1, 3)
    case 14 => Two(2, 3)
    case 15 => Two(2, 6)
    case 16 => Two(4, 6)
    case 17 => Two(5, 6)
    case 18 => Two(3, 6)
    case 19 => Two(3, 5)
    case 21 => Four(2, 3, 4, 5)
    case 22 => Four(1, 2, 5, 6)
    case 23 => Four(1, 3, 4, 6)
    case 26 => Two(1, 3)
    case 27 => Two(4, 6)
    case 28 => Two(2, 6)
    case 29 => Two(1, 5)
    case 30 => Two(2, 3)
    case 31 => Two(5, 6)
    case 32 => Two(3, 5)
    case 33 => Two(3, 6)
    case 34 => Two(4, 5)
    case 35 => Two(3, 5)
    case 36 => Two(5, 6)
    case 37 => Two(3, 6)
    case 38 => Two(1, 5)
    case 39 => Two(2, 6)
    case 40 => Two(2, 3)
    case 41 => Two(4, 5)
    case 42 => Two(4, 6)
    case 44 => Two(1, 3)
    case 45 => One(6)
    case 46 => One(6)
    case 47 => One(5)
    case 48 => One(3)
    case 49 => One(5)
    case 50 => One(3)
    case _ => Nil
  }

  function Group5(k: nat): Locals {
    match k
    case 17 => One(4)
    case 18 => One(2)
    case 19 => One(1)
    case 21 => Two(6, 7)
    case 22 => Two(3, 7)
    case 23 => Two(5, 7)
    case 31 => Three(1, 2, 7)
    case 32 => Three(2, 4, 7)
    case 33 => Three(1, 4, 7)
    case 35 => One(1)
    case 36 => One(4)
    case 37 => One(2)
    case 38 => Two(3, 7)
    case 39 => Two(3, 7)
    case 40 => Two(6, 7)
    case 41 => Two(6, 7)
    case 42 => Two(5, 7)
    case 43 => Three(1, 2, 4)
    case 44 => Two(5, 7)
    case 45 => Two(4, 7)
    case 46 => Two(2, 7)
    case 47 => Two(1, 7)
    case 48 => Two(1, 7)
    case 49 => Two(4, 7)
    case 50 => Two(2, 7)
    case 51 => Two(6, 7)
    case 52 => Two(5, 7)
    case 53 => One(1)
    case 54 => One(4)
    case 55 => One(2)
    case 56 => Two(3, 7)
    case 57 => One(7)
    case 58 => One(7)
    case 59 => One(7)
    case _ => Nil
  }

  // ---- what an entry denotes in the canonical octant ----

  // The sub-voxel l of a voxel, as offsets 0 or 1 along the axes: l is dz << 2 | dy << 1 | dx.
  function Local(l: nat): Cell {
    match l
    case 0 => Cell(0, 0, 0)
    case 1 => Cell(1, 0, 0)
    case 2 => Cell(0, 1, 0)
    case 3 => Cell(1, 1, 0)
    case 4 => Cell(0, 0, 1)
    case 5 => Cell(1, 0, 1)
    case 6 => Cell(0, 1, 1)
    case _ => Cell(1, 1, 1)
  }

  function Fine(d: Cell, b: Cell): Cell {
    Cell(2 * d.x + b.x, 2 * d.y + b.y, 2 * d.z + b.z)
  }

  // Entry l of neighbor voxel k, in sub-voxels from the query's own.
  function Offset(k: nat, l: nat): Cell {
    Fine(Neighbor(k), Local(l))
  }

  // The square of the least distance between two unit intervals that start o apart, cut at 9.
  function Gap2(o: int): nat {
    if -1 <= o <= 1 then 0 else if -2 <= o <= 2 then 1 else if -3 <= o <= 3 then 4 else 9
  }

  // A lower bound of the squared distance between points of two sub-voxels o apart, in sub-voxel
  // sides; tight as long as it is below 9.
  function MinDist2(o: Cell): nat {
    Gap2(o.x) + Gap2(o.y) + Gap2(o.z)
  }

  // The group meant to list the offsets at that distance; GROUPS when none is.
  function GroupOf(m: nat): nat {
    if m == 0 then 0 else if m == 1 then 1 else if m <= 3 then 2 else if m == 4 then 3 else if m == 5 then 4
    else if m <= 8 then 5 else GROUPS
  }

  function Rank(k: nat, l: nat): nat {
    GroupOf(MinDist2(Offset(k, l)))
  }

  // ---- the data bytes against the geometry ----

  // The ranks of the eight entries of neighbor k.
  datatype Row = Row(a: nat, b: nat, c: nat, d: nat, e: nat, f: nat, g: nat, h: nat)

  function Ranks(k: nat): Row {
    match k
    case 0 => Row(0, 0, 0, 0, 0, 0, 0, 0)
    case 1 => Row(1, 1, 0, 0, 1, 1, 0, 0)
    case 2 => Row(1, 1, 1, 1, 0, 0, 0, 0)
    case 3 => Row(1, 0, 1, 0, 1, 0, 1, 0)
    case 4 => Row(2, 1, 2, 1, 1, 0, 1, 0)
    case 5 => Row(2, 2, 1, 1, 1, 1, 0, 0)
    case 6 => Row(2, 1, 1, 0, 2, 1, 1, 0)
    case 7 => Row(2, 2, 2, 1, 2, 1, 1, 0)
    case 8 => Row(1, 3, 1, 3, 1, 3, 1, 3)
    case 9 => Row(1, 1, 3, 3, 1, 1, 3, 3)
    case 10 => Row(1, 1, 1, 1, 3, 3, 3, 3)
    case 11 => Row(2, 2, 1, 1, 4, 4, 3, 3)
    case 12 => Row(2, 4, 1, 3, 2, 4, 1, 3)
    case 13 => Row(2, 4, 2, 4, 1, 3, 1, 3)
    case 14 => Row(2, 2, 4, 4, 1, 1, 3, 3)
    case 15 => Row(2, 1, 4, 3, 2, 1, 4, 3)
    case 16 => Row(2, 1, 2, 1, 4, 3, 4, 3)
    case 17 => Row(2, 2, 2, 1, 5, 4, 4, 3)
    case 18 => Row(2, 2, 5, 4, 2, 1, 4, 3)
    case 19 => Row(2, 5, 2, 4, 2, 4, 1, 3)
    case 20 => Row(6, 6, 6, 6, 3, 3, 3, 3)
    case 21 => Row(2, 2, 4, 4, 4, 4, 5, 5)
    case 22 => Row(2, 4, 4, 5, 2, 4, 4, 5)
    case 23 => Row(2, 4, 2, 4, 4, 5, 4, 5)
    case 24 => Row(6, 3, 6, 3, 6, 3, 6, 3)
    case 25 => Row(6, 6, 3, 3, 6, 6, 3, 3)
    case 26 => Row(6, 4, 6, 4, 6, 3, 6, 3)
    case 27 => Row(6, 6, 6, 6, 4, 3, 4, 3)
    case 28 => Row(6, 6, 4, 3, 6, 6, 4, 3)
    case 29 => Row(6, 4, 6, 3, 6, 4, 6, 3)
    case 30 => Row(6, 6, 4, 4, 6, 6, 3, 3)
    case 31 => Row(2, 5, 5, 6, 2, 4, 4, 5)
    case 32 => Row(2, 2, 5, 4, 5, 4, 6, 5)
    case 33 => Row(2, 5, 2, 4, 5, 6, 4, 5)
    case 34 => Row(6, 6, 6, 6, 4, 4, 3, 3)
    case 35 => Row(6, 5, 6, 4, 6, 4, 6, 3)
    case 36 => Row(6, 6, 6, 6, 5, 4, 4, 3)
    case 37 => Row(6, 6, 5, 4, 6, 6, 4, 3)
    case 38 => Row(6, 4, 6, 5, 6, 4, 6, 5)
    case 39 => Row(6, 6, 4, 5, 6, 6, 4, 5)
    case 40 => Row(6, 6, 4, 4, 6, 6, 5, 5)
    case 41 => Row(6, 6, 6, 6, 4, 4, 5, 5)
    case 42 => Row(6, 6, 6, 6, 4, 5, 4, 5)
    case 43 => Row(2, 5, 5, 6, 5, 6, 6, 6)
    case 44 => Row(6, 4, 6, 4, 6, 5, 6, 5)
    case 45 => Row(6, 6, 6, 6, 5, 6, 4, 5)
    case 46 => Row(6, 6, 5, 6, 6, 6, 4, 5)
    case 47 => Row(6, 5, 6, 6, 6, 4, 6, 5)
    case 48 => Row(6, 5, 6, 4, 6, 6, 6, 5)
    case 49 => Row(6, 6, 6, 6, 5, 4, 6, 5)
    case 50 => Row(6, 6, 5, 4, 6, 6, 6, 5)
    case 51 => Row(6, 6, 6, 6, 6, 6, 5, 5)
    case 52 => Row(6, 6, 6, 6, 6, 5, 6, 5)
    case 53 => Row(6, 5, 6, 6, 6, 6, 6, 6)
    case 54 => Row(6, 6, 6, 6, 5, 6, 6, 6)
    case 55 => Row(6, 6, 5, 6, 6, 6, 6, 6)
    case 56 => Row(6, 6, 6, 5, 6, 6, 6, 5)
    case 57 => Row(6, 6, 6, 6, 6, 6, 6, 5)
    case 58 => Row(6, 6, 6, 6, 6, 6, 6, 5)
    case _ => Row(6, 6, 6, 6, 6, 6, 6, 5)
  }

  // Gap2 at sub-voxel b of a voxel d away.
  function AxisGap2(d: int, b: nat): nat {
    if d == -2 then (if b == 0 then 9 else 4) else if d == -1 then (if b == 0 then 1 else 0)
    else if d == 0 then 0 else (if b == 0 then 1 else 4)
  }

  function VoxelRank(d: Cell, bx: nat, by': nat, bz: nat): nat {
    GroupOf(AxisGap2(d.x, bx) + AxisGap2(d.y, by') + AxisGap2(d.z, bz))
  }

  predicate InBox(d: Cell) {
    -2 <= d.x <= 1 && -2 <= d.y <= 1 && -2 <= d.z <= 1
  }

  lemma NeighborInBox(k: nat)
    ensures InBox(Neighbor(k))
  {
  }

  lemma RankIsVoxelRank(k: nat, l: nat)
    ensures Rank(k, l) == VoxelRank(Neighbor(k), Local(l).x, Local(l).y, Local(l).z)
  {
    NeighborInBox(k);
    VoxelRankIs(Neighbor(k), Local(l));
  }

  lemma VoxelRankIs(d: Cell, b: Cell)
    requires InBox(d) && 0 <= b.x <= 1 && 0 <= b.y <= 1 && 0 <= b.z <= 1
    ensures GroupOf(MinDist2(Fine(d, b))) == VoxelRank(d, b.x, b.y, b.z)
  {
    assert 0 <= b.x <= 1 && 0 <= b.y <= 1 && 0 <= b.z <= 1;
    assert Gap2(2 * d.x + b.x) == AxisGap2(d.x, b.x);
    assert Gap2(2 * d.y + b.y) == AxisGap2(d.y, b.y);
    assert Gap2(2 * d.z + b.z) == AxisGap2(d.z, b.z);
  }

  function Entry(r: Row, l: nat): nat {
    match l
    case 0 => r.a case 1 => r.b case 2 => r.c case 3 => r.d
    case 4 => r.e case 5 => r.f case 6 => r.g case _ => r.h
  }

  // The ranks of a voxel whose squared gaps along the axes are a0, b0, c0 at its sub-voxels 0 and
  // a1, b1, c1 at its sub-voxels 1.
  function GapRow(a0: nat, a1: nat, b0: nat, b1: nat, c0: nat, c1: nat): Row {
    Row(GroupOf(a0 + b0 + c0), GroupOf(a1 + b0 + c0), GroupOf(a0 + b1 + c0), GroupOf(a1 + b1 + c0),
        GroupOf(a0 + b0 + c1), GroupOf(a1 + b0 + c1), GroupOf(a0 + b1 + c1), GroupOf(a1 + b1 + c1))
  }

  predicate RowOf(d: Cell, r: Row) {
    VoxelRank(d, 0, 0, 0) == r.a && VoxelRank(d, 1, 0, 0) == r.b
    && VoxelRank(d, 0, 1, 0) == r.c && VoxelRank(d, 1, 1, 0) == r.d
    && VoxelRank(d, 0, 0, 1) == r.e && VoxelRank(d, 1, 0, 1) == r.f
    && VoxelRank(d, 0, 1, 1) == r.g && VoxelRank(d, 1, 1, 1) == r.h
  }

  lemma GapRowIs(d: Cell, a0: nat, a1: nat, b0: nat, b1: nat, c0: nat, c1: nat)
    requires AxisGap2(d.x, 0) == a0 && AxisGap2(d.x, 1) == a1
    requires AxisGap2(d.y, 0) == b0 && AxisGap2(d.y, 1) == b1
    requires AxisGap2(d.z, 0) == c0 && AxisGap2(d.z, 1) == c1
    ensures RowOf(d, GapRow(a0, a1, b0, b1, c0, c1))
  {
  }

  lemma Known(k: nat, a0: nat, a1: nat, b0: nat, b1: nat, c0: nat, c1: nat)
    requires AxisGap2(Neighbor(k).x, 0) == a0 && AxisGap2(Neighbor(k).x, 1) == a1
    requires AxisGap2(Neighbor(k).y, 0) == b0 && AxisGap2(Neighbor(k).y, 1) == b1
    requires AxisGap2(Neighbor(k).z, 0) == c0 && AxisGap2(Neighbor(k).z, 1) == c1
    requires Ranks(k) == GapRow(a0, a1, b0, b1, c0, c1)
    ensures RowOf(Neighbor(k), Ranks(k))
  {
    GapRowIs(Neighbor(k), a0, a1, b0, b1, c0, c1);
  }

  lemma Rows0(k: nat)
    requires 0 <= k < 10
    ensures RowOf(Neighbor(k), Ranks(k))
  {
    match k
    case 0 => Known(0, 0, 0, 0, 0, 0, 0);
    case 1 => Known(1, 0, 0, 1, 0, 0, 0);
    case 2 => Known(2, 0, 0, 0, 0, 1, 0);
    case 3 => Known(3, 1, 0, 0, 0, 0, 0);
    case 4 => Known(4, 1, 0, 0, 0, 1, 0);
    case 5 => Known(5, 0, 0, 1, 0, 1, 0);
    case 6 => Known(6, 1, 0, 1, 0, 0, 0);
    case 7 => Known(7, 1, 0, 1, 0, 1, 0);
    case 8 => Known(8, 1, 4, 0, 0, 0, 0);
    case 9 => Known(9, 0, 0, 1, 4, 0, 0);
  }

  lemma Rows1(k: nat)
    requires 10 <= k < 20
    ensures RowOf(Neighbor(k), Ranks(k))
  {
    match k
    case 10 => Known(10, 0, 0, 0, 0, 1, 4);
    case 11 => Known(11, 0, 0, 1, 0, 1, 4);
    case 12 => Known(12, 1, 4, 1, 0, 0, 0);
    case 13 => Known(13, 1, 4, 0, 0, 1, 0);
    case 14 => Known(14, 0, 0, 1, 4, 1, 0);
    case 15 => Known(15, 1, 0, 1, 4, 0, 0);
    case 16 => Known(16, 1, 0, 0, 0, 1, 4);
    case 17 => Known(17, 1, 0, 1, 0, 1, 4);
    case 18 => Known(18, 1, 0, 1, 4, 1, 0);
    case 19 => Known(19, 1, 4, 1, 0, 1, 0);
  }

  lemma Rows2(k: nat)
    requires 20 <= k < 30
    ensures RowOf(Neighbor(k), Ranks(k))
  {
    match k
    case 20 => Known(20, 0, 0, 0, 0, 9, 4);
    case 21 => Known(21, 0, 0, 1, 4, 1, 4);
    case 22 => Known(22, 1, 4, 1, 4, 0, 0);
    case 23 => Known(23, 1, 4, 0, 0, 1, 4);
    case 24 => Known(24, 9, 4, 0, 0, 0, 0);
    case 25 => Known(25, 0, 0, 9, 4, 0, 0);
    case 26 => Known(26, 9, 4, 0, 0, 1, 0);
    case 27 => Known(27, 1, 0, 0, 0, 9, 4);
    case 28 => Known(28, 1, 0, 9, 4, 0, 0);
    case 29 => Known(29, 9, 4, 1, 0, 0, 0);
  }

  lemma Rows3(k: nat)
    requires 30 <= k < 40
    ensures RowOf(Neighbor(k), Ranks(k))
  {
    match k
    case 30 => Known(30, 0, 0, 9, 4, 1, 0);
    case 31 => Known(31, 1, 4, 1, 4, 1, 0);
    case 32 => Known(32, 1, 0, 1, 4, 1, 4);
    case 33 => Known(33, 1, 4, 1, 0, 1, 4);
    case 34 => Known(34, 0, 0, 1, 0, 9, 4);
    case 35 => Known(35, 9, 4, 1, 0, 1, 0);
    case 36 => Known(36, 1, 0, 1, 0, 9, 4);
    case 37 => Known(37, 1, 0, 9, 4, 1, 0);
    case 38 => Known(38, 9, 4, 1, 4, 0, 0);
    case 39 => Known(39, 1, 4, 9, 4, 0, 0);
  }

  lemma Rows4(k: nat)
    requires 40 <= k < 50
    ensures RowOf(Neighbor(k), Ranks(k))
  {
    match k
    case 40 => Known(40, 0, 0, 9, 4, 1, 4);
    case 41 => Known(41, 0, 0, 1, 4, 9, 4);
    case 42 => Known(42, 1, 4, 0, 0, 9, 4);
    case 43 => Known(43, 1, 4, 1, 4, 1, 4);
    case 44 => Known(44, 9, 4, 0, 0, 1, 4);
    case 45 => Known(45, 1, 4, 1, 0, 9, 4);
    case 46 => Known(46, 1, 4, 9, 4, 1, 0);
    case 47 => Known(47, 9, 4, 1, 4, 1, 0);
    case 48 => Known(48, 9, 4, 1, 0, 1, 4);
    case 49 => Known(49, 1, 0, 1, 4, 9, 4);
  }

  lemma Rows5(k: nat)
    requires 50 <= k < 60
    ensures RowOf(Neighbor(k), Ranks(k))
  {
    match k
    case 50 => Known(50, 1, 0, 9, 4, 1, 4);
    case 51 => Known(51, 0, 0, 9, 4, 9, 4);
    case 52 => Known(52, 9, 4, 0, 0, 9, 4);
    case 53 => Known(53, 9, 4, 1, 4, 1, 4);
    case 54 => Known(54, 1, 4, 1, 4, 9, 4);
    case 55 => Known(55, 1, 4, 9, 4, 1, 4);
    case 56 => Known(56, 9, 4, 9, 4, 0, 0);
    case 57 => Known(57, 9, 4, 1, 0, 9, 4);
    case 58 => Known(58, 9, 4, 9, 4, 1, 0);
    case 59 => Known(59, 1, 0, 9, 4, 9, 4);
  }

  lemma RankIsEntry(k: nat, l: nat)
    requires k < NEIGHBORS && l < 8
    ensures Rank(k, l) == Entry(Ranks(k), l)
  {
    RankIsVoxelRank(k, l);
    AllRows(k);
    RowEntry(Neighbor(k), Ranks(k), l);
  }

  lemma RowEntry(d: Cell, r: Row, l: nat)
    requires RowOf(d, r) && l < 8
    ensures VoxelRank(d, Local(l).x, Local(l).y, Local(l).z) == Entry(r, l)
  {
    if l == 0 {} else if l == 1 {} else if l == 2 {} else if l == 3 {}
    else if l == 4 {} else if l == 5 {} else if l == 6 {} else { assert l == 7; }
  }

  lemma AllRows(k: nat)
    requires k < NEIGHBORS
    ensures RowOf(Neighbor(k), Ranks(k))
  {
    if k < 10 { Rows0(k); } else if k < 20 { Rows1(k); } else if k < 30 { Rows2(k); }
    else if k < 40 { Rows3(k); } else if k < 50 { Rows4(k); } else { Rows5(k); }
  }

  function Pick(listed: bool, l: nat, rest: Locals): Locals {
    if listed then Cons(l, rest) else rest
  }

  function Listing(i: nat, r: Row): Locals {
    Pick(r.a == i, 0, Pick(r.b == i, 1, Pick(r.c == i, 2, Pick(r.d == i, 3,
    Pick(r.e == i, 4, Pick(r.f == i, 5, Pick(r.g == i, 6, Pick(r.h == i, 7, Nil))))))))
  }

  lemma Data0Low(k: nat)
    requires 0 <= k < 30
    ensures Group0(k) == Listing(0, Ranks(k))
  {
  }

  lemma Data0High(k: nat)
    requires 30 <= k < 60
    ensures Group0(k) == Listing(0, Ranks(k))
  {
  }

  lemma Data1Low(k: nat)
    requires 0 <= k < 30
    ensures Group1(k) == Listing(1, Ranks(k))
  {
  }

  lemma Data1High(k: nat)
    requires 30 <= k < 60
    ensures Group1(k) == Listing(1, Ranks(k))
  {
  }

  lemma Data2Low(k: nat)
    requires 0 <= k < 30
    ensures Group2(k) == Listing(2, Ranks(k))
  {
  }

  lemma Data2High(k: nat)
    requires 30 <= k < 60
    ensures Group2(k) == Listing(2, Ranks(k))
  {
  }

  lemma Data3From0(k: nat)
    requires 0 <= k < 10
    ensures Group3(k) == Listing(3, Ranks(k))
  {
  }

  lemma Data3From10(k: nat)
    requires 10 <= k < 20
    ensures Group3(k) == Listing(3, Ranks(k))
  {
  }

  lemma Data3From20(k: nat)
    requires 20 <= k < 30
    ensures Group3(k) == Listing(3, Ranks(k))
  {
  }

  lemma Data3From30(k: nat)
    requires 30 <= k < 40
    ensures Group3(k) == Listing(3, Ranks(k))
  {
  }

  lemma Data3From40(k: nat)
    requires 40 <= k < 50
    ensures Group3(k) == Listing(3, Ranks(k))
  {
  }

  lemma Data3From50(k: nat)
    requires 50 <= k < 60
    ensures Group3(k) == Listing(3, Ranks(k))
  {
  }

  lemma Data4From0(k: nat)
    requires 0 <= k < 10
    ensures Group4(k) == Listing(4, Ranks(k))
  {
  }

  lemma Data4From10(k: nat)
    requires 10 <= k < 20
    ensures Group4(k) == Listing(4, Ranks(k))
  {
  }

  lemma Data4From20(k: nat)
    requires 20 <= k < 30
    ensures Group4(k) == Listing(4, Ranks(k))
  {
  }

  lemma Data4From30(k: nat)
    requires 30 <= k < 40
    ensures Group4(k) == Listing(4, Ranks(k))
  {
  }

  lemma Data4From40(k: nat)
    requires 40 <= k < 50
    ensures Group4(k) == Listing(4, Ranks(k))
  {
  }

  lemma Data4From50(k: nat)
    requires 50 <= k < 60
    ensures Group4(k) == Listing(4, Ranks(k))
  {
  }

  lemma Data5From0(k: nat)
    requires 0 <= k < 10
    ensures Group5(k) == Listing(5, Ranks(k))
  {
  }

  lemma Data5From10(k: nat)
    requires 10 <= k < 20
    ensures Group5(k) == Listing(5, Ranks(k))
  {
  }

  lemma Data5From20(k: nat)
    requires 20 <= k < 30
    ensures Group5(k) == Listing(5, Ranks(k))
  {
  }

  lemma Data5From30(k: nat)
    requires 30 <= k < 40
    ensures Group5(k) == Listing(5, Ranks(k))
  {
  }

  lemma Data5From40(k: nat)
    requires 40 <= k < 50
    ensures Group5(k) == Listing(5, Ranks(k))
  {
  }

  lemma Data5From50(k: nat)
    requires 50 <= k < 60
    ensures Group5(k) == Listing(5, Ranks(k))
  {
  }

  lemma DataIsListing(g: nat, k: nat)
    requires g < GROUPS && k < NEIGHBORS
    ensures Data(g, k) == Listing(g, Ranks(k))
  {
    if k < 30 {
      Data0Low(k); Data1Low(k); Data2Low(k);
    } else {
      Data0High(k); Data1High(k); Data2High(k);
    }
    if k < 10 {
      Data3From0(k); Data4From0(k); Data5From0(k);
    } else if k < 20 {
      Data3From10(k); Data4From10(k); Data5From10(k);
    } else if k < 30 {
      Data3From20(k); Data4From20(k); Data5From20(k);
    } else if k < 40 {
      Data3From30(k); Data4From30(k); Data5From30(k);
    } else if k < 50 {
      Data3From40(k); Data4From40(k); Data5From40(k);
    } else {
      Data3From50(k); Data4From50(k); Data5From50(k);
    }
  }

  predicate Member(ls: Locals, l: nat) {
    ls.Cons? && (ls.l == l || Member(ls.rest, l))
  }

  // Strictly ascending entries below 8, from at on.
  predicate Ascending(ls: Locals, at: nat) {
    ls.Cons? ==> at <= ls.l < 8 && Ascending(ls.rest, ls.l + 1)
  }

  lemma {:induction false} Weaken(ls: Locals, at: nat, at': nat)
    requires Ascending(ls, at) && at' <= at
    ensures Ascending(ls, at')
  {
  }

  lemma ListingAscends(i: nat, r: Row)
    ensures Ascending(Listing(i, r), 0)
  {
    var l7 := Pick(r.h == i, 7, Nil);
    var l6 := Pick(r.g == i, 6, l7);
    var l5 := Pick(r.f == i, 5, l6);
    var l4 := Pick(r.e == i, 4, l5);
    var l3 := Pick(r.d == i, 3, l4);
    var l2 := Pick(r.c == i, 2, l3);
    var l1 := Pick(r.b == i, 1, l2);
    Weaken(l7, 7, 6);
    Weaken(l6, 6, 5);
    Weaken(l5, 5, 4);
    Weaken(l4, 4, 3);
    Weaken(l3, 3, 2);
    Weaken(l2, 2, 1);
    Weaken(l1, 1, 0);
  }

  lemma {:induction false} PickMember(listed: bool, l: nat, rest: Locals, j: nat)
    ensures Member(Pick(listed, l, rest), j) <==> (listed && j == l) || Member(rest, j)
  {
  }

  lemma {:induction false} ListingMember(i: nat, r: Row, j: nat)
    requires j < 8
    ensures Member(Listing(i, r), j) <==> Entry(r, j) == i
  {
    var l7 := Pick(r.h == i, 7, Nil);
    var l6 := Pick(r.g == i, 6, l7);
    var l5 := Pick(r.f == i, 5, l6);
    var l4 := Pick(r.e == i, 4, l5);
    var l3 := Pick(r.d == i, 3, l4);
    var l2 := Pick(r.c == i, 2, l3);
    var l1 := Pick(r.b == i, 1, l2);
    PickMember(r.h == i, 7, Nil, j);
    PickMember(r.g == i, 6, l7, j);
    PickMember(r.f == i, 5, l6, j);
    PickMember(r.e == i, 4, l5, j);
    PickMember(r.d == i, 3, l4, j);
    PickMember(r.c == i, 2, l3, j);
    PickMember(r.b == i, 1, l2, j);
    PickMember(r.a == i, 0, l1, j);
  }

  // The data bytes of group g and neighbor k are, in ascending order, exactly the entries whose
  // least distance belongs to group g.
  lemma {:induction false} DataMeansDistance(g: nat, k: nat, l: nat)
    requires g < GROUPS && k < NEIGHBORS && l < 8
    ensures Ascending(Data(g, k), 0)
    ensures Member(Data(g, k), l) <==> Rank(k, l) == g
  {
    DataIsListing(g, k);
    ListingAscends(g, Ranks(k));
    ListingMember(g, Ranks(k), l);
    RankIsEntry(k, l);
  }

  // ---- every offset near enough has exactly one entry ----

  function At4(i: int, a: nat, b: nat, c: nat, d: nat): nat {
    if i == -2 then a else if i == -1 then b else if i == 0 then c else d
  }

  // The inverse of the neighbor table on the box; NEIGHBORS at its corners.
  function IndexOf(d: Cell): nat {
    At4(d.x,
        At4(d.y, At4(d.z, 60, 58, 56, 60),
            At4(d.z, 57, 35, 29, 48),
            At4(d.z, 52, 26, 24, 44),
            At4(d.z, 60, 47, 38, 53)),
        At4(d.y, At4(d.z, 59, 37, 28, 50),
            At4(d.z, 36, 7, 6, 17),
            At4(d.z, 27, 4, 3, 16),
            At4(d.z, 49, 18, 15, 32)),
        At4(d.y, At4(d.z, 51, 30, 25, 40),
            At4(d.z, 34, 5, 1, 11),
            At4(d.z, 20, 2, 0, 10),
            At4(d.z, 41, 14, 9, 21)),
        At4(d.y, At4(d.z, 60, 46, 39, 55),
            At4(d.z, 45, 19, 12, 33),
            At4(d.z, 42, 13, 8, 23),
            At4(d.z, 54, 31, 22, 43)))
  }

  lemma NeighborIndex(k: nat)
    requires k < NEIGHBORS
    ensures IndexOf(Neighbor(k)) == k
  {
  }

  // The four corners of the box that the neighbor table leaves out.
  predicate Corner(d: Cell) {
    d == Cell(-2, -2, -2) || d == Cell(-2, -2, 1) || d == Cell(-2, 1, -2) || d == Cell(1, -2, -2)
  }

  lemma IndexedNeighbor(d: Cell)
    requires InBox(d) && !Corner(d)
    ensures IndexOf(d) < NEIGHBORS && Neighbor(IndexOf(d)) == d
  {
  }

  function LocalIndex(b: Cell): nat {
    (if b.x == 1 then 1 else 0) + (if b.y == 1 then 2 else 0) + (if b.z == 1 then 4 else 0)
  }

  lemma LocalIndexed(bx: int, by': int, bz: int)
    requires 0 <= bx <= 1 && 0 <= by' <= 1 && 0 <= bz <= 1
    ensures LocalIndex(Cell(bx, by', bz)) < 8 && Local(LocalIndex(Cell(bx, by', bz))) == Cell(bx, by', bz)
  {
  }

  // Completeness: an offset that can hold a point closer than three sides is an entry.
  lemma EntryOf(o: Cell) returns (k: nat, l: nat)
    requires MinDist2(o) <= 8
    ensures k < NEIGHBORS && l < 8 && Offset(k, l) == o
  {
    var d := Cell(o.x / 2, o.y / 2, o.z / 2);
    var b := Cell(o.x % 2, o.y % 2, o.z % 2);
    assert o == Fine(d, b);
    NearIsInBox(o, d);
    IndexedNeighbor(d);
    LocalIndexed(b.x, b.y, b.z);
    k, l := IndexOf(d), LocalIndex(b);
  }

  lemma NearIsInBox(o: Cell, d: Cell)
    requires MinDist2(o) <= 8
    requires 2 * d.x <= o.x <= 2 * d.x + 1 && 2 * d.y <= o.y <= 2 * d.y + 1 && 2 * d.z <= o.z <= 2 * d.z + 1
    ensures InBox(d) && !Corner(d)
  {
    assert -3 <= o.x <= 3 && -3 <= o.y <= 3 && -3 <= o.z <= 3;
  }

  // Injectivity: no two entries denote the same offset.
  lemma EntriesDiffer(k: nat, l: nat, k': nat, l': nat)
    requires k < NEIGHBORS && l < 8 && k' < NEIGHBORS && l' < 8
    requires Offset(k, l) == Offset(k', l')
    ensures k == k' && l == l'
  {
    SameFine(Neighbor(k), Local(l), Neighbor(k'), Local(l'));
    NeighborIndex(k);
    NeighborIndex(k');
    assert LocalIndex(Local(l)) == l && LocalIndex(Local(l')) == l';
  }

  lemma SameFine(d: Cell, b: Cell, d': Cell, b': Cell)
    requires 0 <= b.x <= 1 && 0 <= b.y <= 1 && 0 <= b.z <= 1
    requires 0 <= b'.x <= 1 && 0 <= b'.y <= 1 && 0 <= b'.z <= 1
    requires Fine(d, b) == Fine(d', b')
    ensures d == d' && b == b'
  {
  }
}
