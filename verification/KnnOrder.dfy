// What getTopK of OctVoxMap.hpp has seen when its cursor stands at an entry of the table.
module KnnOrder {
  import opened Basics
  import opened KnnTables
  import opened VoxelGeometry

  // mirror_axis, one axis of it applied to v
  function Flip(bit: int, v: int): (r: int)
    ensures bit == 0 ==> r == v
    ensures bit == 1 ==> r == -v
  {
    (1 - 2 * bit) * v
  }

  function Mirror(f: Cell, d: Cell): Cell {
    Cell(Flip(f.x % 2, d.x), Flip(f.y % 2, d.y), Flip(f.z % 2, d.z))
  }

  function Plus(a: Cell, b: Cell): Cell {
    Cell(a.x + b.x, a.y + b.y, a.z + b.z)
  }

  function Minus(a: Cell, b: Cell): Cell {
    Cell(a.x - b.x, a.y - b.y, a.z - b.z)
  }

  function Xor(a: nat, b: nat): (r: nat)
    requires a < 8 && b < 8
    ensures r < 8
  {
    var x, y := a as bv3, b as bv3;
    (x ^ y) as nat
  }

  // The voxel that getTopK looks up for neighbor k of a query in sub-voxel f.
  function NeighborKey(f: Cell, k: nat): Cell {
    Plus(VoxelKey(f), Mirror(f, Neighbor(k)))
  }

  function NeighborKeys(f: Cell, n: nat): (keys: seq<Cell>)
    ensures |keys| == n
  {
    seq(n, k requires 0 <= k < n => NeighborKey(f, k))
  }

  lemma NeighborKeyAt(f: Cell, n: nat, k: nat)
    requires k < n
    ensures NeighborKeys(f, n)[k] == NeighborKey(f, k)
  {
  }

  lemma NextNeighborKey(f: Cell, n: nat)
    ensures NeighborKeys(f, n + 1) == NeighborKeys(f, n) + [NeighborKey(f, n)]
  {
  }

  function EntryCell(f: Cell, k: nat, l: nat): Cell {
    Plus(f, Mirror(f, Offset(k, l)))
  }

  lemma XorFlips(l: nat, m: nat)
    requires l < 8 && m < 8
    ensures Local(Xor(l, m)).x == (Local(l).x + Local(m).x) % 2
    ensures Local(Xor(l, m)).y == (Local(l).y + Local(m).y) % 2
    ensures Local(Xor(l, m)).z == (Local(l).z + Local(m).z) % 2
  {
    if m < 4 { XorLow(l, m); } else { XorHigh(l, m); }
  }

  lemma XorLow(l: nat, m: nat)
    requires l < 8 && m < 4
    ensures Local(Xor(l, m)).x == (Local(l).x + Local(m).x) % 2
    ensures Local(Xor(l, m)).y == (Local(l).y + Local(m).y) % 2
    ensures Local(Xor(l, m)).z == (Local(l).z + Local(m).z) % 2
  {
  }

  lemma XorHigh(l: nat, m: nat)
    requires l < 8 && 4 <= m < 8
    ensures Local(Xor(l, m)).x == (Local(l).x + Local(m).x) % 2
    ensures Local(Xor(l, m)).y == (Local(l).y + Local(m).y) % 2
    ensures Local(Xor(l, m)).z == (Local(l).z + Local(m).z) % 2
  {
  }

  // Mirroring the neighbor and xor-ing the entry denote one sub-voxel: the query's own, moved by
  // the mirrored offset of the entry. The query may be in any octant, at negative indices too.
  lemma EntryDenotes(f: Cell, k: nat, l: nat)
    requires l < 8
    ensures Fine(NeighborKey(f, k), Local(Xor(l, LocalIdx(f)))) == EntryCell(f, k, l)
  {
    XorFlips(l, LocalIdx(f));
    MirroredDenotes(f, Neighbor(k), Local(l), Local(Xor(l, LocalIdx(f))));
  }

  lemma MirroredDenotes(f: Cell, d: Cell, b: Cell, e: Cell)
    requires 0 <= b.x <= 1 && 0 <= b.y <= 1 && 0 <= b.z <= 1
    requires e == Cell((b.x + f.x % 2) % 2, (b.y + f.y % 2) % 2, (b.z + f.z % 2) % 2)
    ensures Fine(Plus(VoxelKey(f), Mirror(f, d)), e) == Plus(f, Mirror(f, Fine(d, b)))
  {
    AxisDenotes(f.x, d.x, b.x);
    AxisDenotes(f.y, d.y, b.y);
    AxisDenotes(f.z, d.z, b.z);
  }

  lemma AxisDenotes(f: int, d: int, b: int)
    requires 0 <= b <= 1
    ensures 2 * (f / 2 + Flip(f % 2, d)) + (b + f % 2) % 2 == f + Flip(f % 2, 2 * d + b)
  {
    if f % 2 == 0 {} else { assert f % 2 == 1; }
  }

  // The offset, in the canonical octant, of sub-voxel c from the query's.
  function OffsetOf(f: Cell, c: Cell): Cell {
    Mirror(f, Minus(c, f))
  }

  lemma OffsetOfEntry(f: Cell, k: nat, l: nat, c: Cell)
    ensures c == EntryCell(f, k, l) <==> OffsetOf(f, c) == Offset(k, l)
  {
    OffsetOfCell(f, Offset(k, l), c);
  }

  lemma OffsetOfCell(f: Cell, o: Cell, c: Cell)
    ensures c == Plus(f, Mirror(f, o)) <==> OffsetOf(f, c) == o
  {
    AxisOffset(f.x % 2, f.x, o.x, c.x);
    AxisOffset(f.y % 2, f.y, o.y, c.y);
    AxisOffset(f.z % 2, f.z, o.z, c.z);
  }

  lemma AxisOffset(bit: int, f: int, o: int, c: int)
    requires bit == 0 || bit == 1
    ensures c == f + Flip(bit, o) <==> Flip(bit, c - f) == o
  {
  }

  lemma SameDistance(f: Cell, c: Cell)
    ensures MinDist2(OffsetOf(f, c)) == MinDist2(Minus(c, f))
  {
  }

  // ---- the order of the visits ----

  function RankOf(o: Cell): nat {
    GroupOf(MinDist2(o))
  }

  function VoxelOf(o: Cell): nat {
    IndexOf(VoxelKey(o))
  }

  // The entry of offset o comes before entry l of neighbor k in group g.
  predicate Before(o: Cell, g: nat, k: nat, l: nat) {
    RankOf(o) < g || (RankOf(o) == g && (VoxelOf(o) < k || (VoxelOf(o) == k && LocalIdx(o) < l)))
  }

  lemma OwnPlace(k: nat, l: nat)
    requires k < NEIGHBORS && l < 8
    ensures VoxelOf(Offset(k, l)) == k && LocalIdx(Offset(k, l)) == l && RankOf(Offset(k, l)) == Rank(k, l)
  {
    PartsOfFine(Neighbor(k), l);
    NeighborIndex(k);
  }

  // An offset with a rank has an entry, the one at its place.
  lemma HasEntry(o: Cell)
    requires RankOf(o) < GROUPS
    ensures VoxelOf(o) < NEIGHBORS && Offset(VoxelOf(o), LocalIdx(o)) == o
  {
    FineFromParts(o);
    var d := VoxelKey(o);
    NearIsInBox(o, d);
    IndexedNeighbor(d);
  }

  // The entries of neighbor k in group g, one after the other.
  lemma NextEntry(o: Cell, g: nat, k: nat, l: nat)
    requires g < GROUPS && k < NEIGHBORS && l < 8
    ensures Before(o, g, k, l + 1) <==> Before(o, g, k, l) || (Rank(k, l) == g && o == Offset(k, l))
    ensures Rank(k, l) == g ==> !Before(Offset(k, l), g, k, l)
  {
    OwnPlace(k, l);
    if RankOf(o) == g {
      HasEntry(o);
    }
  }

  lemma NextNeighbor(o: Cell, g: nat, k: nat)
    ensures Before(o, g, k, 8) <==> Before(o, g, k + 1, 0)
  {
  }

  lemma NextGroup(o: Cell, g: nat)
    requires g < GROUPS
    ensures Before(o, g, NEIGHBORS, 0) <==> Before(o, g + 1, 0, 0)
  {
    if RankOf(o) == g {
      HasEntry(o);
    }
  }

  // ---- the progress of a search ----

  // cells are, each once, the occupied sub-voxels with an entry before entry l of neighbor k in
  // group g.
  ghost predicate Progress(world: map<Cell, Point>, f: Cell, cells: seq<Cell>, g: nat, k: nat, l: nat) {
    && (forall c | c in world :: c in cells <==> Before(OffsetOf(f, c), g, k, l))
    && (forall c | c in cells :: c in world)
    && Unique(cells)
  }

  lemma ProgressStarts(world: map<Cell, Point>, f: Cell)
    ensures Progress(world, f, [], 0, 0, 0)
  {
  }

  lemma ProgressGroup(world: map<Cell, Point>, f: Cell, cells: seq<Cell>, g: nat)
    requires g < GROUPS && Progress(world, f, cells, g, NEIGHBORS, 0)
    ensures Progress(world, f, cells, g + 1, 0, 0)
  {
    forall c | c in world ensures c in cells <==> Before(OffsetOf(f, c), g + 1, 0, 0) {
      NextGroup(OffsetOf(f, c), g);
    }
  }

  lemma ProgressNeighbor(world: map<Cell, Point>, f: Cell, cells: seq<Cell>, g: nat, k: nat)
    requires Progress(world, f, cells, g, k, 8)
    ensures Progress(world, f, cells, g, k + 1, 0)
  {
    forall c | c in world ensures c in cells <==> Before(OffsetOf(f, c), g, k + 1, 0) {
      NextNeighbor(OffsetOf(f, c), g, k);
    }
  }

  function Visited(world: map<Cell, Point>, cells: seq<Cell>, c: Cell): seq<Cell> {
    if c in world then cells + [c] else cells
  }

  lemma ProgressEntry(world: map<Cell, Point>, f: Cell, cells: seq<Cell>, g: nat, k: nat, l: nat)
    requires g < GROUPS && k < NEIGHBORS && l < 8 && Rank(k, l) == g
    requires Progress(world, f, cells, g, k, l)
    ensures Progress(world, f, Visited(world, cells, EntryCell(f, k, l)), g, k, l + 1)
  {
    var e := EntryCell(f, k, l);
    var cells' := Visited(world, cells, e);
    OffsetOfEntry(f, k, l, e);
    NextEntry(Offset(k, l), g, k, l);
    assert e !in cells;
    UniqueMore(cells, e);
    forall c | c in world ensures c in cells' <==> Before(OffsetOf(f, c), g, k, l + 1) {
      OffsetOfEntry(f, k, l, c);
      NextEntry(OffsetOf(f, c), g, k, l);
    }
  }

  // Entries that the group does not list change nothing.
  lemma {:induction false} ProgressSkip(world: map<Cell, Point>, f: Cell, cells: seq<Cell>, g: nat, k: nat, l: nat,
                                        l': nat)
    requires g < GROUPS && k < NEIGHBORS && l <= l' <= 8
    requires forall j | l <= j < l' :: Rank(k, j) != g
    requires Progress(world, f, cells, g, k, l)
    ensures Progress(world, f, cells, g, k, l')
    decreases l' - l
  {
    if l < l' {
      forall c | c in world ensures c in cells <==> Before(OffsetOf(f, c), g, k, l + 1) {
        NextEntry(OffsetOf(f, c), g, k, l);
      }
      ProgressSkip(world, f, cells, g, k, l + 1, l');
    }
  }

  // The entries of neighbor k lie in its voxel.
  lemma EntryKey(f: Cell, k: nat, l: nat)
    requires l < 8
    ensures VoxelKey(EntryCell(f, k, l)) == NeighborKey(f, k)
    ensures LocalIdx(EntryCell(f, k, l)) == Xor(l, LocalIdx(f))
  {
    EntryDenotes(f, k, l);
    PartsOfFine(NeighborKey(f, k), Xor(l, LocalIdx(f)));
  }

  lemma ProgressNowhere(world: map<Cell, Point>, f: Cell, cells: seq<Cell>, g: nat, k: nat, l: nat)
    requires g < GROUPS && k < NEIGHBORS && l < 8 && EntryCell(f, k, l) !in world
    requires Progress(world, f, cells, g, k, l)
    ensures Progress(world, f, cells, g, k, l + 1)
  {
    forall c | c in world ensures c in cells <==> Before(OffsetOf(f, c), g, k, l + 1) {
      OffsetOfEntry(f, k, l, c);
      NextEntry(OffsetOf(f, c), g, k, l);
    }
  }

  // A neighbor voxel without any point may be skipped as a whole.
  lemma {:induction false} ProgressAbsent(world: map<Cell, Point>, f: Cell, cells: seq<Cell>, g: nat, k: nat, l: nat)
    requires g < GROUPS && k < NEIGHBORS && l <= 8
    requires forall c | c in world :: VoxelKey(c) != NeighborKey(f, k)
    requires Progress(world, f, cells, g, k, l)
    ensures Progress(world, f, cells, g, k + 1, 0)
    decreases 8 - l
  {
    if l == 8 {
      ProgressNeighbor(world, f, cells, g, k);
    } else {
      EntryKey(f, k, l);
      ProgressNowhere(world, f, cells, g, k, l);
      ProgressAbsent(world, f, cells, g, k, l + 1);
    }
  }

  // ---- what the groups leave unseen ----

  // orders_min_dis2, in squares of a quarter.
  function Reach(g: nat): nat {
    match g
    case 0 => 1
    case 1 => 2
    case 2 => 4
    case 3 => 5
    case 4 => 6
    case _ => 9
  }

  // A point in a sub-voxel that the groups up to g do not list is at least that far away.
  lemma UnseenIsFar(world: map<Cell, Point>, f: Cell, cells: seq<Cell>, g: nat, c: Cell, q: Point, s: real)
    requires g < GROUPS && Progress(world, f, cells, g + 1, 0, 0)
    requires s > 0.0 && InCell(q, f, s)
    requires c in world && c !in cells && InCell(world[c], c, s)
    ensures Dist2(world[c], q) >= Reach(g) as real * Square(s)
  {
    UnseenRank(world, f, cells, g, c);
    CellsApart(world[c], q, c, f, s, Square(s), Reach(g));
  }

  lemma UnseenRank(world: map<Cell, Point>, f: Cell, cells: seq<Cell>, g: nat, c: Cell)
    requires g < GROUPS && Progress(world, f, cells, g + 1, 0, 0) && c in world && c !in cells
    ensures MinDist2(Cell(c.x - f.x, c.y - f.y, c.z - f.z)) >= Reach(g)
  {
    RankReach(OffsetOf(f, c), g);
    SameDistance(f, c);
  }

  lemma RankReach(o: Cell, g: nat)
    requires g < GROUPS && RankOf(o) > g
    ensures MinDist2(o) >= Reach(g)
  {
  }
}
