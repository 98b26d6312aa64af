// The five-nearest-neighbour search of OctVoxMap.hpp: its cursor over the flat table, and why it
// may stop early.
module KnnSearch {
  import opened Basics
  import opened KnnTables
  import opened KnnFlat
  import opened VoxelGeometry
  import opened KnnOrder
  import opened Nearest
  import opened KnnHeap
  import opened VoxelCache
  import opened VoxelContents

  // ---- the cursor ----

  // rest are the entries, from at on, that group g lists for neighbor k.
  ghost predicate Remaining(rest: Locals, g: nat, k: nat, at: nat) {
    && at <= 8 && Ascending(rest, at)
    && forall l | at <= l < 8 :: Member(rest, l) <==> Rank(k, l) == g
  }

  lemma AllRemain(g: nat, k: nat)
    requires g < GROUPS && k < NEIGHBORS
    ensures Remaining(Data(g, k), g, k, 0)
  {
    forall l | 0 <= l < 8 ensures Ascending(Data(g, k), 0) && (Member(Data(g, k), l) <==> Rank(k, l) == g) {
      DataMeansDistance(g, k, l);
    }
    DataMeansDistance(g, k, 0);
  }

  lemma {:induction false} MembersAscend(ls: Locals, at: nat, l: nat)
    requires Ascending(ls, at) && Member(ls, l)
    ensures at <= l < 8
  {
    if ls.l != l { MembersAscend(ls.rest, ls.l + 1, l); }
  }

  lemma NextRemaining(rest: Locals, g: nat, k: nat, at: nat)
    requires rest.Cons? && Remaining(rest, g, k, at)
    ensures at <= rest.l < 8 && Rank(k, rest.l) == g
    ensures forall j | at <= j < rest.l :: Rank(k, j) != g
    ensures Remaining(rest.rest, g, k, rest.l + 1)
  {
    forall j | at <= j < rest.l ensures Rank(k, j) != g {
      if Member(rest.rest, j) { MembersAscend(rest.rest, rest.l + 1, j); }
    }
  }

  // Visiting the next listed entry.
  lemma ProgressListed(world: map<Cell, Point>, f: Cell, cells: seq<Cell>, g: nat, k: nat, at: nat, rest: Locals)
    requires g < GROUPS && k < NEIGHBORS && rest.Cons? && Remaining(rest, g, k, at)
    requires Progress(world, f, cells, g, k, at)
    ensures rest.l < 8 && Remaining(rest.rest, g, k, rest.l + 1)
    ensures Progress(world, f, Visited(world, cells, EntryCell(f, k, rest.l)), g, k, rest.l + 1)
  {
    NextRemaining(rest, g, k, at);
    ProgressSkip(world, f, cells, g, k, at, rest.l);
    ProgressEntry(world, f, cells, g, k, rest.l);
  }

  lemma ProgressUnlisted(world: map<Cell, Point>, f: Cell, cells: seq<Cell>, g: nat, k: nat, at: nat)
    requires g < GROUPS && k < NEIGHBORS && Remaining(Nil, g, k, at)
    requires Progress(world, f, cells, g, k, at)
    ensures Progress(world, f, cells, g, k + 1, 0)
  {
    ProgressSkip(world, f, cells, g, k, at, 8);
    ProgressNeighbor(world, f, cells, g, k);
  }

  predicate LineFirst(all: seq<nat>, k: nat, ls: Locals, rest: seq<nat>) {
    all == Line(k, ls) + rest
  }

  // lines(k) is the line of data(k), if there is one, and lines(k + 1).
  ghost predicate Chain(data: nat -> Locals, lines: nat -> seq<nat>) {
    && lines(NEIGHBORS) == []
    && (forall j | 0 <= j < NEIGHBORS :: LineFirst(lines(j), j, data(j), lines(j + 1)))
    && (forall j | 0 <= j < NEIGHBORS :: data(j).Nil? ==> lines(j) == lines(j + 1))
  }

  // data has the entries of group g.
  ghost predicate Lists(data: nat -> Locals, g: nat) {
    forall k | 0 <= k < NEIGHBORS :: Remaining(data(k), g, k, 0)
  }

  function LinesOf(g: nat): nat -> seq<nat> {
    (k: nat) => Lines(DataOf(g), k)
  }

  lemma {:induction false} LineHere(data: nat -> Locals, k: nat)
    requires k < NEIGHBORS
    ensures LineFirst(Lines(data, k), k, data(k), Lines(data, k + 1))
    ensures data(k).Nil? ==> Lines(data, k) == Lines(data, k + 1)
  {
    NothingBefore(k, data(k), Lines(data, k + 1));
  }

  lemma NothingBefore(k: nat, ls: Locals, rest: seq<nat>)
    ensures ls.Nil? ==> Line(k, ls) + rest == rest
  {
  }

  lemma ChainOf(g: nat)
    ensures Chain(DataOf(g), LinesOf(g))
  {
    var data, lines := DataOf(g), LinesOf(g);
    forall j | 0 <= j < NEIGHBORS
      ensures LineFirst(lines(j), j, data(j), lines(j + 1)) && (data(j).Nil? ==> lines(j) == lines(j + 1))
    {
      LineHere(data, j);
    }
  }

  lemma TableOf(g: nat)
    requires g < GROUPS
    ensures Chain(DataOf(g), LinesOf(g)) && Lists(DataOf(g), g)
    ensures CutAt(Flat(), Start(g), Start(g + 1), LinesOf(g)(0))
  {
    ChainOf(g);
    DataLists(g, DataOf(g));
    OffsetsFit(g);
  }

  lemma DataLists(g: nat, data: nat -> Locals)
    requires g < GROUPS && data == DataOf(g)
    ensures Lists(data, g)
  {
    forall j | 0 <= j < NEIGHBORS ensures Remaining(data(j), g, j, 0) {
      AllRemain(g, j);
    }
  }

  // From neighbor k on, the first with a line is k'.
  lemma {:induction false} FirstLine(data: nat -> Locals, lines: nat -> seq<nat>, k: nat) returns (k': nat)
    requires k <= NEIGHBORS && Chain(data, lines)
    ensures k <= k' <= NEIGHBORS && forall j | k <= j < k' :: data(j).Nil?
    ensures k' == NEIGHBORS ==> lines(k) == []
    ensures k' < NEIGHBORS ==> data(k').Cons? && LineFirst(lines(k), k', data(k'), lines(k' + 1))
    decreases NEIGHBORS - k
  {
    k' := k;
    if k < NEIGHBORS && data(k).Nil? {
      k' := FirstLine(data, lines, k + 1);
    }
  }

  lemma {:induction false} BlankLines(world: map<Cell, Point>, f: Cell, cells: seq<Cell>, g: nat, k: nat, k': nat,
                                      data: nat -> Locals)
    requires g < GROUPS && k <= k' <= NEIGHBORS && Progress(world, f, cells, g, k, 0)
    requires Lists(data, g) && forall j | k <= j < k' :: data(j).Nil?
    ensures Progress(world, f, cells, g, k', 0)
    decreases k' - k
  {
    if k < k' {
      assert Remaining(data(k), g, k, 0);
      ProgressUnlisted(world, f, cells, g, k, 0);
      BlankLines(world, f, cells, g, k + 1, k', data);
    }
  }

  // A line read at the cursor.
  lemma {:induction false} LineRead(flat: seq<nat>, at: nat, end: nat, k: nat, ls: Locals, rest: seq<nat>)
    requires at <= end <= |flat| && ls.Cons? && LineFirst(flat[at..end], k, ls, rest)
    ensures at + 2 + Size(ls) <= end && flat[at] == k && flat[at + 1] == Size(ls)
    ensures flat[at + 2..at + 2 + Size(ls)] == Bytes(ls)
    ensures flat[at + 2 + Size(ls)..end] == rest
  {
    Pieces(flat, at, end, [k, Size(ls)], Bytes(ls), rest);
    assert flat[at] == flat[at..at + 2][0] && flat[at + 1] == flat[at..at + 2][1];
  }

  lemma Pieces(flat: seq<nat>, at: nat, end: nat, a: seq<nat>, b: seq<nat>, c: seq<nat>)
    requires at <= end <= |flat| && flat[at..end] == a + b + c
    ensures at + |a| + |b| + |c| == end
    ensures flat[at..at + |a|] == a
    ensures flat[at + |a|..at + |a| + |b|] == b
    ensures flat[at + |a| + |b|..end] == c
  {
    var part, m, n := flat[at..end], at + |a|, at + |a| + |b|;
    assert part[..|a|] == a && part[|a|..|a| + |b|] == b && part[|a| + |b|..] == c;
    assert |part| == end - at;
    assert flat[at..m] == part[..m - at];
    forall j | m <= j < n ensures flat[j] == part[j - at] {}
    assert flat[m..n] == part[m - at..n - at];
    assert flat[n..end] == part[n - at..];
  }

  // The cursor stands at the line of neighbor k, or at the end.
  ghost predicate AtLine(flat: seq<nat>, at: nat, end: nat, k: nat, data: nat -> Locals, lines: nat -> seq<nat>) {
    && at <= end <= |flat|
    && if k >= NEIGHBORS then k == NEIGHBORS && at == end
       else at < end && data(k).Cons? && LineFirst(flat[at..end], k, data(k), lines(k + 1))
  }

  lemma ToNextLine(flat: seq<nat>, at: nat, end: nat, world: map<Cell, Point>, f: Cell, cells: seq<Cell>,
                   g: nat, k: nat, data: nat -> Locals, lines: nat -> seq<nat>)
    returns (k': nat)
    requires g < GROUPS && k <= NEIGHBORS && Progress(world, f, cells, g, k, 0)
    requires Chain(data, lines) && Lists(data, g) && CutAt(flat, at, end, lines(k))
    ensures AtLine(flat, at, end, k', data, lines) && Progress(world, f, cells, g, k', 0)
  {
    k' := FirstLine(data, lines, k);
    BlankLines(world, f, cells, g, k, k', data);
  }

  lemma ReadLine(flat: seq<nat>, at: nat, end: nat, g: nat, k: nat, data: nat -> Locals, lines: nat -> seq<nat>)
    requires g < GROUPS && k < NEIGHBORS && AtLine(flat, at, end, k, data, lines) && Lists(data, g)
    ensures at + 2 + Size(data(k)) <= end && flat[at] == k && flat[at + 1] == Size(data(k))
    ensures Reading(flat, at + 2, data(k)) && Remaining(data(k), g, k, 0)
    ensures CutAt(flat, at + 2 + Size(data(k)), end, lines(k + 1))
  {
    LineRead(flat, at, end, k, data(k), lines(k + 1));
  }

  // The cursor stands at data bytes.
  ghost predicate Reading(flat: seq<nat>, at: nat, rest: Locals) {
    at + Size(rest) <= |flat| && flat[at..at + Size(rest)] == Bytes(rest)
  }

  lemma {:induction false} NextByte(flat: seq<nat>, at: nat, rest: Locals)
    requires rest.Cons? && Reading(flat, at, rest)
    ensures flat[at] == rest.l && Size(rest) == 1 + Size(rest.rest) && Reading(flat, at + 1, rest.rest)
  {
    var part := flat[at..at + Size(rest)];
    assert part[0] == rest.l && part[1..] == Bytes(rest.rest);
  }

  // ---- what has been tried ----

  // The candidates are the stored points of the cells.
  ghost predicate Tracks(tried: seq<(real, Point)>, cells: seq<Cell>, world: map<Cell, Point>, q: Point) {
    && |tried| == |cells|
    && forall i | 0 <= i < |cells| :: cells[i] in world && tried[i] == (Dist2(world[cells[i]], q), world[cells[i]])
  }

  // A search for the points of a world nearest to q, which lies in sub-voxel f, with a heap that has
  // tried other candidates before.
  datatype Quest = Quest(world: map<Cell, Point>, q: Point, f: Cell, before: seq<(real, Point)>)

  // After the candidates from before come the stored points of the cells.
  ghost predicate Added(tried: seq<(real, Point)>, u: Quest, cells: seq<Cell>) {
    exists more :: tried == u.before + more && Tracks(more, cells, u.world, u.q)
  }

  lemma NothingAdded(u: Quest)
    ensures Added(u.before, u, [])
  {
    assert u.before == u.before + [] && Tracks([], [], u.world, u.q);
  }

  lemma OneAdded(tried: seq<(real, Point)>, u: Quest, cells: seq<Cell>, c: Cell)
    requires Added(tried, u, cells) && c in u.world
    ensures Added(tried + [(Dist2(u.world[c], u.q), u.world[c])], u, cells + [c])
  {
    var e := (Dist2(u.world[c], u.q), u.world[c]);
    var more :| tried == u.before + more && Tracks(more, cells, u.world, u.q);
    assert tried + [e] == u.before + (more + [e]) && Tracks(more + [e], cells + [c], u.world, u.q);
  }

  lemma AllAdded(tried: seq<(real, Point)>, u: Quest, cells: seq<Cell>)
    requires Added(tried, u, cells) && u.before == []
    ensures Tracks(tried, cells, u.world, u.q)
  {
    var more :| tried == u.before + more && Tracks(more, cells, u.world, u.q);
    assert tried == more;
  }

  // The heap has tried what is listed before entry at of neighbor k in group g; rest is still listed.
  ghost predicate Seeking(h: KNNHeap<Point>, u: Quest, cells: seq<Cell>, g: nat, k: nat, at: nat, rest: Locals)
    reads h, h.dist2_, h.points_
  {
    h.Valid() && Added(h.tried, u, cells) && Progress(u.world, u.f, cells, g, k, at) && Remaining(rest, g, k, at)
  }

  // The heap has tried what is listed before neighbor k in group g.
  ghost predicate Reached(h: KNNHeap<Point>, u: Quest, cells: seq<Cell>, g: nat, k: nat)
    reads h, h.dist2_, h.points_
  {
    h.Valid() && Added(h.tried, u, cells) && Progress(u.world, u.f, cells, g, k, 0)
  }

  // The heap has tried all of the first groups.
  ghost predicate Scanned(h: KNNHeap<Point>, u: Quest, groups: nat)
    reads h, h.dist2_, h.points_
  {
    exists cells :: Reached(h, u, cells, groups, 0)
  }

  // What the voxel under key stores is what the world has in its eight sub-voxels.
  ghost predicate Shares(v: Voxel, key: Cell, world: map<Cell, Point>) {
    && Shaped(v)
    && (forall l | 0 <= l < 8 :: v.counts[l] != 0 <==> Fine(key, Local(l)) in world)
    && (forall l | 0 <= l < 8 && v.counts[l] != 0 :: world[Fine(key, Local(l))] == v.points[l])
  }

  lemma VoxelShares(cache: Cache, i: nat)
    requires WellFormed(cache) && i < |cache|
    ensures Shares(cache[i].vox, cache[i].key, World(cache))
  {
    forall l | 0 <= l < 8
      ensures cache[i].vox.counts[l] != 0 <==> Fine(cache[i].key, Local(l)) in World(cache)
      ensures cache[i].vox.counts[l] != 0 ==> World(cache)[Fine(cache[i].key, Local(l))] == cache[i].vox.points[l]
    {
      PartsOfFine(cache[i].key, l);
      EntryIndex(cache, i);
    }
  }

  lemma AbsentVoxel(cache: Cache, key: Cell)
    requires WellFormed(cache) && key !in KeysOf(cache)
    ensures forall c | c in World(cache) :: VoxelKey(c) != key
  {
  }

  // ---- exactness ----

  // orders_min_dis2
  function MinDis2(g: nat): real {
    match g
    case 0 => 0.0625
    case 1 => 0.125
    case 2 => 0.25
    case 3 => 0.3125
    case 4 => 0.375
    case _ => 100.0
  }

  lemma ThresholdReached(g: nat, s: real)
    requires g <= 4 && s >= 0.25
    ensures MinDis2(g) <= Reach(g) as real * Square(s)
  {
    ScaleLe(0.25, s, 0.25);
    ScaleLe(0.25, s, s);
    assert Square(s) >= 0.0625;
    ScaleLe(0.0625, Square(s), Reach(g) as real);
    assert MinDis2(g) == 0.0625 * Reach(g) as real;
  }

  // The distance of the point stored in c; cells without a point do not matter.
  function DistTo(world: map<Cell, Point>, q: Point): Cell -> real {
    c => if c in world then Dist2(world[c], q) else 0.0
  }

  // The cells of the entries a heap keeps.
  ghost function Kept(cells: seq<Cell>, slot: seq<int>): set<Cell> {
    set i | 0 <= i < |slot| && 0 <= slot[i] < |cells| :: cells[slot[i]]
  }

  lemma {:induction false} KeptSize(cells: seq<Cell>, slot: seq<int>)
    requires forall i | 0 <= i < |slot| :: 0 <= slot[i] < |cells|
    requires Unique(slot) && Unique(cells)
    ensures |Kept(cells, slot)| == |slot|
  {
    if slot != [] {
      var n := |slot| - 1;
      UniquePart(slot, n);
      OnePlace(slot, n);
      OnePlace(cells, slot[n]);
      KeptSize(cells, slot[..n]);
      assert Kept(cells, slot) == Kept(cells, slot[..n]) + {cells[slot[n]]};
      assert cells[slot[n]] !in Kept(cells, slot[..n]);
    }
  }

  // What a heap has made of the candidates: the slots are distinct, all of them if there are no
  // more than K, and a bound m separates them from those left out.
  ghost predicate Outcome(slot: seq<int>, tried: seq<(real, Point)>, m: real) {
    && |slot| == Least(K, |tried|)
    && (forall i | 0 <= i < |slot| :: 0 <= slot[i] < |tried| && tried[slot[i]].0 <= m)
    && Unique(slot)
    && (forall j | 0 <= j < |tried| && j !in slot :: |slot| == K && tried[j].0 >= m)
  }

  lemma OutcomeOf(h: KNNHeap<Point>)
    requires h.Valid()
    ensures Outcome(h.slot, h.tried, h.max_dist2_)
  {
    OutcomeOfParts(h.dist2_[..], h.points_[..], h.slot, h.tried, h.worst_, h.max_dist2_);
  }

  lemma OutcomeOfParts(d: seq<real>, p: seq<Point>, slot: seq<int>, tried: seq<(real, Point)>, at: int, m: real)
    requires Holds(d, p, slot, tried) && LeftOut(slot, tried, m) && IsMax(d, |slot|, at, m)
    ensures Outcome(slot, tried, m)
  {
    forall i | 0 <= i < |slot| ensures tried[slot[i]].0 <= m {
      assert d[..|slot|][i] == d[i];
    }
    if |slot| < K {
      forall j | 0 <= j < |tried| ensures j in slot {
        assert slot[j] == j;
      }
    }
  }

  // Five entries that leave out nothing nearer among the candidates are five nearest of the whole
  // world, provided that the sub-voxels not seen are beyond them.
  lemma KeptAreNearest(world: map<Cell, Point>, f: Cell, cells: seq<Cell>, g: nat, q: Point, s: real,
                       slot: seq<int>, tried: seq<(real, Point)>, m: real)
    requires g < GROUPS && Progress(world, f, cells, g + 1, 0, 0) && Tracks(tried, cells, world, q)
    requires s > 0.0 && InCell(q, f, s) && forall c | c in world :: InCell(world[c], c, s)
    requires Outcome(slot, tried, m) && |slot| == K && m <= Reach(g) as real * Square(s)
    ensures IsNearest(DistTo(world, q), world.Keys, Kept(cells, slot), K)
  {
    KeptSize(cells, slot);
    CellsFit(world, cells);
    var dist, kept := DistTo(world, q), Kept(cells, slot);
    forall c | c in kept ensures dist(c) <= m {
      var i :| 0 <= i < |slot| && c == cells[slot[i]];
    }
    forall o | o in world.Keys - kept ensures dist(o) >= m {
      LeftOutIsFar(world, f, cells, g, q, s, slot, tried, m, o);
    }
  }

  // Nothing left out is nearer than what the heap keeps, or than the reach of the groups.
  lemma LeftOutIsFar(world: map<Cell, Point>, f: Cell, cells: seq<Cell>, g: nat, q: Point, s: real,
                     slot: seq<int>, tried: seq<(real, Point)>, m: real, o: Cell)
    requires g < GROUPS && Progress(world, f, cells, g + 1, 0, 0) && Tracks(tried, cells, world, q)
    requires s > 0.0 && InCell(q, f, s) && o in world && InCell(world[o], o, s)
    requires Outcome(slot, tried, m) && o !in Kept(cells, slot)
    ensures o in cells ==> |slot| == K && Dist2(world[o], q) >= m
    ensures o !in cells ==> Dist2(world[o], q) >= Reach(g) as real * Square(s)
  {
    if o in cells {
      var j :| 0 <= j < |cells| && cells[j] == o;
      assert j !in slot;
    } else {
      UnseenIsFar(world, f, cells, g, o, q, s);
    }
  }

  lemma CellsFit(world: map<Cell, Point>, cells: seq<Cell>)
    requires forall c | c in cells :: c in world
    requires Unique(cells)
    ensures |cells| <= |world.Keys|
  {
    var all := set c | c in cells;
    UniqueSize(cells, all);
    SubsetCard(all, world.Keys);
  }

  // ---- when the search stops ----

  // Five points found, all nearer than the threshold of the last group seen.
  predicate Stops(top_K: KNNHeap<Point>, groups: nat)
    reads top_K
  {
    groups > 0 && top_K.count == K && top_K.max_dist2_ < MinDis2(groups - 1)
  }

  // The candidates below a distance.
  ghost function Below(tried: seq<(real, Point)>, t: real): set<int> {
    set i | 0 <= i < |tried| && tried[i].0 < t
  }

  // The stored points of the first groups below a distance.
  ghost function NearCells(u: Quest, groups: nat, t: real): set<Cell> {
    set c | c in u.world && RankOf(OffsetOf(u.f, c)) < groups && Dist2(u.world[c], u.q) < t
  }

  // Five of the candidates of the first groups, and of those from before, are below the last threshold.
  ghost predicate Enough(u: Quest, groups: nat) {
    groups > 0 && |Below(u.before, MinDis2(groups - 1))| + |NearCells(u, groups, MinDis2(groups - 1))| >= K
  }

  // The search stops after the first such number, and after max in any case.
  ghost predicate StopsFirst(u: Quest, groups: nat, max: nat) {
    && 1 <= groups <= max && (groups < max ==> Enough(u, groups))
    && forall n: nat | 1 <= n < groups :: !Enough(u, n)
  }

  // enough says of every number of groups whether it is such a number.
  ghost predicate Tells(enough: seq<bool>, u: Quest) {
    |enough| == GROUPS + 1 && forall n: nat :: n <= GROUPS ==> TellsOf(enough, u, n)
  }

  ghost predicate TellsOf(enough: seq<bool>, u: Quest, n: nat)
    requires n < |enough|
  {
    enough[n] <==> Enough(u, n)
  }

  lemma Telling(u: Quest) returns (enough: seq<bool>)
    ensures Tells(enough, u) && !enough[0]
  {
    enough := seq(GROUPS + 1, n requires 0 <= n => Enough(u, n));
  }

  predicate NoneBefore(enough: seq<bool>, groups: nat)
    requires groups <= |enough|
  {
    groups == 0 || (NoneBefore(enough, groups - 1) && !enough[groups - 1])
  }

  lemma {:induction false} NotBefore(enough: seq<bool>, groups: nat, n: nat)
    requires groups <= |enough| && NoneBefore(enough, groups) && n < groups
    ensures !enough[n]
  {
    if n < groups - 1 { NotBefore(enough, groups - 1, n); }
  }

  lemma {:induction false} FirstTold(enough: seq<bool>, u: Quest, groups: nat, max: nat)
    requires Tells(enough, u) && 1 <= groups <= max <= GROUPS && NoneBefore(enough, groups)
    requires groups < max ==> enough[groups]
    ensures StopsFirst(u, groups, max)
  {
    assert TellsOf(enough, u, groups);
    forall n: nat | 1 <= n < groups
      ensures !Enough(u, n)
    {
      NotBefore(enough, groups, n);
      assert TellsOf(enough, u, n);
    }
  }

  // Whether K of the candidates are below a distance can be seen from the worst of those kept.
  lemma {:induction false} EnoughBelow(slot: seq<int>, tried: seq<(real, Point)>, at: int, m: real, t: real)
    requires Outcome(slot, tried, m) && (slot != [] ==> 0 <= at < |slot| && tried[slot[at]].0 == m)
    ensures |slot| == K && m < t <==> |Below(tried, t)| >= K
  {
    var slots := set i | i in slot;
    UniqueSize(slot, slots);
    BelowSize(tried, t);
    if |slot| == K && m < t {
      assert slots <= Below(tried, t);
      SubsetCard(slots, Below(tried, t));
    } else if |Below(tried, t)| >= K {
      assert slot[at] in slots;
      assert Below(tried, t) <= slots - {slot[at]};
      SubsetCard(Below(tried, t), slots - {slot[at]});
    }
  }

  lemma {:induction false} BelowSize(tried: seq<(real, Point)>, t: real)
    ensures |Below(tried, t)| <= |tried|
  {
    if tried != [] {
      var n := |tried| - 1;
      BelowSize(tried[..n], t);
      BelowGrows(tried[..n], tried[n], t);
      assert tried == tried[..n] + [tried[n]];
    }
  }

  lemma BelowGrows(tried: seq<(real, Point)>, e: (real, Point), t: real)
    ensures |Below(tried + [e], t)| == |Below(tried, t)| + if e.0 < t then 1 else 0
  {
    var n := |tried|;
    assert Below(tried + [e], t) == Below(tried, t) + if e.0 < t then {n} else {};
  }

  // The candidates added are as many as their cells.
  lemma {:induction false} BelowAdded(before: seq<(real, Point)>, added: seq<(real, Point)>, cells: seq<Cell>,
                                      world: map<Cell, Point>, q: Point, t: real)
    requires Tracks(added, cells, world, q) && Unique(cells)
    ensures |Below(before + added, t)|
              == |Below(before, t)| + |set c | c in cells && c in world && Dist2(world[c], q) < t|
  {
    var near := set c | c in cells && c in world && Dist2(world[c], q) < t;
    if cells == [] {
      assert before + added == before && near == {};
    } else {
      var n := |cells| - 1;
      UniquePart(cells, n);
      BelowAdded(before, added[..n], cells[..n], world, q, t);
      BelowGrows(before + added[..n], added[n], t);
      assert before + added == before + added[..n] + [added[n]];
      OneMoreNear(cells, world, q, t);
    }
  }

  lemma OneMoreNear(cells: seq<Cell>, world: map<Cell, Point>, q: Point, t: real)
    requires cells != [] && Unique(cells) && cells[|cells| - 1] in world
    ensures var n := |cells| - 1;
            |set c | c in cells && c in world && Dist2(world[c], q) < t|
              == |set c | c in cells[..n] && c in world && Dist2(world[c], q) < t|
                 + if Dist2(world[cells[n]], q) < t then 1 else 0
  {
    var n := |cells| - 1;
    OnePlace(cells, n);
    var part := set c | c in cells[..n] && c in world && Dist2(world[c], q) < t;
    var near := set c | c in cells && c in world && Dist2(world[c], q) < t;
    assert cells == cells[..n] + [cells[n]];
    assert near == part + if Dist2(world[cells[n]], q) < t then {cells[n]} else {};
  }

  lemma SeenIsNear(u: Quest, cells: seq<Cell>, groups: nat, t: real)
    requires Progress(u.world, u.f, cells, groups, 0, 0)
    ensures (set c | c in cells && c in u.world && Dist2(u.world[c], u.q) < t) == NearCells(u, groups, t)
  {
    forall c | c in u.world
      ensures c in cells <==> RankOf(OffsetOf(u.f, c)) < groups
    {
      assert c in cells <==> Before(OffsetOf(u.f, c), groups, 0, 0);
    }
  }

  lemma StopsIsEnough(h: KNNHeap<Point>, u: Quest, cells: seq<Cell>, groups: nat)
    requires groups > 0 && Reached(h, u, cells, groups, 0)
    ensures Stops(h, groups) <==> Enough(u, groups)
  {
    var t := MinDis2(groups - 1);
    OutcomeOf(h);
    EnoughBelow(h.slot, h.tried, h.worst_, h.max_dist2_, t);
    var more :| h.tried == u.before + more && Tracks(more, cells, u.world, u.q);
    BelowAdded(u.before, more, cells, u.world, u.q, t);
    SeenIsNear(u, cells, groups, t);
  }

  lemma StopsIsTold(h: KNNHeap<Point>, u: Quest, cells: seq<Cell>, groups: nat, enough: seq<bool>)
    requires 0 < groups <= GROUPS && Reached(h, u, cells, groups, 0) && Tells(enough, u)
    ensures Stops(h, groups) <==> enough[groups]
  {
    StopsIsEnough(h, u, cells, groups);
    assert TellsOf(enough, u, groups);
  }

  // A search that has seen so many groups and made this of their candidates.
  ghost predicate Seen(world: map<Cell, Point>, cells: seq<Cell>, groups: nat, q: Point, f: Cell,
                       slot: seq<int>, tried: seq<(real, Point)>, m: real)
  {
    && 1 <= groups <= GROUPS && Progress(world, f, cells, groups, 0, 0) && Tracks(tried, cells, world, q)
    && Outcome(slot, tried, m)
  }

  ghost predicate Searched(cache: Cache, cells: seq<Cell>, groups: nat, q: Point, f: Cell,
                           slot: seq<int>, tried: seq<(real, Point)>, m: real)
  {
    WellFormed(cache) && Seen(World(cache), cells, groups, q, f, slot, tried, m)
  }

  predicate WorldFits(world: map<Cell, Point>, s: real) {
    forall c | c in world :: InCell(world[c], c, s)
  }

  // At any resolution the answer is exact within the reach of the groups seen, which is three
  // sub-voxel sides for all six.
  lemma ReachedIsExact(cache: Cache, cells: seq<Cell>, groups: nat, q: Point, s: real, inv: real,
                       slot: seq<int>, tried: seq<(real, Point)>, m: real)
    requires Searched(cache, cells, groups, q, FloorKey(q, inv), slot, tried, m)
    requires Inverse(s, inv) && AllOwnCells(cache, s)
    requires |slot| == K && m <= Reach(groups - 1) as real * Square(s)
    ensures IsNearest(DistTo(World(cache), q), World(cache).Keys, Kept(cells, slot), K)
  {
    FloorInCell(q, s, inv);
    CacheFits(cache, s);
    KeptAreNearest(World(cache), FloorKey(q, inv), cells, groups - 1, q, s, slot, tried, m);
  }

  lemma CacheFits(cache: Cache, s: real)
    requires WellFormed(cache) && AllOwnCells(cache, s)
    ensures WorldFits(World(cache), s)
  {
    forall c | c in World(cache) ensures InCell(World(cache)[c], c, s) {
      WorldInCells(cache, s, c);
    }
  }

  // A search that stops before its last group has found five nearest of all stored points.
  lemma EarlyStopIsExact(cache: Cache, cells: seq<Cell>, groups: nat, q: Point, s: real, inv: real,
                         slot: seq<int>, tried: seq<(real, Point)>, m: real)
    requires Searched(cache, cells, groups, q, FloorKey(q, inv), slot, tried, m)
    requires Inverse(s, inv) && AllOwnCells(cache, s)
    requires |slot| == K && groups < GROUPS && m < MinDis2(groups - 1) && s >= 0.25
    ensures IsNearest(DistTo(World(cache), q), World(cache).Keys, Kept(cells, slot), K)
  {
    ThresholdReached(groups - 1, s);
    ReachedIsExact(cache, cells, groups, q, s, inv, slot, tried, m);
  }
}

// For which sub-voxel sides the thresholds of getTopK are right.
module KnnThresholds {
  import opened KnnTables
  import opened VoxelGeometry
  import opened KnnOrder
  import opened Nearest
  import opened KnnHeap
  import opened KnnSearch

  // Whatever is stored, stopping at a threshold is right.
  ghost predicate StopsRight(s: real) {
    forall world: map<Cell, Point>, cells, groups: nat, q, f, slot, tried, m ::
      Seen(world, cells, groups, q, f, slot, tried, m)
      && InCell(q, f, s) && WorldFits(world, s) && |slot| == K && groups < GROUPS && m < MinDis2(groups - 1)
      ==> IsNearest(DistTo(world, q), world.Keys, Kept(cells, slot), K)
  }

  // The thresholds are made for sub-voxels of a quarter, that is a resolution of a half: stopping
  // early is right if and only if they are no smaller.
  lemma StopsRightFromAQuarter(s: real)
    requires s > 0.0
    ensures StopsRight(s) <==> s >= 0.25
  {
    if s >= 0.25 {
      StopsRightThen(s);
    } else {
      StopsWrong(s);
    }
  }

  lemma StopsRightThen(s: real)
    requires s >= 0.25
    ensures StopsRight(s)
  {
    forall world: map<Cell, Point>, cells, groups: nat, q, f, slot, tried, m
      | Seen(world, cells, groups, q, f, slot, tried, m)
        && InCell(q, f, s) && WorldFits(world, s) && |slot| == K && groups < GROUPS && m < MinDis2(groups - 1)
      ensures IsNearest(DistTo(world, q), world.Keys, Kept(cells, slot), K)
    {
      OneStop(s, world, cells, groups, q, f, slot, tried, m);
    }
  }

  lemma OneStop(s: real, world: map<Cell, Point>, cells: seq<Cell>, groups: nat, q: Point, f: Cell,
                slot: seq<int>, tried: seq<(real, Point)>, m: real)
    requires s >= 0.25 && Seen(world, cells, groups, q, f, slot, tried, m)
    requires InCell(q, f, s) && WorldFits(world, s) && |slot| == K && groups < GROUPS && m < MinDis2(groups - 1)
    ensures IsNearest(DistTo(world, q), world.Keys, Kept(cells, slot), K)
  {
    ThresholdReached(groups - 1, s);
    KeptAreNearest(world, f, cells, groups - 1, q, s, slot, tried, m);
  }

  // For a smaller side: five points seen, the farthest of them behind the query, and a nearer one
  // ahead of it, two sub-voxels away.
  function Margin(s: real): real {
    if s <= 0.125 then s / 3.0 else (0.25 - s) / 3.0
  }

  function Query(s: real): Point {
    Point(s - Margin(s), 0.0, 0.0)
  }

  function Behind(s: real): Point {
    Point(-3.0 * Margin(s), 0.0, 0.0)
  }

  const HERE := Cell(0, 0, 0)
  const AHEAD := Cell(2, 0, 0)
  const BEHIND := Cell(-1, 0, 0)

  function SeenCells(): seq<Cell> {
    [HERE, Cell(1, 0, 0), Cell(0, 1, 0), Cell(0, 0, 1), BEHIND]
  }

  function SeenPoints(s: real): seq<Point> {
    [Query(s), Point(s, 0.0, 0.0), Point(s - Margin(s), s, 0.0), Point(s - Margin(s), 0.0, s), Behind(s)]
  }

  function Trap(s: real): map<Cell, Point> {
    var c, p := SeenCells(), SeenPoints(s);
    map[c[0] := p[0], c[1] := p[1], c[2] := p[2], c[3] := p[3], c[4] := p[4], AHEAD := Point(2.0 * s, 0.0, 0.0)]
  }

  lemma TrapFits(s: real)
    requires 0.0 < s < 0.25
    ensures WorldFits(Trap(s), s) && InCell(Query(s), HERE, s)
  {
    var e := Margin(s);
    assert 0.0 < e && 3.0 * e <= s;
  }

  lemma TrapProgress(s: real)
    ensures Progress(Trap(s), HERE, SeenCells(), 1, 0, 0)
  {
    TrapCells(s);
    TrapEach();
    ProgressOf(Trap(s), SeenCells());
  }

  lemma ProgressOf(world: map<Cell, Point>, cells: seq<Cell>)
    requires forall c :: c in world <==> c == AHEAD || c in cells
    requires |cells| == 5 && forall i, j | 0 <= i < j < 5 :: cells[i] != cells[j]
    requires forall c | c == AHEAD || c in cells :: c in cells <==> Before(OffsetOf(HERE, c), 1, 0, 0)
    ensures Progress(world, HERE, cells, 1, 0, 0)
  {
  }

  lemma TrapEach()
    ensures forall c | c == AHEAD || c in SeenCells() :: c in SeenCells() <==> Before(OffsetOf(HERE, c), 1, 0, 0)
  {
    forall c | c == AHEAD || c in SeenCells()
      ensures c in SeenCells() <==> Before(OffsetOf(HERE, c), 1, 0, 0)
    {
      TrapCell(c);
    }
  }

  lemma TrapCell(c: Cell)
    requires c == AHEAD || c in SeenCells()
    ensures c in SeenCells() <==> Before(OffsetOf(HERE, c), 1, 0, 0)
  {
    PastGroup0(c);
    if c == AHEAD { RankAhead(); } else { Adjoining(c); }
  }

  lemma TrapCells(s: real)
    ensures forall c :: c in Trap(s) <==> c == AHEAD || c in SeenCells()
    ensures forall c | c in SeenCells() :: -1 <= c.x <= 1 && -1 <= c.y <= 1 && -1 <= c.z <= 1
    ensures forall i, j | 0 <= i < j < 5 :: SeenCells()[i] != SeenCells()[j]
  {
  }

  lemma RankAhead()
    ensures RankOf(AHEAD) == 1
  {
  }

  lemma PastGroup0(c: Cell)
    ensures Before(OffsetOf(HERE, c), 1, 0, 0) <==> RankOf(c) == 0
  {
    assert OffsetOf(HERE, c) == c;
  }

  lemma Adjoining(c: Cell)
    requires -1 <= c.x <= 1 && -1 <= c.y <= 1 && -1 <= c.z <= 1
    ensures RankOf(c) == 0
  {
  }

  function Distances(s: real): seq<real> {
    var q, p := Query(s), SeenPoints(s);
    [Dist2(p[0], q), Dist2(p[1], q), Dist2(p[2], q), Dist2(p[3], q), Dist2(p[4], q)]
  }

  lemma TrapDistances(s: real)
    requires 0.0 < s < 0.25
    ensures forall i | 0 <= i < 5 :: Distances(s)[i] <= Distances(s)[4]
    ensures Distances(s)[4] < 0.0625
    ensures Dist2(Point(2.0 * s, 0.0, 0.0), Query(s)) < Distances(s)[4]
  {
    var e := Margin(s);
    var r, a := s + 2.0 * e, s + e;
    assert 0.0 < e && 3.0 * e <= s && r < 0.25;
    Along(-3.0 * e, s - e, -r);
    Along(2.0 * s, s - e, a);
    Along(s, s - e, e);
    Along(s - e, s - e, 0.0);
    Larger(a, r);
    Larger(s, r);
    Larger(e, r);
    Larger(0.0, r);
    Larger(r, 0.25);
    assert Square(-r) == Square(r);
    assert Square(s - 0.0) == Square(s) && Square((s - e) - (s - e)) == 0.0 && Square(0.0 - 0.0) == 0.0;
  }

  // Two points on the x axis.
  lemma Along(u: real, v: real, d: real)
    requires u - v == d
    ensures Dist2(Point(u, 0.0, 0.0), Point(v, 0.0, 0.0)) == Square(d)
  {
  }

  lemma Larger(a: real, b: real)
    requires 0.0 <= a < b
    ensures Square(a) < Square(b)
  {
    var d, e := b - a, b + a;
    ScaleLt(0.0, d, e);
    assert Square(b) - Square(a) == d * e;
  }

  lemma StopsWrong(s: real)
    requires 0.0 < s < 0.25
    ensures !StopsRight(s)
  {
    TrapRefutes(s);
    NotRight(s);
  }

  // A search that has seen this stops, with the wrong points.
  ghost predicate Fails(s: real, world: map<Cell, Point>, cells: seq<Cell>, groups: nat, q: Point, f: Cell,
                        slot: seq<int>, m: real) {
    && InCell(q, f, s) && WorldFits(world, s) && |slot| == K && groups < GROUPS && 1 <= groups
    && m < MinDis2(groups - 1)
    && (forall i | 0 <= i < |slot| :: 0 <= slot[i] < |cells|)
    && !IsNearest(DistTo(world, q), world.Keys, Kept(cells, slot), K)
  }

  ghost predicate Refuted(s: real) {
    exists world, cells, groups: nat, q, f, slot, tried, m ::
      Seen(world, cells, groups, q, f, slot, tried, m) && Fails(s, world, cells, groups, q, f, slot, m)
  }

  lemma NotRight(s: real)
    requires Refuted(s)
    ensures !StopsRight(s)
  {
    var world, cells, groups: nat, q, f, slot, tried, m :|
      Seen(world, cells, groups, q, f, slot, tried, m) && Fails(s, world, cells, groups, q, f, slot, m);
  }

  lemma TrapFails(s: real)
    requires 0.0 < s < 0.25
    ensures Fails(s, Trap(s), SeenCells(), 1, Query(s), HERE, [0, 1, 2, 3, 4], Distances(s)[4])
  {
    TrapFits(s);
    TrapIsNear(s);
    TrapNotNearest(s);
  }

  lemma TrapShown(s: real)
    returns (world: map<Cell, Point>, cells: seq<Cell>, q: Point, slot: seq<int>, tried: seq<(real, Point)>, m: real)
    requires 0.0 < s < 0.25
    ensures Seen(world, cells, 1, q, HERE, slot, tried, m) && Fails(s, world, cells, 1, q, HERE, slot, m)
  {
    world, cells, q, slot, tried, m := Trap(s), SeenCells(), Query(s), [0, 1, 2, 3, 4], TrapTried(s), Distances(s)[4];
    TrapSeen(s);
    TrapFails(s);
  }

  lemma TrapRefutes(s: real)
    requires 0.0 < s < 0.25
    ensures Refuted(s)
  {
    var world, cells, q, slot, tried, m := TrapShown(s);
  }

  lemma TrapIsNear(s: real)
    requires 0.0 < s < 0.25
    ensures Distances(s)[4] < MinDis2(0)
  {
    TrapDistances(s);
    FirstThreshold(Distances(s)[4]);
  }

  lemma FirstThreshold(m: real)
    requires m < 0.0625
    ensures m < MinDis2(0)
  {
  }

  lemma TrapNotNearest(s: real)
    requires 0.0 < s < 0.25
    ensures !IsNearest(DistTo(Trap(s), Query(s)), Trap(s).Keys, Kept(SeenCells(), [0, 1, 2, 3, 4]), K)
  {
    TrapDistances(s);
    TrapKept(s);
    var dist, all := DistTo(Trap(s), Query(s)), Trap(s).Keys;
    assert AHEAD in all - Kept(SeenCells(), [0, 1, 2, 3, 4]);
    assert dist(AHEAD) < dist(BEHIND);
  }

  function TrapTried(s: real): seq<(real, Point)> {
    var p, d := SeenPoints(s), Distances(s);
    [(d[0], p[0]), (d[1], p[1]), (d[2], p[2]), (d[3], p[3]), (d[4], p[4])]
  }

  lemma TrapSeen(s: real)
    requires 0.0 < s < 0.25
    ensures Seen(Trap(s), SeenCells(), 1, Query(s), HERE, [0, 1, 2, 3, 4], TrapTried(s), Distances(s)[4])
  {
    TrapProgress(s);
    TrapDistances(s);
    var tried, slot, d := TrapTried(s), [0, 1, 2, 3, 4], Distances(s);
    assert forall i | 0 <= i < 5 :: tried[i].0 == d[i] && slot[i] == i;
    assert Outcome(slot, tried, d[4]);
    TrapTracks(s);
  }

  lemma TrapTracks(s: real)
    ensures Tracks(TrapTried(s), SeenCells(), Trap(s), Query(s))
  {
    var w, c, p := Trap(s), SeenCells(), SeenPoints(s);
    assert w[c[0]] == p[0] && w[c[1]] == p[1] && w[c[2]] == p[2] && w[c[3]] == p[3] && w[c[4]] == p[4];
  }

  lemma TrapKept(s: real)
    ensures BEHIND in Kept(SeenCells(), [0, 1, 2, 3, 4]) && AHEAD !in Kept(SeenCells(), [0, 1, 2, 3, 4])
    ensures AHEAD in Trap(s) && BEHIND in Trap(s)
    ensures Trap(s)[AHEAD] == Point(2.0 * s, 0.0, 0.0) && Trap(s)[BEHIND] == SeenPoints(s)[4]
  {
    var slot := [0, 1, 2, 3, 4];
    assert SeenCells()[slot[4]] == BEHIND;
  }
}
