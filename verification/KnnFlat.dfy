// flat_search_order as the cursor of getTopK reads it: the lines of the groups, one after the
// other, and where every group begins.
module KnnFlat {
  import opened KnnTables

  function Bytes(ls: Locals): (b: seq<nat>)
    ensures |b| == Size(ls)
  {
    if ls.Nil? then [] else [ls.l] + Bytes(ls.rest)
  }

  function Width(ls: Locals): nat {
    if ls.Nil? then 0 else 2 + Size(ls)
  }

  // A line: neighbor, number of data bytes, data bytes.
  function Line(k: nat, ls: Locals): (b: seq<nat>)
    ensures |b| == Width(ls)
  {
    if ls.Nil? then [] else [k, Size(ls)] + Bytes(ls)
  }

  // The data of group g.
  function DataOf(g: nat): nat -> Locals {
    (k: nat) => Data(g, k)
  }

  // The lines of a group with such data from neighbor k on.
  function Lines(data: nat -> Locals, k: nat): (b: seq<nat>)
    ensures |b| == Length(data, k)
    decreases NEIGHBORS - k, data
  {
    if k >= NEIGHBORS then [] else Line(k, data(k)) + Lines(data, k + 1)
  }

  function Length(data: nat -> Locals, k: nat): nat
    decreases NEIGHBORS - k, data
  {
    if k >= NEIGHBORS then 0 else Width(data(k)) + Length(data, k + 1)
  }

  // All lines of group g.
  function Block(g: nat): seq<nat> {
    Lines(DataOf(g), 0)
  }

  // parts(g), parts(g + 1), up to parts(n), and where each of them begins.
  function Concat(parts: nat -> seq<nat>, g: nat, n: nat): seq<nat>
    decreases n - g, parts
  {
    if g >= n then [] else parts(g) + Concat(parts, g + 1, n)
  }

  function StartOf(parts: nat -> seq<nat>, g: nat): nat {
    if g == 0 then 0 else StartOf(parts, g - 1) + |parts(g - 1)|
  }

  lemma {:induction false} Rest(parts: nat -> seq<nat>, g: nat, n: nat)
    requires g <= n
    ensures StartOf(parts, g) <= |Concat(parts, 0, n)|
    ensures Concat(parts, 0, n)[StartOf(parts, g)..] == Concat(parts, g, n)
  {
    if g > 0 {
      Rest(parts, g - 1, n);
      var all := Concat(parts, 0, n);
      assert all[StartOf(parts, g)..] == all[StartOf(parts, g - 1)..][|parts(g - 1)|..];
    }
  }

  predicate CutAt(all: seq<nat>, b: nat, e: nat, part: seq<nat>) {
    b <= e <= |all| && all[b..e] == part
  }

  // The starts cut the concatenation exactly at the parts.
  lemma Cut(parts: nat -> seq<nat>, g: nat, n: nat)
    requires g < n
    ensures CutAt(Concat(parts, 0, n), StartOf(parts, g), StartOf(parts, g + 1), parts(g))
  {
    Rest(parts, g, n);
    Rest(parts, g + 1, n);
    assert Concat(parts, 0, n)[StartOf(parts, g)..StartOf(parts, g + 1)] == Concat(parts, g, n)[..|parts(g)|];
  }

  // flat_search_order
  function Flat(): seq<nat> {
    Concat(Block, 0, GROUPS)
  }

  // flat_search_order_offsets
  function Start(g: nat): nat {
    match g
    case 0 => 0
    case 1 => 43
    case 2 => 135
    case 3 => 219
    case 4 => 321
    case 5 => 465
    case _ => 593
  }

  lemma {:induction false} Ten(data: nat -> Locals, a: nat, w0: nat, w1: nat, w2: nat, w3: nat, w4: nat, w5: nat,
                               w6: nat, w7: nat, w8: nat, w9: nat)
    requires a + 10 <= NEIGHBORS
    requires Width(data(a)) == w0 && Width(data(a + 1)) == w1
    requires Width(data(a + 2)) == w2 && Width(data(a + 3)) == w3
    requires Width(data(a + 4)) == w4 && Width(data(a + 5)) == w5
    requires Width(data(a + 6)) == w6 && Width(data(a + 7)) == w7
    requires Width(data(a + 8)) == w8 && Width(data(a + 9)) == w9
    ensures Length(data, a) == w0 + w1 + w2 + w3 + w4 + w5 + w6 + w7 + w8 + w9 + Length(data, a + 10)
  {
    assert Length(data, a + 8) == w8 + w9 + Length(data, a + 10);
    assert Length(data, a + 6) == w6 + w7 + Length(data, a + 8);
    assert Length(data, a + 4) == w4 + w5 + Length(data, a + 6);
    assert Length(data, a + 2) == w2 + w3 + Length(data, a + 4);
  }

  lemma {:induction false} Blank(data: nat -> Locals, a: nat, b: nat)
    requires a <= b <= NEIGHBORS
    requires forall k | a <= k < b :: data(k).Nil?
    ensures Length(data, a) == Length(data, b)
    decreases b - a
  {
    if a < b {
      assert data(a).Nil?;
      Blank(data, a + 1, b);
    }
  }

  lemma Length0_0(data: nat -> Locals)
    requires forall k: nat | 0 <= k < 10 :: data(k) == Group0(k)
    ensures Length(data, 0) == 43 + Length(data, 10)
  {
    Ten(data, 0, 10, 6, 6, 6, 4, 4, 4, 3, 0, 0);
  }

  lemma Length0_10(data: nat -> Locals)
    requires forall k: nat | 10 <= k < 60 :: data(k) == Group0(k)
    ensures Length(data, 10) == Length(data, 60)
  {
    Blank(data, 10, 60);
  }

  lemma LengthOf0(data: nat -> Locals)
    requires forall k: nat | k < NEIGHBORS :: data(k) == Group0(k)
    ensures Length(data, 0) == 43
  {
    Length0_0(data);
    Length0_10(data);
  }

  lemma Length1_0(data: nat -> Locals)
    requires forall k: nat | 0 <= k < 10 :: data(k) == Group1(k)
    ensures Length(data, 0) == 53 + Length(data, 10)
  {
    Ten(data, 0, 0, 6, 6, 6, 6, 6, 6, 5, 6, 6);
  }

  lemma Length1_10(data: nat -> Locals)
    requires forall k: nat | 10 <= k < 20 :: data(k) == Group1(k)
    ensures Length(data, 10) == 39 + Length(data, 20)
  {
    Ten(data, 10, 6, 4, 4, 4, 4, 4, 4, 3, 3, 3);
  }

  lemma Length1_20(data: nat -> Locals)
    requires forall k: nat | 20 <= k < 60 :: data(k) == Group1(k)
    ensures Length(data, 20) == Length(data, 60)
  {
    Blank(data, 20, 60);
  }

  lemma LengthOf1(data: nat -> Locals)
    requires forall k: nat | k < NEIGHBORS :: data(k) == Group1(k)
    ensures Length(data, 0) == 92
  {
    Length1_0(data);
    Length1_10(data);
    Length1_20(data);
  }

  lemma Length2_0(data: nat -> Locals)
    requires forall k: nat | 0 <= k < 10 :: data(k) == Group2(k)
    ensures Length(data, 0) == 18 + Length(data, 10)
  {
    Ten(data, 0, 0, 0, 0, 0, 4, 4, 4, 6, 0, 0);
  }

  lemma Length2_10(data: nat -> Locals)
    requires forall k: nat | 10 <= k < 20 :: data(k) == Group2(k)
    ensures Length(data, 10) == 39 + Length(data, 20)
  {
    Ten(data, 10, 0, 4, 4, 4, 4, 4, 4, 5, 5, 5);
  }

  lemma Length2_20(data: nat -> Locals)
    requires forall k: nat | 20 <= k < 30 :: data(k) == Group2(k)
    ensures Length(data, 20) == 12 + Length(data, 30)
  {
    Ten(data, 20, 0, 4, 4, 4, 0, 0, 0, 0, 0, 0);
  }

  lemma Length2_30(data: nat -> Locals)
    requires forall k: nat | 30 <= k < 40 :: data(k) == Group2(k)
    ensures Length(data, 30) == 12 + Length(data, 40)
  {
    Ten(data, 30, 0, 4, 4, 4, 0, 0, 0, 0, 0, 0);
  }

  lemma Length2_40(data: nat -> Locals)
    requires forall k: nat | 40 <= k < 50 :: data(k) == Group2(k)
    ensures Length(data, 40) == 3 + Length(data, 50)
  {
    Ten(data, 40, 0, 0, 0, 3, 0, 0, 0, 0, 0, 0);
  }

  lemma Length2_50(data: nat -> Locals)
    requires forall k: nat | 50 <= k < 60 :: data(k) == Group2(k)
    ensures Length(data, 50) == Length(data, 60)
  {
    Blank(data, 50, 60);
  }

  lemma LengthOf2(data: nat -> Locals)
    requires forall k: nat | k < NEIGHBORS :: data(k) == Group2(k)
    ensures Length(data, 0) == 84
  {
    Length2_0(data);
    Length2_10(data);
    Length2_20(data);
    Length2_30(data);
    Length2_40(data);
    Length2_50(data);
  }

  lemma Length3_0(data: nat -> Locals)
    requires forall k: nat | 0 <= k < 10 :: data(k) == Group3(k)
    ensures Length(data, 0) == 12 + Length(data, 10)
  {
    Ten(data, 0, 0, 0, 0, 0, 0, 0, 0, 0, 6, 6);
  }

  lemma Length3_10(data: nat -> Locals)
    requires forall k: nat | 10 <= k < 20 :: data(k) == Group3(k)
    ensures Length(data, 10) == 39 + Length(data, 20)
  {
    Ten(data, 10, 6, 4, 4, 4, 4, 4, 4, 3, 3, 3);
  }

  lemma Length3_20(data: nat -> Locals)
    requires forall k: nat | 20 <= k < 30 :: data(k) == Group3(k)
    ensures Length(data, 20) == 34 + Length(data, 30)
  {
    Ten(data, 20, 6, 0, 0, 0, 6, 6, 4, 4, 4, 4);
  }

  lemma Length3_30(data: nat -> Locals)
    requires forall k: nat | 30 <= k < 40 :: data(k) == Group3(k)
    ensures Length(data, 30) == 17 + Length(data, 40)
  {
    Ten(data, 30, 4, 0, 0, 0, 4, 3, 3, 3, 0, 0);
  }

  lemma Length3_40(data: nat -> Locals)
    requires forall k: nat | 40 <= k < 60 :: data(k) == Group3(k)
    ensures Length(data, 40) == Length(data, 60)
  {
    Blank(data, 40, 60);
  }

  lemma LengthOf3(data: nat -> Locals)
    requires forall k: nat | k < NEIGHBORS :: data(k) == Group3(k)
    ensures Length(data, 0) == 102
  {
    Length3_0(data);
    Length3_10(data);
    Length3_20(data);
    Length3_30(data);
    Length3_40(data);
  }

  lemma Length4_0(data: nat -> Locals)
    requires forall k: nat | 0 <= k < 10 :: data(k) == Group4(k)
    ensures Length(data, 0) == Length(data, 10)
  {
    Blank(data, 0, 10);
  }

  lemma Length4_10(data: nat -> Locals)
    requires forall k: nat | 10 <= k < 20 :: data(k) == Group4(k)
    ensures Length(data, 10) == 36 + Length(data, 20)
  {
    Ten(data, 10, 0, 4, 4, 4, 4, 4, 4, 4, 4, 4);
  }

  lemma Length4_20(data: nat -> Locals)
    requires forall k: nat | 20 <= k < 30 :: data(k) == Group4(k)
    ensures Length(data, 20) == 34 + Length(data, 30)
  {
    Ten(data, 20, 0, 6, 6, 6, 0, 0, 4, 4, 4, 4);
  }

  lemma Length4_30(data: nat -> Locals)
    requires forall k: nat | 30 <= k < 40 :: data(k) == Group4(k)
    ensures Length(data, 30) == 40 + Length(data, 40)
  {
    Ten(data, 30, 4, 4, 4, 4, 4, 4, 4, 4, 4, 4);
  }

  lemma Length4_40(data: nat -> Locals)
    requires forall k: nat | 40 <= k < 50 :: data(k) == Group4(k)
    ensures Length(data, 40) == 31 + Length(data, 50)
  {
    Ten(data, 40, 4, 4, 4, 0, 4, 3, 3, 3, 3, 3);
  }

  lemma Length4_50(data: nat -> Locals)
    requires forall k: nat | 50 <= k < 60 :: data(k) == Group4(k)
    ensures Length(data, 50) == 3 + Length(data, 60)
  {
    Ten(data, 50, 3, 0, 0, 0, 0, 0, 0, 0, 0, 0);
  }

  lemma LengthOf4(data: nat -> Locals)
    requires forall k: nat | k < NEIGHBORS :: data(k) == Group4(k)
    ensures Length(data, 0) == 144
  {
    Length4_0(data);
    Length4_10(data);
    Length4_20(data);
    Length4_30(data);
    Length4_40(data);
    Length4_50(data);
  }

  lemma Length5_0(data: nat -> Locals)
    requires forall k: nat | 0 <= k < 17 :: data(k) == Group5(k)
    ensures Length(data, 0) == Length(data, 17)
  {
    Blank(data, 0, 17);
  }

  lemma Length5_17(data: nat -> Locals)
    requires forall k: nat | 17 <= k < 20 :: data(k) == Group5(k)
    ensures Length(data, 17) == 9 + Length(data, 20)
  {
    assert Length(data, 18) == 6 + Length(data, 20);
  }

  lemma Length5_20(data: nat -> Locals)
    requires forall k: nat | 20 <= k < 30 :: data(k) == Group5(k)
    ensures Length(data, 20) == 12 + Length(data, 30)
  {
    Ten(data, 20, 0, 4, 4, 4, 0, 0, 0, 0, 0, 0);
  }

  lemma Length5_30(data: nat -> Locals)
    requires forall k: nat | 30 <= k < 40 :: data(k) == Group5(k)
    ensures Length(data, 30) == 32 + Length(data, 40)
  {
    Ten(data, 30, 0, 5, 5, 5, 0, 3, 3, 3, 4, 4);
  }

  lemma Length5_40(data: nat -> Locals)
    requires forall k: nat | 40 <= k < 50 :: data(k) == Group5(k)
    ensures Length(data, 40) == 41 + Length(data, 50)
  {
    Ten(data, 40, 4, 4, 4, 5, 4, 4, 4, 4, 4, 4);
  }

  lemma Length5_50(data: nat -> Locals)
    requires forall k: nat | 50 <= k < 60 :: data(k) == Group5(k)
    ensures Length(data, 50) == 34 + Length(data, 60)
  {
    Ten(data, 50, 4, 4, 4, 3, 3, 3, 4, 3, 3, 3);
  }

  lemma LengthOf5(data: nat -> Locals)
    requires forall k: nat | k < NEIGHBORS :: data(k) == Group5(k)
    ensures Length(data, 0) == 128
  {
    Length5_0(data);
    Length5_17(data);
    Length5_20(data);
    Length5_30(data);
    Length5_40(data);
    Length5_50(data);
  }

  lemma GroupLength(g: nat, data: nat -> Locals)
    requires g < GROUPS && forall k: nat | k < NEIGHBORS :: data(k) == Data(g, k)
    ensures Length(data, 0) == Start(g + 1) - Start(g)
  {
    match g
    case 0 => LengthOf0(data);
    case 1 => LengthOf1(data);
    case 2 => LengthOf2(data);
    case 3 => LengthOf3(data);
    case 4 => LengthOf4(data);
    case 5 => LengthOf5(data);
  }

  // The starts are those of parts that are as long as the gaps between them.
  ghost predicate Fitting(parts: nat -> seq<nat>) {
    forall g | 0 <= g < GROUPS :: |parts(g)| == Start(g + 1) - Start(g)
  }

  lemma {:induction false} StartIsStart(parts: nat -> seq<nat>, g: nat)
    requires Fitting(parts) && g <= GROUPS
    ensures Start(g) == StartOf(parts, g)
  {
    if g > 0 { StartIsStart(parts, g - 1); }
  }

  lemma CutAtStarts(parts: nat -> seq<nat>, g: nat)
    requires Fitting(parts) && g < GROUPS
    ensures CutAt(Concat(parts, 0, GROUPS), Start(g), Start(g + 1), parts(g))
  {
    StartIsStart(parts, g);
    StartIsStart(parts, g + 1);
    Cut(parts, g, GROUPS);
  }

  lemma BlocksFit()
    ensures Fitting(Block)
  {
    forall g | 0 <= g < GROUPS
      ensures |Block(g)| == Start(g + 1) - Start(g)
    {
      GroupLength(g, DataOf(g));
    }
  }

  // The literal offsets cut the bytes exactly at the groups.
  lemma OffsetsFit(g: nat)
    requires g < GROUPS
    ensures CutAt(Flat(), Start(g), Start(g + 1), Block(g))
  {
    BlocksFit();
    CutAtStarts(Block, g);
  }
}
