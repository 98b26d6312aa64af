// KNNHeap of OctVoxMap.hpp: the five best of the candidates tried so far, unsorted.
module Nearest {

  function Least(a: nat, b: nat): nat {
    if a <= b then a else b
  }

  // chosen is a set of at most k nearest elements of all.
  ghost predicate IsNearest<T(!new)>(dist: T -> real, all: set<T>, chosen: set<T>, k: nat) {
    && chosen <= all
    && |chosen| == Least(k, |all|)
    && forall c, o | c in chosen && o in all - chosen :: dist(c) <= dist(o)
  }

  ghost function Within<T(!new)>(dist: T -> real, s: set<T>, r: real): set<T> {
    set c | c in s && dist(c) <= r
  }

  lemma Sizes<T>(a: set<T>, b: set<T>)
    ensures |a| == |a * b| + |a - b|
  {
    assert a == a * b + (a - b);
  }

  // Ties may be broken differently, but the distances of a nearest set are determined: two such
  // sets have equally many elements within every radius.
  lemma NearestAgree<T(!new)>(dist: T -> real, all: set<T>, a: set<T>, b: set<T>, k: nat, r: real)
    requires IsNearest(dist, all, a, k) && IsNearest(dist, all, b, k)
    ensures |Within(dist, a, r)| == |Within(dist, b, r)|
  {
    var wa, wb := Within(dist, a, r), Within(dist, b, r);
    Sizes(a, b);
    Sizes(b, a);
    Sizes(wa, wb);
    Sizes(wb, wa);
    assert a * b == b * a;
    assert wa * wb == wb * wa;
    OnlyHere(dist, all, a, b, k, r);
    OnlyHere(dist, all, b, a, k, r);
    if wa - wb != {} && wb - wa != {} {
    } else if wa - wb != {} {
      var x :| x in wa - wb;
      OutsideWithin(dist, all, a, b, k, r, x);
    } else if wb - wa != {} {
      var x :| x in wb - wa;
      OutsideWithin(dist, all, b, a, k, r, x);
    }
  }

  // Where a goes beyond b, all elements are equally far.
  lemma OnlyHere<T(!new)>(dist: T -> real, all: set<T>, a: set<T>, b: set<T>, k: nat, r: real)
    requires IsNearest(dist, all, a, k) && IsNearest(dist, all, b, k)
    ensures Within(dist, a, r) - Within(dist, b, r) == {}
            || Within(dist, a, r) - Within(dist, b, r) == a - b
  {
    var out := Within(dist, a, r) - Within(dist, b, r);
    if out != {} {
      var x :| x in out;
      assert x in a - b;
      Sizes(a, b);
      Sizes(b, a);
      assert a * b == b * a;
      assert |b - a| == |a - b| > 0;
      var y :| y in b - a;
      forall z | z in a - b ensures z in out {
        assert dist(y) <= dist(x) && dist(x) <= dist(y);
        assert dist(y) <= dist(z) && dist(z) <= dist(y);
      }
      assert out == a - b;
    }
  }

  lemma OutsideWithin<T(!new)>(dist: T -> real, all: set<T>, a: set<T>, b: set<T>, k: nat, r: real, x: T)
    requires IsNearest(dist, all, a, k) && IsNearest(dist, all, b, k)
    requires x in Within(dist, a, r) - Within(dist, b, r)
    ensures Within(dist, b, r) - Within(dist, a, r) != {}
  {
    Sizes(a, b);
    Sizes(b, a);
    assert a * b == b * a;
    assert x in a - b;
    assert |b - a| == |a - b| > 0;
    var y :| y in b - a;
    assert dist(y) <= dist(x);
    assert y in Within(dist, b, r) - Within(dist, a, r);
  }
}

module KnnHeap {
  import opened Basics
  import opened Nearest

  const K := 5

  class KNNHeap<P(==, 0)> {
    var count: int
    var worst_: int
    var max_dist2_: real
    const dist2_: array<real>
    const points_: array<P>

    // All candidates tried since the reset, and where each kept one stands among them.
    ghost var tried: seq<(real, P)>
    ghost var slot: seq<int>

    ghost predicate Valid()
      reads this, dist2_, points_
    {
      && dist2_.Length == K && points_.Length == K && dist2_ as object != points_ as object
      && count == Least(K, |tried|) == |slot|
      && Holds(dist2_[..], points_[..], slot, tried)
      && LeftOut(slot, tried, max_dist2_)
      && IsMax(dist2_[..], count, worst_, max_dist2_)
    }

    constructor ()
      ensures Valid() && fresh(dist2_) && fresh(points_)
      ensures tried == [] && forall i | 0 <= i < K :: dist2_[i] == 0.0
    {
      count, worst_, max_dist2_ := 0, 0, 0.0;
      dist2_ := new real[K](_ => 0.0);
      points_ := new P[K];
      tried, slot := [], [];
    }

    method reset()
      requires Valid()
      modifies this, dist2_
      ensures Valid() && tried == [] && forall i | 0 <= i < K :: dist2_[i] == 0.0
    {
      count := 0;
      worst_ := 0;
      max_dist2_ := 0.0;
      for i := 0 to K
        modifies dist2_
        invariant forall j | 0 <= j < i :: dist2_[j] == 0.0
      {
        dist2_[i] := 0.0;
      }
      tried, slot := [], [];
    }

    method try_insert(dist2: real, pt: P)
      requires Valid() && dist2 >= 0.0
      modifies this, dist2_, points_
      ensures Valid()
      ensures tried == old(tried) + [(dist2, pt)]
      ensures slot == NewSlot(old(slot), old(worst_), |old(tried)|, dist2 < old(max_dist2_))
      ensures old(count) < K ==> worst_ == if dist2 > old(max_dist2_) then old(count) else old(worst_)
      ensures old(count) == K && dist2 < old(max_dist2_) ==> forall i | worst_ < i < K :: dist2_[i] < max_dist2_
    {
      var not_full := count < K;
      var should_insert := not_full || dist2 < max_dist2_;
      if should_insert {
        var insert_idx := if not_full then count else worst_;
        if not_full {
          fill(insert_idx, dist2, pt, dist2_[..], points_[..], slot, tried);
        } else {
          replace(insert_idx, dist2, pt, dist2_[..], points_[..], slot, tried);
        }
      } else {
        PassOver(dist2_[..], points_[..], slot, tried, dist2, pt, max_dist2_);
        tried := tried + [(dist2, pt)];
      }
    }

    // The heap is not full yet.
    method fill(insert_idx: int, dist2: real, pt: P, ghost d: seq<real>, ghost p: seq<P>, ghost s: seq<int>,
                ghost t: seq<(real, P)>)
      requires Valid() && insert_idx == count < K && dist2 >= 0.0
      requires d == dist2_[..] && p == points_[..] && s == slot && t == tried
      modifies this, dist2_, points_
      ensures Valid() && tried == t + [(dist2, pt)] && slot == s + [|t|]
      ensures worst_ == if dist2 > old(max_dist2_) then insert_idx else old(worst_)
    {
      KeepOne(d, p, s, t, dist2, pt, if dist2 > max_dist2_ then dist2 else max_dist2_);
      MaxGrows(d, count, worst_, max_dist2_, dist2);
      put(insert_idx, dist2, pt);
      count := count + 1;
      if dist2 > max_dist2_ {
        max_dist2_ := dist2;
        worst_ := insert_idx;
      }
      tried, slot := t + [(dist2, pt)], s + [|t|];
    }

    // The worst entry is given up.
    method replace(insert_idx: int, dist2: real, pt: P, ghost d: seq<real>, ghost p: seq<P>, ghost s: seq<int>,
                   ghost t: seq<(real, P)>)
      requires Valid() && count == K && insert_idx == worst_ && dist2 < max_dist2_
      requires d == dist2_[..] && p == points_[..] && s == slot && t == tried
      modifies this, dist2_, points_
      ensures Valid() && tried == t + [(dist2, pt)] && slot == s[insert_idx := |t|]
      ensures forall i | worst_ < i < K :: dist2_[i] < max_dist2_
    {
      ghost var m := max_dist2_;
      put(insert_idx, dist2, pt);
      update_worst_unrolled();
      Replace(d, p, s, t, dist2, pt, insert_idx, dist2_[..], m, max_dist2_);
      tried, slot := t + [(dist2, pt)], s[insert_idx := |t|];
    }

    method put(insert_idx: int, dist2: real, pt: P)
      requires dist2_.Length == points_.Length && dist2_ as object != points_ as object
      requires 0 <= insert_idx < dist2_.Length
      modifies dist2_, points_
      ensures dist2_[..] == old(dist2_[..])[insert_idx := dist2]
      ensures points_[..] == old(points_[..])[insert_idx := pt]
    {
      dist2_[insert_idx] := dist2;
      points_[insert_idx] := pt;
    }

    method update_worst_unrolled()
      requires dist2_.Length == K
      modifies this`worst_, this`max_dist2_
      ensures IsMax(dist2_[..], K, worst_, max_dist2_)
      ensures forall i | worst_ < i < K :: dist2_[i] < max_dist2_
    {
      var d0, d1, d2, d3, d4 := dist2_[0], dist2_[1], dist2_[2], dist2_[3], dist2_[4];
      var idx01 := if d0 > d1 then 0 else 1;
      var max01 := if d0 > d1 then d0 else d1;
      var idx23 := if d2 > d3 then 2 else 3;
      var max23 := if d2 > d3 then d2 else d3;
      var idx0123 := if max01 > max23 then idx01 else idx23;
      var max0123 := if max01 > max23 then max01 else max23;
      worst_ := if max0123 > d4 then idx0123 else 4;
      max_dist2_ := if max0123 > d4 then max0123 else d4;
    }
  }

  function NewSlot(slot: seq<int>, worst: int, n: int, better: bool): seq<int> {
    if |slot| < K then slot + [n]
    else if better && 0 <= worst < |slot| then slot[worst := n]
    else slot
  }

  // Entry i is candidate slot[i], and no candidate is kept twice.
  ghost predicate Holds<P>(d: seq<real>, p: seq<P>, slot: seq<int>, tried: seq<(real, P)>) {
    && |d| == |p| == K && |slot| == Least(K, |tried|)
    && (forall i | 0 <= i < |slot| :: 0 <= slot[i] < |tried| && d[i] == tried[slot[i]].0 && p[i] == tried[slot[i]].1)
    && Unique(slot)
    && (|slot| < K ==> forall i | 0 <= i < |slot| :: slot[i] == i)
  }

  ghost predicate LeftOut<P>(slot: seq<int>, tried: seq<(real, P)>, bound: real) {
    forall j | 0 <= j < |tried| && j !in slot :: tried[j].0 >= bound
  }

  // The greatest of the first n is m, in place at.
  predicate IsMax(d: seq<real>, n: int, at: int, m: real) {
    if n == 0 then at == 0 && m == 0.0
    else 0 <= at < n <= |d| && d[at] == m && forall i | 0 <= i < n :: d[i] <= m
  }

  lemma MaxGrows(d: seq<real>, n: nat, at: int, m: real, x: real)
    requires IsMax(d, n, at, m) && n < |d| && x >= 0.0
    ensures IsMax(d[n := x], n + 1, if x > m then n else at, if x > m then x else m)
  {
  }

  lemma KeepOne<P>(d: seq<real>, p: seq<P>, slot: seq<int>, tried: seq<(real, P)>, dist2: real, pt: P, bound: real)
    requires Holds(d, p, slot, tried) && |slot| < K
    ensures Holds(d[|slot| := dist2], p[|slot| := pt], slot + [|tried|], tried + [(dist2, pt)])
    ensures LeftOut(slot + [|tried|], tried + [(dist2, pt)], bound)
  {
    var slot' := slot + [|tried|];
    UniqueMore(slot, |tried|);
    forall j | 0 <= j <= |tried|
      ensures j in slot'
    {
      assert slot'[j] == j;
    }
  }

  lemma Replace<P>(d: seq<real>, p: seq<P>, slot: seq<int>, tried: seq<(real, P)>, dist2: real, pt: P,
                   at: int, d': seq<real>, m: real, m': real)
    requires Holds(d, p, slot, tried) && |slot| == K && LeftOut(slot, tried, m)
    requires 0 <= at < K && d[at] == m && dist2 < m
    requires forall i | 0 <= i < K :: d[i] <= m
    requires d' == d[at := dist2] && m' in d'
    ensures Holds(d', p[at := pt], slot[at := |tried|], tried + [(dist2, pt)])
    ensures LeftOut(slot[at := |tried|], tried + [(dist2, pt)], m')
  {
    var slot', tried' := slot[at := |tried|], tried + [(dist2, pt)];
    assert m' <= m;
    UniqueChanged(slot, at, |tried|);
    forall j | 0 <= j < |tried'| && j !in slot' ensures tried'[j].0 >= m' {
      assert slot'[at] == |tried|;
      assert forall i | 0 <= i < K && i != at :: slot'[i] == slot[i];
    }
  }

  lemma PassOver<P>(d: seq<real>, p: seq<P>, slot: seq<int>, tried: seq<(real, P)>, dist2: real, pt: P, m: real)
    requires Holds(d, p, slot, tried) && |slot| == K && LeftOut(slot, tried, m) && dist2 >= m
    ensures Holds(d, p, slot, tried + [(dist2, pt)]) && LeftOut(slot, tried + [(dist2, pt)], m)
  {
  }
}
