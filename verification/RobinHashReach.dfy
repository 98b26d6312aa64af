// How far from home an entry of robin_hash can come: never too far for a 16-bit distance, whatever
// the hashes.
module RobinHashReach {
  import opened RobinHashLayout
  import opened PowersOfTwo
  import opened Basics
  import opened GrowthPolicy
  import opened Words

  const DIST_FROM_IDEAL_BUCKET_LIMIT: nat := 8192

  function Fwd(h: nat, t: nat, n: nat): (r: nat)
    requires h < n && t < n
    ensures r < n
  {
    if h + t < n then h + t else h + t - n
  }

  // Beyond the front, an entry sits behind one of its own home.
  ghost predicate BehindOwn<K(!new), V>(b: seq<Bucket<K, V>>, i: nat, front: nat)
    requires i < |b|
  {
    Dist(b[i]) > front ==> Dist(b[Prev(i, |b|)]) == Dist(b[i]) - 1
  }

  ghost predicate Front<K(!new), V>(b: seq<Bucket<K, V>>, front: nat) {
    forall i :: 0 <= i < |b| ==> BehindOwn(b, i, front)
  }

  ghost predicate OneHome<K(!new)>(hash: K -> nat, n: nat, h: nat, ks: set<K>)
    requires n > 0
  {
    forall k :: k in ks ==> Home(hash, n, k) == h
  }

  // No home has more keys than the limit lets in.
  ghost predicate GroupsFit<K(!new)>(hash: K -> nat, n: nat, keys: set<K>)
    requires n > 0
  {
    forall h: nat, ks: set<K> :: ks <= keys && OneHome(hash, n, h, ks) ==> |ks| <= DIST_FROM_IDEAL_BUCKET_LIMIT + 1
  }

  ghost predicate Near<K(!new), V>(hash: K -> nat, b: seq<Bucket<K, V>>, front: nat) {
    |b| > 0 && Front(b, front) && GroupsFit(hash, |b|, Contents(b).Keys)
  }

  // ---- counting the keys of a stretch of buckets ----

  ghost predicate HeldAt<K(!new), V>(b: seq<Bucket<K, V>>, i: nat, k: K) {
    i < |b| && b[i].Full? && b[i].key == k
  }

  // The keys of the count full buckets up to i are that many.
  lemma {:induction false} KeysBack<K(!new), V>(b: seq<Bucket<K, V>>, i: nat, count: nat) returns (ks: set<K>)
    requires Distinct(b) && i < |b| && count <= |b|
    requires forall t: nat :: t < count ==> b[Back(i, t, |b|)].Full?
    ensures |ks| == count && ks <= Contents(b).Keys
    ensures forall k :: k in ks ==> exists t: nat :: t < count && HeldAt(b, Back(i, t, |b|), k)
  {
    ks := {};
    if count > 0 {
      var rest := KeysBack(b, i, count - 1);
      var last := Back(i, count - 1, |b|);
      StoredBucket(b, last);
      Alone(b, last);
      forall t: nat | t < count - 1 ensures !HeldAt(b, Back(i, t, |b|), b[last].key) {
        assert Back(i, t, |b|) != last;
      }
      ks := rest + {b[last].key};
      assert HeldAt(b, Back(i, count - 1, |b|), b[last].key);
    }
  }

  // No more keys than buckets.
  lemma {:induction false} KeysAhead<K(!new), V>(b: seq<Bucket<K, V>>, base: nat, count: nat, ks: set<K>)
    requires base < |b| && count <= |b|
    requires forall k :: k in ks ==> exists t: nat :: t < count && HeldAt(b, Fwd(base, t, |b|), k)
    ensures |ks| <= count
    decreases count
  {
    if count == 0 {
      assert ks == {};
    } else {
      var last := b[Fwd(base, count - 1, |b|)];
      var rest := if last.Full? then ks - {last.key} else ks;
      forall k | k in rest
        ensures exists t: nat :: t < count - 1 && HeldAt(b, Fwd(base, t, |b|), k)
      {
        var t: nat :| t < count && HeldAt(b, Fwd(base, t, |b|), k);
      }
      KeysAhead(b, base, count - 1, rest);
      if last.Full? {
        assert ks <= rest + {last.key};
        SubsetCard(ks, rest + {last.key});
      }
    }
  }

  // ---- the bound ----

  // Beyond the front, the buckets before an entry hold entries of its home.
  lemma {:induction false} BackToFront<K(!new), V>(b: seq<Bucket<K, V>>, i: nat, front: nat, t: nat)
    requires Front(b, front) && i < |b| && t < |b| && t <= Dist(b[i]) - front
    ensures Dist(b[Back(i, t, |b|)]) == Dist(b[i]) - t
  {
    if t > 0 {
      BackToFront(b, i, front, t - 1);
      assert BehindOwn(b, Back(i, t - 1, |b|), front);
      assert Prev(Back(i, t - 1, |b|), |b|) == Back(i, t, |b|);
    }
  }

  lemma Reach<K(!new), V>(hash: K -> nat, b: seq<Bucket<K, V>>, front: nat, i: nat)
    requires Robin(hash, b) && Near(hash, b, front) && i < |b|
    ensures Dist(b[i]) <= front + DIST_FROM_IDEAL_BUCKET_LIMIT
  {
    if Dist(b[i]) > front {
      var n, count := |b|, Dist(b[i]) - front + 1;
      assert BucketOk(hash, b, i);
      var h := Home(hash, n, b[i].key);
      forall t: nat | t < count
        ensures b[Back(i, t, n)].Full? && Home(hash, n, b[Back(i, t, n)].key) == h
      {
        BackToFront(b, i, front, t);
        assert BucketOk(hash, b, Back(i, t, n));
      }
      var ks := KeysBack(b, i, count);
      assert OneHome(hash, n, h, ks);
    }
  }

  // ---- insertion: what the walk from start to the empty bucket stop leaves ----

  // Every bucket after start shows the distance of its predecessor, one more.
  ghost predicate Shifted<K(!new), V>(b: seq<Bucket<K, V>>, b': seq<Bucket<K, V>>, start: nat, stop: nat)
    requires start < |b| && stop < |b| && |b'| == |b|
  {
    forall i :: 0 <= i < |b| && i != start ==>
      Dist(b'[i]) == if Ahead(start, i, |b|) <= Ahead(start, stop, |b|) then Dist(b[Prev(i, |b|)]) + 1 else Dist(b[i])
  }

  // An exchange beyond the limit.
  ghost predicate LateAt<K(!new), V>(b: seq<Bucket<K, V>>, i: nat)
    requires i < |b|
  {
    Dist(b[Prev(i, |b|)]) + 1 > Dist(b[i]) >= 0 && Dist(b[Prev(i, |b|)]) + 1 > DIST_FROM_IDEAL_BUCKET_LIMIT
  }

  ghost predicate NoneLate<K(!new), V>(b: seq<Bucket<K, V>>, start: nat, stop: nat)
    requires start < |b| && stop < |b|
  {
    forall i :: 0 <= i < |b| && i != start && Ahead(start, i, |b|) < Ahead(start, stop, |b|) ==> !LateAt(b, i)
  }

  // Some entry is further from home than the limit.
  ghost predicate SomeFar<K(!new), V>(b: seq<Bucket<K, V>>) {
    exists i :: 0 <= i < |b| && Dist(b[i]) > 8192
  }

  // Only an exchange that leaves such an entry behind is late.
  lemma LateLeavesFar<K(!new), V>(b: seq<Bucket<K, V>>, b': seq<Bucket<K, V>>, start: nat, stop: nat)
    requires start < |b| && stop < |b| && |b'| == |b| && Shifted(b, b', start, stop) && !NoneLate(b, start, stop)
    ensures SomeFar(b')
  {
    var i :| 0 <= i < |b| && i != start && Ahead(start, i, |b|) < Ahead(start, stop, |b|) && LateAt(b, i);
    assert Dist(b'[i]) > 8192;
  }

  // The front moves by one at most, and only with a late exchange.
  lemma ShiftedFront<K(!new), V>(b: seq<Bucket<K, V>>, b': seq<Bucket<K, V>>, start: nat, stop: nat, front: nat,
                                 front': nat)
    requires start < |b| && stop < |b| && |b'| == |b| && b[stop].Empty? && Shifted(b, b', start, stop)
    requires forall i :: 0 <= i < |b| ==> Linked(b, i)
    requires Front(b, front) && front >= DIST_FROM_IDEAL_BUCKET_LIMIT
    requires Dist(b[start]) < Dist(b'[start]) <= DIST_FROM_IDEAL_BUCKET_LIMIT
    requires front' == front + 1 || (front' == front && NoneLate(b, start, stop))
    ensures Front(b', front')
  {
    forall i | 0 <= i < |b|
      ensures BehindOwn(b', i, front')
    {
      ShiftedBehind(b, b', start, stop, front, front', i);
    }
  }

  lemma ShiftedBehind<K(!new), V>(b: seq<Bucket<K, V>>, b': seq<Bucket<K, V>>, start: nat, stop: nat, front: nat,
                                  front': nat, i: nat)
    requires start < |b| && stop < |b| && |b'| == |b| && b[stop].Empty? && Shifted(b, b', start, stop)
    requires forall i :: 0 <= i < |b| ==> Linked(b, i)
    requires Front(b, front) && front >= DIST_FROM_IDEAL_BUCKET_LIMIT
    requires Dist(b[start]) < Dist(b'[start]) <= DIST_FROM_IDEAL_BUCKET_LIMIT
    requires front' == front + 1 || (front' == front && NoneLate(b, start, stop))
    requires i < |b|
    ensures BehindOwn(b', i, front')
  {
    var p := Prev(i, |b|);
    assert BehindOwn(b, i, front) && BehindOwn(b, p, front);
    assert Linked(b, p) && Linked(b, Prev(p, |b|));
    if i != start && Dist(b'[i]) > front' {
      if Ahead(start, i, |b|) > Ahead(start, stop, |b|) {
        assert Ahead(start, p, |b|) == Ahead(start, i, |b|) - 1;
      } else if p != start {
        assert Ahead(start, p, |b|) == Ahead(start, i, |b|) - 1;
        if front' == front { assert !LateAt(b, p); }
      }
    }
  }

  // A key let in within the limit keeps the groups small enough.
  lemma NewKeyFits<K(!new), V>(hash: K -> nat, b: seq<Bucket<K, V>>, x: Bucket<K, V>, i: nat, e: nat, keys: set<K>)
    requires Carrying(hash, b, x, i, e) && Dist(b[i]) < x.dist <= DIST_FROM_IDEAL_BUCKET_LIMIT
    requires keys == Contents(b).Keys && GroupsFit(hash, |b|, keys)
    ensures GroupsFit(hash, |b|, keys + {x.key})
  {
    var home := Home(hash, |b|, x.key);
    forall h: nat, ks: set<K> | ks <= keys + {x.key} && OneHome(hash, |b|, h, ks)
      ensures |ks| <= DIST_FROM_IDEAL_BUCKET_LIMIT + 1
    {
      var rest := ks - {x.key};
      assert OneHome(hash, |b|, h, rest);
      if x.key in ks {
        forall k | k in rest
          ensures exists t: nat :: t < x.dist && HeldAt(b, Fwd(h, t, |b|), k)
        {
          OwnHomeIsBefore(hash, b, x, i, e, k);
        }
        KeysAhead(b, h, x.dist, rest);
      }
    }
  }

  lemma OwnHomeIsBefore<K(!new), V>(hash: K -> nat, b: seq<Bucket<K, V>>, x: Bucket<K, V>, i: nat, e: nat, k: K)
    requires Carrying(hash, b, x, i, e) && Dist(b[i]) < x.dist
    requires k in Contents(b) && Home(hash, |b|, k) == Home(hash, |b|, x.key)
    ensures exists t: nat :: t < x.dist && HeldAt(b, Fwd(Home(hash, |b|, k), t, |b|), k)
  {
    MapOfHolds(b, |b|);
    var j :| 0 <= j < |b| && b[j].Full? && b[j].key == k;
    assert BucketOk(hash, b, j);
    var t := b[j].dist;
    if t >= x.dist {
      assert Back(j, t - x.dist, |b|) == i;
      Chain(b, j, t - x.dist);
    }
    assert Fwd(Home(hash, |b|, k), t, |b|) == j;
    assert HeldAt(b, Fwd(Home(hash, |b|, k), t, |b|), k);
  }

  // insert_value_impl has carried its entry from start to bucket i, and carries x from there.
  ghost predicate Walked<K(!new), V>(b: seq<Bucket<K, V>>, b': seq<Bucket<K, V>>, start: nat, x0: Bucket<K, V>, i: nat,
                                     x: Bucket<K, V>) {
    && |b'| == |b| && start < |b| && i < |b| && i != start && b'[start] == x0
    && x.Full? && x.dist == Dist(b[Prev(i, |b|)]) + 1
    && (forall j :: 0 <= j < |b| && j != start && Ahead(start, j, |b|) < Ahead(start, i, |b|) ==>
                      Dist(b'[j]) == Dist(b[Prev(j, |b|)]) + 1)
    && (forall j :: 0 <= j < |b| && Ahead(start, j, |b|) >= Ahead(start, i, |b|) ==> b'[j] == b[j])
  }

  lemma WalkStarts<K(!new), V>(b: seq<Bucket<K, V>>, start: nat, x0: Bucket<K, V>)
    requires |b| > 1 && start < |b| && b[start].Full?
    ensures Walked(b, b[start := x0], start, x0, Next(start, |b|), b[start].(dist := b[start].dist + 1))
    ensures NoneLate(b, start, Next(start, |b|))
  {
  }

  lemma OneFurther(start: nat, i: nat, j: nat, n: nat)
    requires start < n && i < n && j < n && Next(i, n) != start
    ensures Ahead(start, Next(i, n), n) == Ahead(start, i, n) + 1
    ensures Ahead(start, j, n) < Ahead(start, Next(i, n), n) <==> Ahead(start, j, n) < Ahead(start, i, n) || j == i
  {
  }

  // At bucket i, y is left and x' carried on.
  lemma WalkSteps<K(!new), V>(b: seq<Bucket<K, V>>, b': seq<Bucket<K, V>>, start: nat, x0: Bucket<K, V>, i: nat,
                              x: Bucket<K, V>, y: Bucket<K, V>, x': Bucket<K, V>)
    requires Walked(b, b', start, x0, i, x) && Next(i, |b|) != start
    requires Dist(y) == x.dist && x'.Full? && x'.dist == Dist(b[i]) + 1
    ensures Walked(b, b'[i := y], start, x0, Next(i, |b|), x')
  {
    var i', b'' := Next(i, |b|), b'[i := y];
    forall j | 0 <= j < |b|
      ensures j != start && Ahead(start, j, |b|) < Ahead(start, i', |b|) ==> Dist(b''[j]) == Dist(b[Prev(j, |b|)]) + 1
      ensures Ahead(start, j, |b|) >= Ahead(start, i', |b|) ==> b''[j] == b[j]
    {
      OneFurther(start, i, j, |b|);
    }
  }

  lemma NoneLateStep<K(!new), V>(b: seq<Bucket<K, V>>, start: nat, i: nat)
    requires start < |b| && i < |b| && i != start && Next(i, |b|) != start
    ensures NoneLate(b, start, Next(i, |b|)) <==> NoneLate(b, start, i) && !LateAt(b, i)
  {
    forall j | 0 <= j < |b|
      ensures OneMore(start, i, j, |b|)
    {
      OneFurther(start, i, j, |b|);
    }
    assert NoneLate(b, start, i) && !LateAt(b, i) ==> NoneLate(b, start, Next(i, |b|)) by {
      assert forall j | 0 <= j < |b| :: OneMore(start, i, j, |b|);
    }
    assert OneMore(start, i, i, |b|);
  }

  // What lies before the next bucket is what lies before this one, and this one.
  predicate OneMore(start: nat, i: nat, j: nat, n: nat)
    requires start < n && i < n && j < n
  {
    Ahead(start, j, n) < Ahead(start, Next(i, n), n) <==> (Ahead(start, j, n) < Ahead(start, i, n) || j == i)
  }

  // The exchange at bucket i is late if the entry carried is beyond the limit.
  lemma SwapIsLate<K(!new), V>(b: seq<Bucket<K, V>>, b': seq<Bucket<K, V>>, start: nat, x0: Bucket<K, V>, i: nat,
                               x: Bucket<K, V>)
    requires Walked(b, b', start, x0, i, x) && b'[i].Full? && Next(i, |b|) != start
    ensures NoneLate(b, start, Next(i, |b|)) <==>
              NoneLate(b, start, i) && !(x.dist > b'[i].dist && x.dist > DIST_FROM_IDEAL_BUCKET_LIMIT)
  {
    assert b'[i] == b[i];
    LateIs(b, i, x.dist);
    NoneLateStep(b, start, i);
  }

  lemma LateIs<K(!new), V>(b: seq<Bucket<K, V>>, i: nat, d: int)
    requires i < |b| && b[i].Full? && d == Dist(b[Prev(i, |b|)]) + 1
    ensures LateAt(b, i) <==> d > b[i].dist && d > DIST_FROM_IDEAL_BUCKET_LIMIT
  {
  }

  lemma WalkSwaps<K(!new), V>(b: seq<Bucket<K, V>>, b': seq<Bucket<K, V>>, start: nat, x0: Bucket<K, V>, i: nat,
                              x: Bucket<K, V>)
    requires Walked(b, b', start, x0, i, x) && b'[i].Full? && x.dist > b'[i].dist && Next(i, |b|) != start
    ensures Walked(b, b'[i := x], start, x0, Next(i, |b|), b'[i].(dist := b'[i].dist + 1))
    ensures NoneLate(b, start, Next(i, |b|)) <==> NoneLate(b, start, i) && x.dist <= DIST_FROM_IDEAL_BUCKET_LIMIT
  {
    SwapIsLate(b, b', start, x0, i, x);
    WalkSteps(b, b', start, x0, i, x, x, b'[i].(dist := b'[i].dist + 1));
  }

  // An entry that does not give way is exactly as far from home as the one carried.
  lemma WalkPasses<K(!new), V>(b: seq<Bucket<K, V>>, b': seq<Bucket<K, V>>, start: nat, x0: Bucket<K, V>, i: nat,
                               x: Bucket<K, V>)
    requires Walked(b, b', start, x0, i, x) && x.dist <= Dist(b'[i]) && Next(i, |b|) != start
    requires forall j :: 0 <= j < |b| ==> Linked(b, j)
    ensures Walked(b, b', start, x0, Next(i, |b|), x.(dist := x.dist + 1))
    ensures NoneLate(b, start, i) <==> NoneLate(b, start, Next(i, |b|))
  {
    SwapIsLate(b, b', start, x0, i, x);
    PassSteps(b, b', start, x0, i, x, b'[i]);
  }

  lemma PassSteps<K(!new), V>(b: seq<Bucket<K, V>>, b': seq<Bucket<K, V>>, start: nat, x0: Bucket<K, V>, i: nat,
                              x: Bucket<K, V>, y: Bucket<K, V>)
    requires Walked(b, b', start, x0, i, x) && y == b'[i] && x.dist <= Dist(y) && Next(i, |b|) != start
    requires forall j :: 0 <= j < |b| ==> Linked(b, j)
    ensures Walked(b, b', start, x0, Next(i, |b|), x.(dist := x.dist + 1))
  {
    assert Linked(b, Prev(i, |b|));
    assert y == b[i];
    assert b'[i := y] == b';
    WalkSteps(b, b', start, x0, i, x, y, x.(dist := x.dist + 1));
  }

  lemma WalkEnds<K(!new), V>(b: seq<Bucket<K, V>>, b': seq<Bucket<K, V>>, start: nat, x0: Bucket<K, V>, i: nat,
                             x: Bucket<K, V>)
    requires Walked(b, b', start, x0, i, x)
    ensures Shifted(b, b'[i := x], start, i) && b'[i := x][start] == x0
  {
  }

  // ---- erasure: bucket p is empty and its successors move down ----

  ghost predicate FrontAround<K(!new), V>(b: seq<Bucket<K, V>>, p: nat, front: nat)
    requires p < |b|
  {
    var q := Next(p, |b|);
    && (forall i :: 0 <= i < |b| && i != q ==> BehindOwn(b, i, front))
    && (Dist(b[q]) > front + 1 ==> Dist(b[Prev(p, |b|)]) == Dist(b[q]) - 2)
  }

  lemma StartFront<K(!new), V>(b: seq<Bucket<K, V>>, p: nat, front: nat)
    requires Front(b, front) && |b| > 1 && p < |b| && b[p].Full?
    ensures FrontAround(b[p := Empty], p, front)
  {
    var b' := b[p := Empty];
    forall i | 0 <= i < |b| && i != Next(p, |b|)
      ensures BehindOwn(b', i, front)
    {
      assert BehindOwn(b, i, front);
    }
    assert BehindOwn(b, Next(p, |b|), front) && BehindOwn(b, p, front);
  }

  lemma StepFront<K(!new), V>(b: seq<Bucket<K, V>>, p: nat, front: nat, b': seq<Bucket<K, V>>)
    requires |b| > 1 && p < |b| && b[p].Empty? && FrontAround(b, p, front) && Dist(b[Next(p, |b|)]) > 0
    requires b' == b[p := b[Next(p, |b|)].(dist := b[Next(p, |b|)].dist - 1)][Next(p, |b|) := Empty]
    ensures FrontAround(b', Next(p, |b|), front)
  {
    var q := Next(p, |b|);
    forall i | 0 <= i < |b| && i != Next(q, |b|)
      ensures BehindOwn(b', i, front)
    {
      if i != q { assert BehindOwn(b, i, front); }
    }
    if Next(q, |b|) != q { assert Next(q, |b|) != p ==> BehindOwn(b, Next(q, |b|), front); }
  }

  lemma EndFront<K(!new), V>(b: seq<Bucket<K, V>>, p: nat, front: nat)
    requires p < |b| && FrontAround(b, p, front) && Dist(b[Next(p, |b|)]) <= 0
    ensures Front(b, front)
  {
    assert BehindOwn(b, Next(p, |b|), front);
  }

  lemma FewerKeysFit<K(!new)>(hash: K -> nat, n: nat, keys: set<K>, fewer: set<K>)
    requires n > 0 && GroupsFit(hash, n, keys) && fewer <= keys
    ensures GroupsFit(hash, n, fewer)
  {
    forall h: nat, ks: set<K> | ks <= fewer && OneHome(hash, n, h, ks)
      ensures |ks| <= DIST_FROM_IDEAL_BUCKET_LIMIT + 1
    {
      assert ks <= keys;
    }
  }

  // ---- a table of more buckets ----

  // The same home, seen with n buckets and with q * n.
  lemma FineHome(h: nat, w: nat, n: nat, q: nat, x: nat)
    requires n > 0 && q > 0 && h < q * n && w < n && x == Back(h, w, q * n)
    ensures x % n == Back(h % n, w, n)
  {
    if w <= h {
      StepBack(h, w, n, h / n, h % n);
    } else {
      DivModUnique(h, 0, h, n);
      AroundTheEnd(h, w, n, q, x, q * n);
    }
  }

  lemma AroundTheEnd(h: nat, w: nat, n: nat, q: nat, x: nat, m: nat)
    requires h < w < n && q > 0 && m == q * n && x == h - w + m
    ensures x % n == h - w + n
  {
    assert (q - 1) * n == m - n;
    DivModUnique(x, q - 1, h - w + n, n);
  }

  lemma StepBack(h: nat, w: nat, n: nat, a: nat, r: nat)
    requires w < n && w <= h && h == n * a + r && r < n
    ensures (h - w) % n == Back(r, w, n)
  {
    if w <= r {
      DivModUnique(h - w, a, r - w, n);
    } else {
      DivModUnique(h - w, a - 1, r - w + n, n);
    }
  }

  // How many full buckets lie before bucket i.
  lemma RunBefore<K(!new), V>(b: seq<Bucket<K, V>>, i: nat, e: nat) returns (m: nat)
    requires i < |b| && e < |b| && b[e].Empty? && b[i].Full?
    ensures m + 1 < |b| && b[Back(i, m + 1, |b|)].Empty?
    ensures forall t: nat :: 0 < t <= m ==> b[Back(i, t, |b|)].Full?
  {
    m := 0;
    var far := Ahead(e, i, |b|);
    assert Back(i, far, |b|) == e;
    while b[Back(i, m + 1, |b|)].Full?
      invariant m < far < |b| && (m + 1 < |b|)
      invariant forall t: nat :: 0 < t <= m ==> b[Back(i, t, |b|)].Full?
      decreases far - m
    {
      m := m + 1;
    }
  }

  // In a run of full buckets behind an empty one, nothing is at home before the run.
  lemma HomeInRun<K(!new), V>(b: seq<Bucket<K, V>>, i: nat, m: nat, t: nat)
    requires i < |b| && m + 1 < |b| && b[Back(i, m + 1, |b|)].Empty? && 0 < t <= m
    requires forall j :: 0 <= j < |b| ==> Linked(b, j)
    ensures Dist(b[Back(i, t, |b|)]) <= m - t
  {
    var j := Back(i, t, |b|);
    if Dist(b[j]) > m - t {
      assert Back(j, m + 1 - t, |b|) == Back(i, m + 1, |b|);
      Chain(b, j, m + 1 - t);
    }
  }

  // Before an entry that is not behind one of its own home, all are of earlier homes.
  lemma EarlierHome<K(!new), V>(b: seq<Bucket<K, V>>, i: nat, m: nat, t: nat)
    requires i < |b| && m + 1 < |b| && 0 < t <= m && Dist(b[i]) > 0
    requires Dist(b[Prev(i, |b|)]) >= Dist(b[i]) && b[Back(i, t, |b|)].Full?
    requires forall j :: 0 <= j < |b| ==> Linked(b, j)
    ensures t + Dist(b[Back(i, t, |b|)]) > Dist(b[i])
  {
    if t <= Dist(b[i]) {
      var p := Prev(i, |b|);
      assert Back(p, t - 1, |b|) == Back(i, t, |b|);
      Chain(b, p, t - 1);
    }
  }

  // From any entry of a home back to one that is not beyond the front.
  lemma {:induction false} WithinFront<K(!new), V>(b: seq<Bucket<K, V>>, i: nat, front: nat) returns (f: nat)
    requires Front(b, front) && i < |b| && b[i].Full? && b[i].dist < |b|
    ensures f <= front && f <= b[i].dist && Dist(b[Back(i, b[i].dist - f, |b|)]) == f
    decreases b[i].dist
  {
    if b[i].dist <= front {
      f := b[i].dist;
    } else {
      assert BehindOwn(b, i, front);
      var p := Prev(i, |b|);
      f := WithinFront(b, p, front);
      assert Back(p, b[p].dist - f, |b|) == Back(i, b[i].dist - f, |b|);
    }
  }

  // A table b with n buckets, and b' with more, whose keys are among those of b.
  ghost predicate Grows<K(!new), V>(hash: K -> nat, b: seq<Bucket<K, V>>, b': seq<Bucket<K, V>>, q: nat) {
    && Robin(hash, b) && Robin(hash, b') && q > 0 && |b'| == q * |b|
    && Contents(b').Keys <= Contents(b).Keys
  }

  lemma HomeGrows<K(!new), V>(hash: K -> nat, b: seq<Bucket<K, V>>, b': seq<Bucket<K, V>>, q: nat, k: K)
    requires Grows(hash, b, b', q)
    ensures Home(hash, |b|, k) == Home(hash, |b'|, k) % |b|
  {
    ModOfMod(hash(k), |b|, q);
  }

  lemma GrownGroupsFit<K(!new), V>(hash: K -> nat, b: seq<Bucket<K, V>>, b': seq<Bucket<K, V>>, q: nat)
    requires Grows(hash, b, b', q) && GroupsFit(hash, |b|, Contents(b).Keys)
    ensures GroupsFit(hash, |b'|, Contents(b').Keys)
  {
    forall h: nat, ks: set<K> | ks <= Contents(b').Keys && OneHome(hash, |b'|, h, ks)
      ensures |ks| <= DIST_FROM_IDEAL_BUCKET_LIMIT + 1
    {
      forall k | k in ks
        ensures Home(hash, |b|, k) == h % |b|
      {
        HomeGrows(hash, b, b', q, k);
      }
      assert OneHome(hash, |b|, h % |b|, ks);
    }
  }

  lemma AtMostBuckets<K(!new), V>(b: seq<Bucket<K, V>>, ks: set<K>)
    requires Distinct(b) && |b| > 0 && ks <= Contents(b).Keys
    ensures |ks| <= |b|
  {
    MapOfHolds(b, |b|);
    forall k | k in ks
      ensures exists t: nat :: t < |b| && HeldAt(b, Fwd(0, t, |b|), k)
    {
      var j: nat :| j < |b| && b[j].Full? && b[j].key == k;
      assert HeldAt(b, Fwd(0, j, |b|), k);
    }
    KeysAhead(b, 0, |b|, ks);
  }

  // An entry i of the larger table that is not behind one of its own home, after a run of m others:
  // what the smaller table held for the home of i began f buckets after it.
  ghost predicate Fronts<K(!new), V>(hash: K -> nat, b: seq<Bucket<K, V>>, b': seq<Bucket<K, V>>, q: nat, i: nat,
                                     m: nat, f: nat) {
    && Grows(hash, b, b', q) && i < |b'| && m + 1 < |b'| && f < |b| && m <= |b|
    && b'[i].Full? && b'[Back(i, m + 1, |b'|)].Empty?
    && f < b'[i].dist < m && Dist(b'[Prev(i, |b'|)]) >= b'[i].dist
    && (forall t: nat :: 0 < t <= m ==> b'[Back(i, t, |b'|)].Full?)
    && Dist(b[Fwd(Home(hash, |b|, b'[i].key), f, |b|)]) == f
  }

  // The keys of the run have their homes before that of i, by w in the smaller table too.
  lemma HomeBefore<K(!new), V>(hash: K -> nat, b: seq<Bucket<K, V>>, b': seq<Bucket<K, V>>, q: nat, i: nat, m: nat,
                               f: nat, t: nat)
    returns (w: nat)
    requires Fronts(hash, b, b', q, i, m, f) && 0 < t <= m
    ensures 0 < w <= m - b'[i].dist
    ensures Home(hash, |b|, b'[Back(i, t, |b'|)].key) == Back(Home(hash, |b|, b'[i].key), w, |b|)
  {
    var n, j := |b'|, Back(i, t, |b'|);
    HomeInRun(b', i, m, t);
    EarlierHome(b', i, m, t);
    assert BehindAll(b', i, j, t);
    assert BucketOk(hash, b', i) && BucketOk(hash, b', j);
    w := t + b'[j].dist - b'[i].dist;
    assert Home(hash, n, b'[j].key) == Back(Home(hash, n, b'[i].key), w, n);
    FineHome(Home(hash, n, b'[i].key), w, |b|, q, Home(hash, n, b'[j].key));
    HomeGrows(hash, b, b', q, b'[i].key);
    HomeGrows(hash, b, b', q, b'[j].key);
  }

  predicate BehindAll<K, V>(b: seq<Bucket<K, V>>, i: nat, j: nat, t: nat) {
    i < |b| && j < |b| && t < |b| && j == Back(i, t, |b|)
  }

  lemma NearEnough<K(!new), V>(b: seq<Bucket<K, V>>, j: nat, h: nat, w: nat, f: nat)
    requires j < |b| && h < |b| && 0 < w < |b| && f < |b| && b[j].Full?
    requires b[j].dist == Ahead(Back(h, w, |b|), j, |b|) && Dist(b[Fwd(h, f, |b|)]) == f
    requires forall i :: 0 <= i < |b| ==> Linked(b, i)
    ensures b[j].dist < w + f
  {
    var d := b[j].dist;
    if d >= w + f {
      assert Back(j, d - (w + f), |b|) == Fwd(h, f, |b|);
      Chain(b, j, d - (w + f));
    }
  }

  // So the smaller table held them all in fewer buckets than they are.
  lemma PlaceBefore<K(!new), V>(hash: K -> nat, b: seq<Bucket<K, V>>, b': seq<Bucket<K, V>>, q: nat, i: nat, m: nat,
                                f: nat, t: nat)
    requires Fronts(hash, b, b', q, i, m, f) && 0 < t <= m
    ensures var base := Back(Home(hash, |b|, b'[i].key), m - b'[i].dist, |b|);
      exists z: nat :: z < m - b'[i].dist + f && HeldAt(b, Fwd(base, z, |b|), b'[Back(i, t, |b'|)].key)
  {
    var n, h, k := |b|, Home(hash, |b|, b'[i].key), b'[Back(i, t, |b'|)].key;
    var w := HomeBefore(hash, b, b', q, i, m, f, t);
    StoredBucket(b', Back(i, t, |b'|));
    MapOfHolds(b, n);
    var j: nat :| j < n && b[j].Full? && b[j].key == k;
    assert BucketOk(hash, b, j);
    var d := b[j].dist;
    NearEnough(b, j, h, w, f);
    var z := m - b'[i].dist - w + d;
    assert Fwd(Back(h, m - b'[i].dist, n), z, n) == j;
    assert HeldAt(b, Fwd(Back(h, m - b'[i].dist, n), z, n), k);
  }

  // The keys of a run.
  lemma RunKeys<K(!new), V>(b: seq<Bucket<K, V>>, i: nat, m: nat) returns (ks: set<K>)
    requires Distinct(b) && i < |b| && m + 1 < |b|
    requires forall t: nat :: 0 < t <= m ==> b[Back(i, t, |b|)].Full?
    ensures |ks| == m && ks <= Contents(b).Keys
    ensures forall k :: k in ks ==> exists t: nat :: 0 < t <= m && HeldAt(b, Back(i, t, |b|), k)
  {
    var p := Prev(i, |b|);
    forall t: nat | t < m
      ensures b[Back(p, t, |b|)].Full?
    {
      assert Back(p, t, |b|) == Back(i, t + 1, |b|);
    }
    ks := KeysBack(b, p, m);
    forall k | k in ks
      ensures exists t: nat :: 0 < t <= m && HeldAt(b, Back(i, t, |b|), k)
    {
      var t: nat :| t < m && HeldAt(b, Back(p, t, |b|), k);
      assert HeldAt(b, Back(i, t + 1, |b|), k);
    }
  }

  lemma NoFronts<K(!new), V>(hash: K -> nat, b: seq<Bucket<K, V>>, b': seq<Bucket<K, V>>, q: nat, i: nat, m: nat,
                             f: nat)
    ensures !Fronts(hash, b, b', q, i, m, f)
  {
    if Fronts(hash, b, b', q, i, m, f) {
      var ks := RunKeys(b', i, m);
      var base, count := Back(Home(hash, |b|, b'[i].key), m - b'[i].dist, |b|), m - b'[i].dist + f;
      forall k | k in ks
        ensures exists z: nat :: z < count && HeldAt(b, Fwd(base, z, |b|), k)
      {
        var t: nat :| 0 < t <= m && HeldAt(b', Back(i, t, |b'|), k);
        PlaceBefore(hash, b, b', q, i, m, f, t);
      }
      KeysAhead(b, base, count, ks);
    }
  }

  lemma GrownFront<K(!new), V>(hash: K -> nat, b: seq<Bucket<K, V>>, b': seq<Bucket<K, V>>, q: nat, front: nat, e: nat)
    requires Grows(hash, b, b', q) && Front(b, front) && e < |b'| && b'[e].Empty?
    ensures Front(b', front)
  {
    forall i: nat | i < |b'|
      ensures BehindOwn(b', i, front)
    {
      if !BehindOwn(b', i, front) {
        var m, f := FrontOf(hash, b, b', q, front, e, i);
        NoFronts(hash, b, b', q, i, m, f);
      }
    }
  }

  lemma FrontOf<K(!new), V>(hash: K -> nat, b: seq<Bucket<K, V>>, b': seq<Bucket<K, V>>, q: nat, front: nat, e: nat,
                            i: nat)
    returns (m: nat, f: nat)
    requires Grows(hash, b, b', q) && Front(b, front) && e < |b'| && b'[e].Empty?
    requires i < |b'| && !BehindOwn(b', i, front)
    ensures Fronts(hash, b, b', q, i, m, f)
  {
    var p := Prev(i, |b'|);
    assert Linked(b', p);
    m := RunBefore(b', i, e);
    assert Back(i, 1, |b'|) == p;
    HomeInRun(b', i, m, 1);
    RunFits(b, b', i, m);
    var k := b'[i].key;
    StoredBucket(b', i);
    MapOfHolds(b, |b|);
    var j: nat :| j < |b| && b[j].Full? && b[j].key == k;
    assert BucketOk(hash, b, j);
    f := WithinFront(b, j, front);
    assert Back(j, b[j].dist - f, |b|) == Fwd(Home(hash, |b|, k), f, |b|);
  }

  lemma RunFits<K(!new), V>(b: seq<Bucket<K, V>>, b': seq<Bucket<K, V>>, i: nat, m: nat)
    requires Distinct(b) && Distinct(b') && |b| > 0 && i < |b'| && m + 1 < |b'| && Contents(b').Keys <= Contents(b).Keys
    requires forall t: nat :: 0 < t <= m ==> b'[Back(i, t, |b'|)].Full?
    ensures m <= |b|
  {
    var ks := RunKeys(b', i, m);
    AtMostBuckets(b, ks);
  }

  // A table of more buckets comes no nearer to its limit.
  lemma GrownIsNear<K(!new), V>(hash: K -> nat, b: seq<Bucket<K, V>>, b': seq<Bucket<K, V>>, q: nat, front: nat, e: nat)
    requires Grows(hash, b, b', q) && Near(hash, b, front) && e < |b'| && b'[e].Empty?
    ensures Near(hash, b', front)
  {
    GrownFront(hash, b, b', q, front, e);
    GrownGroupsFit(hash, b, b', q);
  }

  // ---- the front of a table over its life ----

  // Every exchange beyond the limit makes the next insertion double the buckets, so the front is
  // never further behind the limit than the table has doubled.
  function Log2(n: nat): nat {
    if n <= 1 then 0 else 1 + Log2(n / 2)
  }

  function FrontFor(buckets: nat, grow_on_next_insert: bool): nat {
    DIST_FROM_IDEAL_BUCKET_LIMIT + Log2(buckets) + if grow_on_next_insert then 1 else 0
  }

  const MAX_DIST: nat := 2 * DIST_FROM_IDEAL_BUCKET_LIMIT + 64

  lemma {:induction false} Log2Grows(n: nat, m: nat)
    requires n <= m
    ensures Log2(n) <= Log2(m)
  {
    if n > 1 { Log2Grows(n / 2, m / 2); }
  }

  lemma {:induction false} Log2Below(n: nat, k: nat)
    requires n < Power(k)
    ensures k > 0 ==> Log2(n) < k
  {
    if n > 1 && k > 0 { Log2Below(n / 2, k - 1); }
  }

  lemma FrontMoves<K(!new), V>(hash: K -> nat, b: seq<Bucket<K, V>>, front: nat, front': nat)
    requires Near(hash, b, front) && front <= front'
    ensures Near(hash, b, front')
  {
    forall i | 0 <= i < |b|
      ensures BehindOwn(b, i, front')
    {
      assert BehindOwn(b, i, front);
    }
  }

  // Doubling, or more, makes up for the exchange that asked for it.
  lemma FrontOfLarger(buckets: nat, flag: bool, larger: nat)
    requires 0 < buckets && 2 * buckets <= larger
    ensures FrontFor(buckets, flag) <= FrontFor(larger, false)
  {
    Log2Grows(2 * buckets, larger);
  }

  // static_cast<std::int16_t>
  function DistanceType(x: int): (r: int)
    ensures -0x8000 <= r < 0x8000 && (x - r) % 0x1_0000 == 0
  {
    (x + 0x8000) % 0x1_0000 - 0x8000
  }

  ghost predicate DistsFit<K(!new), V>(b: seq<Bucket<K, V>>) {
    forall i :: 0 <= i < |b| ==> Dist(b[i]) <= MAX_DIST
  }

  lemma FrontIsLow(buckets: nat, flag: bool)
    requires buckets <= MAX_BUCKET_COUNT
    ensures FrontFor(buckets, flag) + DIST_FROM_IDEAL_BUCKET_LIMIT <= MAX_DIST
  {
    PowerOf63();
    Log2Below(buckets, 64);
  }

  lemma NearDistsFit<K(!new), V>(hash: K -> nat, b: seq<Bucket<K, V>>, front: nat)
    requires Robin(hash, b) && Near(hash, b, front) && front + DIST_FROM_IDEAL_BUCKET_LIMIT <= MAX_DIST
    ensures DistsFit(b)
  {
    forall i: nat | i < |b|
      ensures Dist(b[i]) <= MAX_DIST
    {
      Reach(hash, b, front, i);
    }
  }

  lemma ShiftedDistsFit<K(!new), V>(b: seq<Bucket<K, V>>, i: nat, j: nat, x: Bucket<K, V>)
    requires DistsFit(b) && i < |b| && j < |b| && Dist(x) <= MAX_DIST
    ensures DistsFit(b[i := x][j := Empty])
  {
  }

  lemma EmptyIsNear<K(!new), V>(hash: K -> nat, b: seq<Bucket<K, V>>, front: nat)
    requires |b| > 0 && Contents(b) == map[] && forall i :: 0 <= i < |b| ==> b[i].Empty?
    ensures Near(hash, b, front)
  {
  }

  // What an insertion leaves, whether the entry found its bucket empty or others gave way.
  lemma InsertedIsNear<K(!new), V>(hash: K -> nat, b: seq<Bucket<K, V>>, b': seq<Bucket<K, V>>, start: nat, stop: nat,
                                   x: Bucket<K, V>, e: nat, flag: bool)
    requires Carrying(hash, b, x, start, e) && Dist(b[start]) < x.dist <= DIST_FROM_IDEAL_BUCKET_LIMIT
    requires Near(hash, b, FrontFor(|b|, false)) && stop < |b| && b[stop].Empty?
    requires |b'| == |b| && Shifted(b, b', start, stop) && b'[start] == x && Contents(b') == Pending(b, x)
    requires flag || NoneLate(b, start, stop)
    ensures Near(hash, b', FrontFor(|b|, flag))
  {
    ShiftedFront(b, b', start, stop, FrontFor(|b|, false), FrontFor(|b|, flag));
    NewKeyFits(hash, b, x, start, e, Contents(b).Keys);
    assert Contents(b').Keys == Contents(b).Keys + {x.key};
  }

  lemma DistanceFits(d: int)
    requires -1 <= d <= MAX_DIST
    ensures DistanceType(d + 1) == d + 1 && DistanceType(d - 1) == d - 1
  {
  }
}