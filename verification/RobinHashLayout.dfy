// The circular bucket array of tsl::detail_robin_hash::robin_hash, as a value.
module RobinHashLayout {

  // dist is m_dist_from_ideal_bucket; an empty bucket shows -1.
  datatype Bucket<K, V> = Empty | Full(dist: nat, hash: nat, key: K, val: V)

  const TRUNCATED := 0x1_0000_0000  // truncated_hash_type is 32 bits wide

  function Dist<K, V>(b: Bucket<K, V>): int {
    if b.Empty? then -1 else b.dist
  }

  function Next(i: nat, n: nat): (r: nat)
    requires i < n
    ensures r < n
  {
    if i + 1 == n then 0 else i + 1
  }

  function Prev(i: nat, n: nat): (r: nat)
    requires i < n
    ensures r < n
  {
    if i == 0 then n - 1 else i - 1
  }

  // How many buckets lie from h forward to i, around the end.
  function Ahead(h: nat, i: nat, n: nat): (r: nat)
    requires h < n && i < n
    ensures r < n
  {
    if i >= h then i - h else i - h + n
  }

  function Back(i: nat, t: nat, n: nat): (r: nat)
    requires i < n && t < n
    ensures r < n
  {
    if t <= i then i - t else i - t + n
  }

  // bucket_for_hash: the mask keeps the low bits of the hash.
  function Home<K(!new)>(hash: K -> nat, n: nat, k: K): (h: nat)
    requires n > 0
    ensures h < n
  {
    hash(k) % n
  }

  ghost predicate BucketOk<K(!new), V>(hash: K -> nat, b: seq<Bucket<K, V>>, i: nat)
    requires i < |b|
  {
    b[i].Full? ==> b[i].dist == Ahead(Home(hash, |b|, b[i].key), i, |b|) && b[i].hash == hash(b[i].key) % TRUNCATED
  }

  // A bucket with distance d > 0 has a predecessor with distance at least d - 1.
  ghost predicate Linked<K(!new), V>(b: seq<Bucket<K, V>>, i: nat)
    requires i < |b|
  {
    Dist(b[Next(i, |b|)]) > 0 ==> Dist(b[i]) >= Dist(b[Next(i, |b|)]) - 1
  }

  ghost predicate Distinct<K(!new), V>(b: seq<Bucket<K, V>>) {
    forall i: nat, j: nat :: i < j < |b| ==> Differ(b, i, j)
  }

  ghost predicate Differ<K(!new), V>(b: seq<Bucket<K, V>>, i: nat, j: nat)
    requires i < |b| && j < |b|
  {
    b[i].Full? && b[j].Full? ==> b[i].key != b[j].key
  }

  // The key of bucket i is in no other bucket.
  lemma Alone<K(!new), V>(b: seq<Bucket<K, V>>, i: nat)
    requires Distinct(b) && i < |b| && b[i].Full?
    ensures forall j :: 0 <= j < |b| && b[j].Full? && b[j].key == b[i].key ==> j == i
  {
    forall j: nat | j < |b| && j != i
      ensures b[j].Full? ==> b[j].key != b[i].key
    {
      assert j < i ==> Differ(b, j, i);
      assert i < j ==> Differ(b, i, j);
    }
  }

  // The circular Robin Hood invariant.
  ghost predicate Robin<K(!new), V>(hash: K -> nat, b: seq<Bucket<K, V>>) {
    && |b| > 0
    && (forall i :: 0 <= i < |b| ==> BucketOk(hash, b, i))
    && (forall i :: 0 <= i < |b| ==> Linked(b, i))
    && Distinct(b)
  }

  ghost predicate Lacks<K(!new), V>(b: seq<Bucket<K, V>>, key: K) {
    forall i :: 0 <= i < |b| && b[i].Full? ==> b[i].key != key
  }

  // ---- the finite map of a bucket array ----

  ghost function MapOf<K(!new), V>(b: seq<Bucket<K, V>>, lim: nat): map<K, V>
    requires lim <= |b|
  {
    if lim == 0 then map[]
    else if b[lim - 1].Full? then MapOf(b, lim - 1)[b[lim - 1].key := b[lim - 1].val]
    else MapOf(b, lim - 1)
  }

  ghost function Contents<K(!new), V>(b: seq<Bucket<K, V>>): map<K, V> {
    MapOf(b, |b|)
  }

  lemma {:induction false} MapOfHolds<K(!new), V>(b: seq<Bucket<K, V>>, lim: nat)
    requires lim <= |b| && Distinct(b)
    ensures forall i :: 0 <= i < lim && b[i].Full? ==> b[i].key in MapOf(b, lim) && MapOf(b, lim)[b[i].key] == b[i].val
    ensures forall k :: k in MapOf(b, lim) ==> exists i :: 0 <= i < lim && b[i].Full? && b[i].key == k
  {
    if lim > 0 {
      MapOfHolds(b, lim - 1);
      if b[lim - 1].Full? { Alone(b, lim - 1); }
      forall k | k in MapOf(b, lim)
        ensures exists i :: 0 <= i < lim && b[i].Full? && b[i].key == k
      {
        if k in MapOf(b, lim - 1) {
          var i :| 0 <= i < lim - 1 && b[i].Full? && b[i].key == k;
        } else {
          assert b[lim - 1].Full? && b[lim - 1].key == k;
        }
      }
    }
  }

  // Contents is the one map with exactly the bindings of the full buckets.
  lemma ContentsIs<K(!new), V>(b: seq<Bucket<K, V>>, m: map<K, V>)
    requires Distinct(b)
    requires forall i :: 0 <= i < |b| && b[i].Full? ==> b[i].key in m && m[b[i].key] == b[i].val
    requires forall k :: k in m ==> exists i :: 0 <= i < |b| && b[i].Full? && b[i].key == k
    ensures m == Contents(b)
  {
    MapOfHolds(b, |b|);
    var c := Contents(b);
    forall k
      ensures k in m <==> k in c
      ensures k in m ==> m[k] == c[k]
    {
      if k in m {
        var i :| 0 <= i < |b| && b[i].Full? && b[i].key == k;
      }
    }
  }

  lemma StoredBucket<K(!new), V>(b: seq<Bucket<K, V>>, i: nat)
    requires Distinct(b) && i < |b| && b[i].Full?
    ensures b[i].key in Contents(b) && Contents(b)[b[i].key] == b[i].val
  {
    MapOfHolds(b, |b|);
  }

  lemma LacksAbsent<K(!new), V>(b: seq<Bucket<K, V>>, key: K)
    requires Distinct(b)
    ensures Lacks(b, key) <==> key !in Contents(b)
  {
    MapOfHolds(b, |b|);
  }

  lemma WriteKeepsDistinct<K(!new), V>(b: seq<Bucket<K, V>>, i: nat, x: Bucket<K, V>)
    requires Distinct(b) && i < |b| && (x.Full? ==> Lacks(b, x.key))
    ensures Distinct(b[i := x])
  {
    var b' := b[i := x];
    forall j: nat, l: nat | j < l < |b'|
      ensures Differ(b', j, l)
    {
      assert Differ(b, j, l);
    }
  }

  // Writing a key the array lacks into bucket i drops the old binding of the bucket, if any.
  lemma WriteBucket<K(!new), V>(b: seq<Bucket<K, V>>, i: nat, x: Bucket<K, V>)
    requires Distinct(b) && i < |b| && x.Full? && Lacks(b, x.key)
    ensures Distinct(b[i := x])
    ensures Contents(b[i := x]) == (if b[i].Full? then Contents(b) - {b[i].key} else Contents(b))[x.key := x.val]
  {
    var b' := b[i := x];
    var m := (if b[i].Full? then Contents(b) - {b[i].key} else Contents(b))[x.key := x.val];
    MapOfHolds(b, |b|);
    forall k | k in m
      ensures exists j :: 0 <= j < |b'| && b'[j].Full? && b'[j].key == k
    {
      if k == x.key {
        assert b'[i].key == k;
      } else {
        var j :| 0 <= j < |b| && b[j].Full? && b[j].key == k;
        assert b'[j] == b[j];
      }
    }
    WriteKeepsDistinct(b, i, x);
    if b[i].Full? { Alone(b, i); }
    ContentsIs(b', m);
  }

  lemma ClearBucket<K(!new), V>(b: seq<Bucket<K, V>>, i: nat)
    requires Distinct(b) && i < |b| && b[i].Full?
    ensures Distinct(b[i := Empty])
    ensures Contents(b[i := Empty]) == Contents(b) - {b[i].key}
  {
    var b' := b[i := Empty];
    var m := Contents(b) - {b[i].key};
    MapOfHolds(b, |b|);
    forall k | k in m
      ensures exists j :: 0 <= j < |b'| && b'[j].Full? && b'[j].key == k
    {
      var j :| 0 <= j < |b| && b[j].Full? && b[j].key == k;
      assert b'[j] == b[j];
    }
    WriteKeepsDistinct(b, i, Empty);
    Alone(b, i);
    ContentsIs(b', m);
  }

  // As long as fewer bindings than buckets are stored, some bucket is empty.
  lemma {:induction false} FullCount<K(!new), V>(b: seq<Bucket<K, V>>, lim: nat)
    requires lim <= |b| && Distinct(b)
    requires forall i :: 0 <= i < lim ==> b[i].Full?
    ensures |MapOf(b, lim)| == lim
  {
    if lim > 0 {
      FullCount(b, lim - 1);
      MapOfHolds(b, lim - 1);
      Alone(b, lim - 1);
      assert b[lim - 1].key !in MapOf(b, lim - 1);
    }
  }

  lemma SomeEmpty<K(!new), V>(b: seq<Bucket<K, V>>) returns (e: nat)
    requires Distinct(b) && |Contents(b)| < |b|
    ensures e < |b| && b[e].Empty?
  {
    if forall i :: 0 <= i < |b| ==> b[i].Full? { FullCount(b, |b|); }
    e :| 0 <= e < |b| && !b[e].Full?;
  }

  lemma EmptyArray<K(!new), V>(hash: K -> nat, b: seq<Bucket<K, V>>)
    requires |b| > 0 && forall i :: 0 <= i < |b| ==> b[i].Empty?
    ensures Robin(hash, b) && Contents(b) == map[]
  {
    MapOfHolds(b, |b|);
    assert forall k :: k in Contents(b) ==> false;
  }

  lemma {:induction false} MapOfGrows<K(!new), V>(b: seq<Bucket<K, V>>, i: nat, j: nat)
    requires i <= j <= |b|
    ensures |MapOf(b, i)| <= |MapOf(b, j)|
  {
    if i < j {
      MapOfGrows(b, i, j - 1);
      var m := MapOf(b, j - 1);
      if b[j - 1].Full? && b[j - 1].key !in m {
        assert |m[b[j - 1].key := b[j - 1].val]| == |m| + 1;
      } else if b[j - 1].Full? {
        assert m[b[j - 1].key := b[j - 1].val].Keys == m.Keys;
        assert |m.Keys| == |m|;
        assert |m[b[j - 1].key := b[j - 1].val].Keys| == |m[b[j - 1].key := b[j - 1].val]|;
      }
    }
  }

  lemma {:induction false} MapOfKeysGrow<K(!new), V>(b: seq<Bucket<K, V>>, i: nat, j: nat)
    requires i <= j <= |b|
    ensures MapOf(b, i).Keys <= MapOf(b, j).Keys
  {
    if i < j { MapOfKeysGrow(b, i, j - 1); }
  }

  lemma {:induction false} NextKeyIsNew<K(!new), V>(b: seq<Bucket<K, V>>, i: nat)
    requires Distinct(b) && i < |b| && b[i].Full?
    ensures b[i].key !in MapOf(b, i) && |MapOf(b, i)| < |Contents(b)|
  {
    MapOfHolds(b, i);
    Alone(b, i);
    var m := MapOf(b, i);
    assert |m[b[i].key := b[i].val]| == |m| + 1;
    MapOfGrows(b, i + 1, |b|);
  }

  // ---- chains ----

  lemma {:induction false} Chain<K(!new), V>(b: seq<Bucket<K, V>>, i: nat, t: nat)
    requires i < |b| && t < |b| && t <= Dist(b[i])
    requires forall j :: 0 <= j < |b| ==> Linked(b, j)
    ensures Dist(b[Back(i, t, |b|)]) >= Dist(b[i]) - t
    decreases t
  {
    if t > 0 {
      Chain(b, i, t - 1);
      assert Linked(b, Back(i, t, |b|));
      assert Next(Back(i, t, |b|), |b|) == Back(i, t - 1, |b|);
    }
  }

  // With an empty bucket around, nothing sits as far from home as once around.
  lemma NotOnceAround<K(!new), V>(hash: K -> nat, b: seq<Bucket<K, V>>, i: nat, e: nat)
    requires Robin(hash, b) && i < |b| && e < |b| && b[e].Empty?
    ensures Dist(b[i]) + 1 < |b|
  {
    assert BucketOk(hash, b, i);
    if b[i].Full? && b[i].dist + 1 == |b| {
      Chain(b, i, Ahead(e, i, |b|));
    }
  }

  // ---- a probe for key, d buckets ahead of its home ----

  ghost predicate Probing<K(!new), V>(hash: K -> nat, b: seq<Bucket<K, V>>, key: K, i: nat, d: nat) {
    && Robin(hash, b)
    && i < |b| && d <= |b|
    && (if d < |b| then d == Ahead(Home(hash, |b|, key), i, |b|) else i == Home(hash, |b|, key))
    && (forall j :: 0 <= j < |b| && b[j].Full? && Ahead(Home(hash, |b|, key), j, |b|) < d ==> b[j].key != key)
    && (d > 0 ==> Dist(b[Prev(i, |b|)]) >= d - 1)
  }

  lemma ProbeAdvances<K(!new), V>(hash: K -> nat, b: seq<Bucket<K, V>>, key: K, i: nat, d: nat)
    requires Probing(hash, b, key, i, d) && d <= Dist(b[i]) && b[i].key != key
    ensures d < |b| && Probing(hash, b, key, Next(i, |b|), d + 1)
  {
    assert BucketOk(hash, b, i);
    var h := Home(hash, |b|, key);
    forall j | 0 <= j < |b| && b[j].Full? && Ahead(h, j, |b|) < d + 1
      ensures b[j].key != key
    {
      if Ahead(h, j, |b|) == d { assert j == i; }
    }
  }

  // The early exit of find_impl loses nothing.
  lemma ProbeStops<K(!new), V>(hash: K -> nat, b: seq<Bucket<K, V>>, key: K, i: nat, d: nat)
    requires Probing(hash, b, key, i, d) && d > Dist(b[i])
    ensures Lacks(b, key)
  {
    var h := Home(hash, |b|, key);
    forall j | 0 <= j < |b| && b[j].Full?
      ensures b[j].key != key
    {
      assert BucketOk(hash, b, j);
      if b[j].key == key && Ahead(h, j, |b|) >= d {
        Chain(b, j, b[j].dist - d);
      }
    }
  }

  // ---- displacement insertion: entry x is carried and stands at bucket i ----

  ghost predicate Carrying<K(!new), V>(hash: K -> nat, b: seq<Bucket<K, V>>, x: Bucket<K, V>, i: nat, e: nat) {
    && Robin(hash, b) && x.Full? && i < |b| && e < |b| && b[e].Empty?
    && x.hash == hash(x.key) % TRUNCATED
    && x.dist == Ahead(Home(hash, |b|, x.key), i, |b|)
    && (x.dist > 0 ==> Dist(b[Prev(i, |b|)]) >= x.dist - 1)
    && Lacks(b, x.key)
  }

  // The table's map once the carried entry has found its bucket.
  ghost function Pending<K(!new), V>(b: seq<Bucket<K, V>>, x: Bucket<K, V>): map<K, V>
    requires x.Full?
  {
    Contents(b)[x.key := x.val]
  }

  // Where a probe for an absent key stops, its entry can be carried from.
  lemma ProbeThenCarry<K(!new), V>(hash: K -> nat, b: seq<Bucket<K, V>>, key: K, v: V, i: nat, d: nat, e: nat)
    requires Probing(hash, b, key, i, d) && Lacks(b, key) && e < |b| && b[e].Empty?
    ensures Carrying(hash, b, Full(d, hash(key) % TRUNCATED, key, v), i, e)
  {
    NotOnceAround(hash, b, Prev(i, |b|), e);
  }

  // A richer or equal bucket is passed by.
  lemma CarryOn<K(!new), V>(hash: K -> nat, b: seq<Bucket<K, V>>, x: Bucket<K, V>, i: nat, e: nat)
    requires Carrying(hash, b, x, i, e) && x.dist <= Dist(b[i])
    ensures Carrying(hash, b, x.(dist := x.dist + 1), Next(i, |b|), e)
    ensures Ahead(Next(i, |b|), e, |b|) < Ahead(i, e, |b|)
  {
    NotOnceAround(hash, b, i, e);
  }

  lemma WriteKeepsRobin<K(!new), V>(hash: K -> nat, b: seq<Bucket<K, V>>, x: Bucket<K, V>, i: nat, e: nat)
    requires Carrying(hash, b, x, i, e) && x.dist > Dist(b[i])
    ensures Robin(hash, b[i := x])
  {
    var b' := b[i := x];
    WriteBucket(b, i, x);
    forall j | 0 <= j < |b'|
      ensures BucketOk(hash, b', j)
    {
      assert BucketOk(hash, b, j);
    }
    forall j | 0 <= j < |b'|
      ensures Linked(b', j)
    {
      assert Linked(b, j);
    }
  }

  // A poorer bucket is taken over and its entry carried on.
  lemma CarryOther<K(!new), V>(hash: K -> nat, b: seq<Bucket<K, V>>, x: Bucket<K, V>, i: nat, e: nat)
    requires Carrying(hash, b, x, i, e) && b[i].Full? && x.dist > b[i].dist
    ensures Carrying(hash, b[i := x], b[i].(dist := b[i].dist + 1), Next(i, |b|), e)
    ensures Pending(b[i := x], b[i]) == Pending(b, x)
    ensures Ahead(Next(i, |b|), e, |b|) < Ahead(i, e, |b|)
  {
    var b', y := b[i := x], b[i];
    WriteKeepsRobin(hash, b, x, i, e);
    WriteBucket(b, i, x);
    StoredBucket(b, i);
    assert BucketOk(hash, b, i);
    NotOnceAround(hash, b, i, e);
    Alone(b, i);
    assert Lacks(b', y.key);
  }

  lemma CarryPlace<K(!new), V>(hash: K -> nat, b: seq<Bucket<K, V>>, x: Bucket<K, V>, i: nat, e: nat)
    requires Carrying(hash, b, x, i, e) && b[i].Empty?
    ensures Robin(hash, b[i := x]) && Contents(b[i := x]) == Pending(b, x)
  {
    WriteKeepsRobin(hash, b, x, i, e);
    WriteBucket(b, i, x);
  }

  // ---- backward shift: bucket p has been emptied and its successors move down ----

  ghost predicate Shifting<K(!new), V>(hash: K -> nat, b: seq<Bucket<K, V>>, p: nat) {
    && |b| > 1 && p < |b| && b[p].Empty?
    && (forall i :: 0 <= i < |b| ==> BucketOk(hash, b, i))
    && (forall i :: 0 <= i < |b| && i != p ==> Linked(b, i))
    && (Dist(b[Next(p, |b|)]) > 1 ==> Dist(b[Prev(p, |b|)]) >= Dist(b[Next(p, |b|)]) - 2)
    && Distinct(b)
  }

  lemma StartShift<K(!new), V>(hash: K -> nat, b: seq<Bucket<K, V>>, p: nat)
    requires Robin(hash, b) && |b| > 1 && p < |b| && b[p].Full?
    ensures Shifting(hash, b[p := Empty], p)
    ensures Contents(b[p := Empty]) == Contents(b) - {b[p].key}
  {
    var b' := b[p := Empty];
    ClearBucket(b, p);
    forall j | 0 <= j < |b|
      ensures BucketOk(hash, b', j)
      ensures j != p ==> Linked(b', j)
    {
      assert BucketOk(hash, b, j) && Linked(b, j);
    }
    assert Linked(b, p) && Linked(b, Prev(p, |b|));
  }

  lemma ShiftOne<K(!new), V>(hash: K -> nat, b: seq<Bucket<K, V>>, p: nat)
    requires Shifting(hash, b, p) && Dist(b[Next(p, |b|)]) > 0
    ensures
      var i := Next(p, |b|);
      var b' := b[p := b[i].(dist := b[i].dist - 1)][i := Empty];
      Shifting(hash, b', i) && Contents(b') == Contents(b)
  {
    var i := Next(p, |b|);
    var x := b[i].(dist := b[i].dist - 1);
    var b1 := b[i := Empty];
    var b' := b1[p := x];
    assert b' == b[p := x][i := Empty];
    ClearBucket(b, i);
    Alone(b, i);
    WriteBucket(b1, p, x);
    StoredBucket(b, i);
    forall j | 0 <= j < |b|
      ensures BucketOk(hash, b', j)
      ensures j != i ==> Linked(b', j)
    {
      assert BucketOk(hash, b, j) && (j != p ==> Linked(b, j));
      assert BucketOk(hash, b, i);
    }
    assert Linked(b, i);
  }

  lemma EndShift<K(!new), V>(hash: K -> nat, b: seq<Bucket<K, V>>, p: nat)
    requires Shifting(hash, b, p) && Dist(b[Next(p, |b|)]) <= 0
    ensures Robin(hash, b)
  {
    assert Linked(b, p);
  }
}
