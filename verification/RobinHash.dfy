// tsl::detail_robin_hash::robin_hash with the power-of-two growth policy and the default load
// factors: the hash index of the voxel map. Contents() is the finite map it stands for.
module RobinHash {
  import opened Basics
  import opened RobinHashLayout
  import opened RobinHashReach
  import opened PowersOfTwo
  import opened GrowthPolicy
  import opened Words

  const GROWTH_FACTOR := 2

  class RobinHash<K(==, !new), V> {
    const hash: K -> nat
    var m_buckets: array<Bucket<K, V>>  // one static empty bucket while m_bucket_count is 0
    var m_bucket_count: nat
    var m_mask: nat
    var m_nb_elements: nat
    var m_load_threshold: nat
    var m_grow_on_next_insert: bool
    var m_try_shrink_on_next_insert: bool

    ghost function Contents(): map<K, V>
      reads this, m_buckets
    {
      RobinHashLayout.Contents(m_buckets[..])
    }

    // How the scalar fields fit a table of size elements.
    ghost predicate Counts(size: nat)
      reads this
    {
      && m_buckets.Length == m_mask + 1
      && (if m_bucket_count == 0 then m_mask == 0 else m_bucket_count == m_mask + 1)
      && m_bucket_count <= MAX_BUCKET_COUNT && IsPow2(m_mask + 1)
      && m_load_threshold == m_bucket_count / 2  // float(bucket_count) * 0.5f is exact
      && m_nb_elements == size <= m_load_threshold
    }

    ghost predicate Valid()
      reads this, m_buckets
    {
      && Robin(hash, m_buckets[..]) && Counts(|Contents()|)
      && Near(hash, m_buckets[..], FrontFor(m_buckets.Length, m_grow_on_next_insert))
    }

    // No distance is too long for its 16 bits: none exceeds twice 8192 and 64.
    lemma ValidDistsFit()
      requires Valid()
      ensures DistsFit(m_buckets[..]) && forall i | 0 <= i < m_buckets.Length :: Dist(m_buckets[i]) <= 16448
    {
      FrontIsLow(m_buckets.Length, m_grow_on_next_insert);
      NearDistsFit(hash, m_buckets[..], FrontFor(m_buckets.Length, m_grow_on_next_insert));
    }

    // At most half the buckets are taken.
    lemma AtMostHalfFull()
      requires Valid()
      ensures 2 * |Contents()| <= m_bucket_count
    {
    }

    // Bucket i holds key.
    ghost predicate Hit(key: K, i: nat)
      reads this, m_buckets
    {
      i < m_buckets.Length && m_buckets[i].Full? && m_buckets[i].key == key
    }

    // The growth policy rounds the bucket count up; max_load_factor sets the threshold.
    constructor (h: K -> nat, bucket_count: nat)
      requires bucket_count <= MAX_BUCKET_COUNT
      ensures Valid() && Contents() == map[] && fresh(m_buckets)
      ensures hash == h && !m_grow_on_next_insert && !m_try_shrink_on_next_insert
      ensures bucket_count == 0 ==> m_bucket_count == 0
      ensures bucket_count > 0 ==>
        IsPow2(m_bucket_count) && bucket_count <= m_bucket_count
        && forall p: nat :: IsPow2(p) && bucket_count <= p ==> m_bucket_count <= p
    {
      hash := h;
      var n := round_up_to_power_of_two(bucket_count);
      var buckets: array<Bucket<K, V>> := new Bucket<K, V>[n](_ => Empty);
      m_buckets := buckets;
      m_bucket_count := if bucket_count > 0 then n else 0;
      m_mask := n - 1;
      m_nb_elements := 0;
      m_load_threshold := (if bucket_count > 0 then n else 0) / 2;
      m_grow_on_next_insert := false;
      m_try_shrink_on_next_insert := false;
      new;
      EmptyArray(hash, m_buckets[..]);
      EmptyIsNear(hash, m_buckets[..], FrontFor(n, false));
    }

    method bucket_for_hash(h: nat) returns (ibucket: nat)
      requires m_buckets.Length == m_mask + 1 && IsPow2(m_mask + 1)
      ensures ibucket == h % m_buckets.Length
    {
      MaskIsRemainder(h, m_mask + 1);
      ibucket := And(h, m_mask);
    }

    function next_bucket(index: nat): (r: nat)
      requires index < m_buckets.Length == m_bucket_count
      reads this
      ensures r == Next(index, m_buckets.Length)
    {
      if index + 1 != m_bucket_count then index + 1 else 0
    }

    // dist_from_ideal_bucket++, or one less, in 16 bits.
    static method step(dist: int, change: int) returns (d: int)
      requires -1 <= dist <= MAX_DIST && (change == 1 || change == -1)
      ensures d == dist + change
    {
      DistanceFits(dist);
      d := DistanceType(dist + change);
    }

    // ---- lookup ----

    ghost predicate At(key: K, ibucket: nat, dist: nat)
      reads this, m_buckets
    {
      m_buckets.Length == m_mask + 1 && Probing(hash, m_buckets[..], key, ibucket, dist)
    }

    // The probe loop that find_impl and insert_impl share.
    method probe(key: K) returns (found: bool, ibucket: nat, dist: nat)
      requires Valid()
      ensures found <==> key in Contents()
      ensures found ==> Hit(key, ibucket)
      ensures !found ==> At(key, ibucket, dist) && dist > Dist(m_buckets[ibucket])
    {
      ValidDistsFit();
      ibucket := bucket_for_hash(hash(key));
      dist := 0;
      while dist <= Dist(m_buckets[ibucket])
        invariant At(key, ibucket, dist)
        decreases m_buckets.Length - dist
      {
        StoredBucket(m_buckets[..], ibucket);
        if m_buckets[ibucket].key == key {
          return true, ibucket, dist;
        }
        assert m_buckets[ibucket].key in Contents() && m_bucket_count > 0;
        ProbeAdvances(hash, m_buckets[..], key, ibucket, dist);
        ibucket := next_bucket(ibucket);
        dist := step(dist, 1);
      }
      ProbeStops(hash, m_buckets[..], key, ibucket, dist);
      LacksAbsent(m_buckets[..], key);
      found := false;
    }

    // The index of key's bucket, or m_bucket_count, the position of end().
    method find(key: K) returns (ibucket: nat)
      requires Valid()
      ensures key in Contents() ==>
                Hit(key, ibucket) && m_buckets[ibucket].val == Contents()[key] && ibucket < m_bucket_count
      ensures key !in Contents() ==> ibucket == m_bucket_count
    {
      var found, i, _ := probe(key);
      if found {
        StoredBucket(m_buckets[..], i);
        assert m_bucket_count != 0;
        ibucket := i;
      } else {
        ibucket := m_bucket_count;
      }
    }

    // ---- erasure ----

    method erase_from_bucket(pos: nat)
      requires Valid() && pos < m_buckets.Length && m_buckets[pos].Full?
      modifies m_buckets, `m_nb_elements, `m_try_shrink_on_next_insert
      ensures Valid()
      ensures Contents() == old(Contents()) - {old(m_buckets[pos]).key}
      ensures m_try_shrink_on_next_insert
    {
      ghost var key := m_buckets[pos].key;
      StoredBucket(m_buckets[..], pos);
      ValidDistsFit();
      shiftBack(pos, FrontFor(m_buckets.Length, m_grow_on_next_insert));
      ghost var b := m_buckets[..];
      m_nb_elements := m_nb_elements - 1;
      m_try_shrink_on_next_insert := true;
      assert m_buckets[..] == b;
    }

    // clear() of the bucket, then the backward shift.
    method shiftBack(pos: nat, ghost front: nat)
      requires Robin(hash, m_buckets[..]) && m_buckets.Length == m_mask + 1 == m_bucket_count >= 2
      requires |Contents()| < m_buckets.Length && pos < m_buckets.Length && m_buckets[pos].Full?
      requires Near(hash, m_buckets[..], front) && DistsFit(m_buckets[..])
      modifies m_buckets
      ensures Robin(hash, m_buckets[..]) && Near(hash, m_buckets[..], front)
      ensures Contents() == old(Contents()) - {old(m_buckets[pos]).key}
    {
      ghost var b0 := m_buckets[..];
      ghost var e := SomeEmpty(b0);
      StartShift(hash, b0, pos);
      StartFront(b0, pos, front);
      ShiftedDistsFit(b0, pos, pos, Empty);
      m_buckets[pos] := Empty;
      assert m_buckets[..] == b0[pos := Empty];
      var previous_ibucket := pos;
      var ibucket: nat := next_bucket(previous_ibucket);
      while Dist(m_buckets[ibucket]) > 0
        invariant previous_ibucket < m_buckets.Length && ibucket == Next(previous_ibucket, m_buckets.Length)
        invariant Shifting(hash, m_buckets[..], previous_ibucket)
        invariant FrontAround(m_buckets[..], previous_ibucket, front) && DistsFit(m_buckets[..])
        invariant m_buckets[e].Empty? && e != previous_ibucket
        invariant Contents() == RobinHashLayout.Contents(b0) - {b0[pos].key}
        decreases Ahead(ibucket, e, m_buckets.Length)
      {
        moveBack(previous_ibucket, ibucket, front);
        previous_ibucket := ibucket;
        ibucket := next_bucket(ibucket);
      }
      EndShift(hash, m_buckets[..], previous_ibucket);
      EndFront(m_buckets[..], previous_ibucket, front);
      FewerKeysFit(hash, m_buckets.Length, RobinHashLayout.Contents(b0).Keys, Contents().Keys);
    }

    // One turn of that loop.
    method moveBack(previous_ibucket: nat, ibucket: nat, ghost front: nat)
      requires m_buckets.Length > 1 && previous_ibucket < m_buckets.Length
      requires ibucket == Next(previous_ibucket, m_buckets.Length)
      requires Shifting(hash, m_buckets[..], previous_ibucket) && FrontAround(m_buckets[..], previous_ibucket, front)
      requires DistsFit(m_buckets[..]) && Dist(m_buckets[..][ibucket]) > 0
      modifies m_buckets
      ensures Shifting(hash, m_buckets[..], ibucket) && FrontAround(m_buckets[..], ibucket, front)
      ensures DistsFit(m_buckets[..]) && Contents() == old(Contents())
      ensures forall i :: 0 <= i < m_buckets.Length && i != previous_ibucket && i != ibucket ==>
                            m_buckets[i] == old(m_buckets[i])
      ensures m_buckets[ibucket].Empty?
    {
      ghost var b := m_buckets[..];
      var x := m_buckets[ibucket];
      var d := step(x.dist, -1);
      x := x.(dist := d);
      ShiftOne(hash, b, previous_ibucket);
      StepFront(b, previous_ibucket, front, b[previous_ibucket := x][ibucket := Empty]);
      ShiftedDistsFit(b, previous_ibucket, ibucket, x);
      m_buckets[previous_ibucket] := x;
      m_buckets[ibucket] := Empty;
      assert m_buckets[..] == b[previous_ibucket := x][ibucket := Empty];
    }

    method erase(key: K) returns (erased: bool)
      requires Valid()
      modifies m_buckets, `m_nb_elements, `m_try_shrink_on_next_insert
      ensures Valid()
      ensures erased <==> key in old(Contents())
      ensures Contents() == old(Contents()) - {key}
    {
      var it := find(key);
      erased := it != m_bucket_count;
      if erased { erase_from_bucket(it); }
    }

    // ---- displacement insertion ----

    method swap_with_value_in_bucket(i: nat, x: Bucket<K, V>) returns (y: Bucket<K, V>)
      requires i < m_buckets.Length
      modifies m_buckets
      ensures y == old(m_buckets[..])[i] && m_buckets[..] == old(m_buckets[..])[i := x]
    {
      y := m_buckets[i];
      m_buckets[i] := x;
    }

    // insert_value_impl has come from bucket start, where it left x0, to bucket ibucket, and carries x.
    ghost predicate Walking(b0: seq<Bucket<K, V>>, m: map<K, V>, start: nat, x0: Bucket<K, V>, ibucket: nat,
                            x: Bucket<K, V>, e: nat)
      reads this, m_buckets
    {
      && m_buckets.Length == m_bucket_count == |b0| && start < |b0| && ibucket < |b0| && e < |b0|
      && Carrying(hash, m_buckets[..], x, ibucket, e) && Pending(m_buckets[..], x) == m
      && Ahead(ibucket, e, |b0|) < Ahead(start, e, |b0|)
      && Walked(b0, m_buckets[..], start, x0, ibucket, x) && x.dist <= MAX_DIST + 1
      && (m_grow_on_next_insert <==> !NoneLate(b0, start, ibucket))
    }

    // x is carried to bucket start, which is not empty and closer to home.
    method insert_value_impl(start: nat, x0: Bucket<K, V>, ghost e: nat) returns (ghost last: nat)
      requires Carrying(hash, m_buckets[..], x0, start, e) && m_buckets.Length == m_bucket_count
      requires m_buckets[start].Full? && m_buckets[start].dist < x0.dist <= DIST_FROM_IDEAL_BUCKET_LIMIT
      requires !m_grow_on_next_insert && DistsFit(m_buckets[..])
      requires Near(hash, m_buckets[..], FrontFor(m_buckets.Length, false))
      modifies m_buckets, `m_grow_on_next_insert
      ensures Robin(hash, m_buckets[..]) && m_buckets[start] == x0
      ensures Near(hash, m_buckets[..], FrontFor(m_buckets.Length, m_grow_on_next_insert))
      ensures Contents() == old(Pending(m_buckets[..], x0))
      ensures last < m_buckets.Length && (m_grow_on_next_insert <==> !NoneLate(old(m_buckets[..]), start, last))
      ensures m_grow_on_next_insert ==> SomeFar(m_buckets[..])
    {
      ghost var b0, m := m_buckets[..], Pending(m_buckets[..], x0);
      var x := startWalk(start, x0, e);
      last := walk(b0, m, start, x0, x, e);
      if m_grow_on_next_insert { LateLeavesFar(b0, m_buckets[..], start, last); }
      InsertedIsNear(hash, b0, m_buckets[..], start, last, x0, e, m_grow_on_next_insert);
    }

    // insert_value_impl's loop, and the bucket that ends it.
    method walk(ghost b0: seq<Bucket<K, V>>, ghost m: map<K, V>, start: nat, ghost x0: Bucket<K, V>, x1: Bucket<K, V>,
                ghost e: nat)
      returns (ghost last: nat)
      requires start < m_buckets.Length && Walking(b0, m, start, x0, Next(start, m_buckets.Length), x1, e)
      requires DistsFit(b0) && forall j :: 0 <= j < |b0| ==> Linked(b0, j)
      modifies m_buckets, `m_grow_on_next_insert
      ensures m_buckets.Length == |b0| && Robin(hash, m_buckets[..]) && Contents() == m
      ensures last < |b0| && Shifted(b0, m_buckets[..], start, last) && m_buckets[start] == x0 && b0[last].Empty?
      ensures m_grow_on_next_insert <==> !NoneLate(b0, start, last)
    {
      var x := x1;
      var ibucket: nat := next_bucket(start);
      while !m_buckets[ibucket].Empty?
        invariant Walking(b0, m, start, x0, ibucket, x, e)
        decreases Ahead(ibucket, e, |b0|)
      {
        x := walkOn(b0, m, start, x0, ibucket, x, e);
        ibucket := next_bucket(ibucket);
      }
      endWalk(b0, m, start, x0, ibucket, x, e);
      last := ibucket;
    }

    // The exchange before insert_value_impl's loop.
    method startWalk(start: nat, x0: Bucket<K, V>, ghost e: nat) returns (x: Bucket<K, V>)
      requires Carrying(hash, m_buckets[..], x0, start, e) && m_buckets.Length == m_bucket_count
      requires m_buckets[start].Full? && m_buckets[start].dist < x0.dist && DistsFit(m_buckets[..])
      requires !m_grow_on_next_insert
      modifies m_buckets
      ensures Walking(old(m_buckets[..]), old(Pending(m_buckets[..], x0)),
                      start, x0, Next(start, m_buckets.Length), x, e)
    {
      ghost var b0 := m_buckets[..];
      CarryOther(hash, b0, x0, start, e);
      WalkStarts(b0, start, x0);
      x := swap_with_value_in_bucket(start, x0);
      var d := step(x.dist, 1);
      x := x.(dist := d);
    }

    // One turn of its loop.
    method walkOn(ghost b0: seq<Bucket<K, V>>, ghost m: map<K, V>, ghost start: nat, ghost x0: Bucket<K, V>,
                  ibucket: nat, x: Bucket<K, V>, ghost e: nat)
      returns (x': Bucket<K, V>)
      requires Walking(b0, m, start, x0, ibucket, x, e) && !m_buckets[ibucket].Empty?
      requires DistsFit(b0) && forall j :: 0 <= j < |b0| ==> Linked(b0, j)
      modifies m_buckets, `m_grow_on_next_insert
      ensures Walking(b0, m, start, x0, Next(ibucket, |b0|), x', e)
      ensures Ahead(Next(ibucket, |b0|), e, |b0|) < Ahead(ibucket, e, |b0|)
    {
      x' := x;
      assert m_buckets[..][ibucket] == b0[ibucket];
      if x.dist > m_buckets[ibucket].dist {
        x' := exchange(b0, m, start, x0, ibucket, x, e);
      } else {
        PassOn(b0, m, start, x0, ibucket, x, e);
      }
      var d := step(x'.dist, 1);
      x' := x'.(dist := d);
    }

    lemma PassOn(b0: seq<Bucket<K, V>>, m: map<K, V>, start: nat, x0: Bucket<K, V>, ibucket: nat, x: Bucket<K, V>,
                 e: nat)
      requires Walking(b0, m, start, x0, ibucket, x, e) && x.dist <= Dist(m_buckets[ibucket]) <= MAX_DIST
      requires forall j :: 0 <= j < |b0| ==> Linked(b0, j)
      ensures Walking(b0, m, start, x0, Next(ibucket, |b0|), x.(dist := x.dist + 1), e)
      ensures Ahead(Next(ibucket, |b0|), e, |b0|) < Ahead(ibucket, e, |b0|)
    {
      CarryOn(hash, m_buckets[..], x, ibucket, e);
      WalkPasses(b0, m_buckets[..], start, x0, ibucket, x);
    }

    // The entry of the bucket gives way, and is carried on from there.
    method exchange(ghost b0: seq<Bucket<K, V>>, ghost m: map<K, V>, ghost start: nat, ghost x0: Bucket<K, V>,
                    ibucket: nat, x: Bucket<K, V>, ghost e: nat)
      returns (y: Bucket<K, V>)
      requires Walking(b0, m, start, x0, ibucket, x, e) && m_buckets[ibucket].Full?
      requires m_buckets[ibucket].dist < x.dist && m_buckets[ibucket].dist <= MAX_DIST
      modifies m_buckets, `m_grow_on_next_insert
      ensures y.Full? && y.dist <= MAX_DIST && Walking(b0, m, start, x0, Next(ibucket, |b0|), y.(dist := y.dist + 1), e)
      ensures Ahead(Next(ibucket, |b0|), e, |b0|) < Ahead(ibucket, e, |b0|)
    {
      ghost var b := m_buckets[..];
      CarryOther(hash, b, x, ibucket, e);
      WalkSwaps(b0, b, start, x0, ibucket, x);
      if x.dist > DIST_FROM_IDEAL_BUCKET_LIMIT {
        m_grow_on_next_insert := true;
        assert m_buckets[..] == b;
      }
      y := swap_with_value_in_bucket(ibucket, x);
    }

    method endWalk(ghost b0: seq<Bucket<K, V>>, ghost m: map<K, V>, ghost start: nat, ghost x0: Bucket<K, V>,
                   ibucket: nat, x: Bucket<K, V>, ghost e: nat)
      requires Walking(b0, m, start, x0, ibucket, x, e) && m_buckets[ibucket].Empty?
      modifies m_buckets
      ensures m_buckets.Length == |b0| && Robin(hash, m_buckets[..]) && Contents() == m
      ensures Shifted(b0, m_buckets[..], start, ibucket) && m_buckets[start] == x0 && b0[ibucket].Empty?
    {
      ghost var b := m_buckets[..];
      CarryPlace(hash, b, x, ibucket, e);
      WalkEnds(b0, b, start, x0, ibucket, x);
      assert b[ibucket] == b0[ibucket];
      var _ := swap_with_value_in_bucket(ibucket, x);
    }

    // The entries come from another table, which has no more buckets.
    ghost predicate From(old_b: seq<Bucket<K, V>>, flag: bool, q: nat)
      reads this, m_buckets
    {
      && Robin(hash, old_b) && |old_b| <= MAX_BUCKET_COUNT && Near(hash, old_b, FrontFor(|old_b|, flag))
      && q > 0 && m_buckets.Length == q * |old_b|
    }

    lemma FromDistsFit(old_b: seq<Bucket<K, V>>, flag: bool, q: nat, e: nat)
      requires From(old_b, flag, q) && Robin(hash, m_buckets[..])
      requires Contents().Keys <= RobinHashLayout.Contents(old_b).Keys
      requires e < m_buckets.Length && m_buckets[e].Empty?
      ensures Near(hash, m_buckets[..], FrontFor(|old_b|, flag)) && DistsFit(m_buckets[..])
    {
      GrownIsNear(hash, old_b, m_buckets[..], q, FrontFor(|old_b|, flag), e);
      FrontIsLow(|old_b|, flag);
      NearDistsFit(hash, m_buckets[..], FrontFor(|old_b|, flag));
    }

    // The same walk without the growth flag, from the ideal bucket on.
    method insert_value_on_rehash(start: nat, x0: Bucket<K, V>, ghost e: nat, ghost old_b: seq<Bucket<K, V>>,
                                  ghost flag: bool, ghost q: nat)
      requires Carrying(hash, m_buckets[..], x0, start, e) && m_buckets.Length == m_bucket_count && x0.dist == 0
      requires From(old_b, flag, q) && Pending(m_buckets[..], x0).Keys <= RobinHashLayout.Contents(old_b).Keys
      modifies m_buckets
      ensures Robin(hash, m_buckets[..])
      ensures Contents() == old(Pending(m_buckets[..], x0))
    {
      ghost var n, m := m_buckets.Length, Pending(m_buckets[..], x0);
      var ibucket, x := start, x0;
      while true
        invariant m_buckets.Length == n == m_bucket_count && From(old_b, flag, q)
        invariant Carrying(hash, m_buckets[..], x, ibucket, e) && Pending(m_buckets[..], x) == m
        invariant x.dist <= MAX_DIST + 1
        decreases Ahead(ibucket, e, n)
      {
        if x.dist > Dist(m_buckets[ibucket]) && m_buckets[ibucket].Empty? {
          CarryPlace(hash, m_buckets[..], x, ibucket, e);
          var _ := swap_with_value_in_bucket(ibucket, x);
          return;
        }
        x := carryFrom(ibucket, x, e, old_b, flag, q);
        ibucket := next_bucket(ibucket);
      }
    }

    // One turn of that loop at a full bucket.
    method carryFrom(ibucket: nat, x: Bucket<K, V>, ghost e: nat, ghost old_b: seq<Bucket<K, V>>, ghost flag: bool,
                     ghost q: nat)
      returns (x': Bucket<K, V>)
      requires Carrying(hash, m_buckets[..], x, ibucket, e) && From(old_b, flag, q)
      requires !(x.dist > Dist(m_buckets[ibucket]) && m_buckets[ibucket].Empty?)
      requires Pending(m_buckets[..], x).Keys <= RobinHashLayout.Contents(old_b).Keys && x.dist <= MAX_DIST + 1
      modifies m_buckets
      ensures Carrying(hash, m_buckets[..], x', Next(ibucket, m_buckets.Length), e) && x'.dist <= MAX_DIST + 1
      ensures Pending(m_buckets[..], x') == old(Pending(m_buckets[..], x))
      ensures Ahead(Next(ibucket, m_buckets.Length), e, m_buckets.Length) < Ahead(ibucket, e, m_buckets.Length)
    {
      FromDistsFit(old_b, flag, q, e);
      x' := x;
      if x.dist > Dist(m_buckets[ibucket]) {
        CarryOther(hash, m_buckets[..], x, ibucket, e);
        x' := swap_with_value_in_bucket(ibucket, x);
      } else {
        CarryOn(hash, m_buckets[..], x, ibucket, e);
      }
      var d := step(x'.dist, 1);
      x' := x'.(dist := d);
    }

    // ---- rehash ----

    static predicate USE_STORED_HASH_ON_REHASH(bucket_count: nat) {
      bucket_count == 0 || bucket_count - 1 <= 0xffff_ffff
    }

    // The stored 32 bits give the bucket of every hash.
    static ghost predicate StoredGivesAll(n: nat)
      requires n > 0
    {
      forall h: nat :: SameBucket(h, n)
    }

    static predicate SameBucket(h: nat, n: nat)
      requires n > 0
    {
      (h % 0x1_0000_0000) % n == h % n
    }

    // They are used exactly if they do, which is so up to 2^32 buckets.
    static lemma {:induction false} StoredHashWillDo(n: nat)
      requires IsPow2(n)
      ensures USE_STORED_HASH_ON_REHASH(n) <==> StoredGivesAll(n)
      ensures StoredGivesAll(n) <==> n <= 0x1_0000_0000
    {
      if n <= 0x1_0000_0000 { StoredIsEnough(n); } else { StoredIsTooLittle(0x1_0000_0000, n); }
    }

    static lemma {:induction false} StoredIsEnough(n: nat)
      requires IsPow2(n) && n <= 0x1_0000_0000
      ensures StoredGivesAll(n)
    {
      TwoTo32();
      forall h: nat
        ensures SameBucket(h, n)
      {
        TruncatedBucket(h, n, 0x1_0000_0000);
      }
    }

    static lemma StoredIsTooLittle(h: nat, n: nat)
      requires h == 0x1_0000_0000 < n
      ensures !StoredGivesAll(n)
    {
      assert h % 0x1_0000_0000 == 0;
      DivModUnique(h, 0, h, n);
      DivModUnique(0, 0, 0, n);
      assert !SameBucket(h, n);
    }

    // The hash used to place an old entry, stored or recomputed, gives its home either way.
    method homeOnRehash(x: Bucket<K, V>, use_stored_hash: bool) returns (ibucket: nat, truncated: nat)
      requires m_buckets.Length == m_mask + 1 && IsPow2(m_mask + 1)
      requires x.Full? && x.hash == hash(x.key) % TRUNCATED
      requires use_stored_hash ==> m_mask + 1 <= TRUNCATED
      ensures ibucket == Home(hash, m_buckets.Length, x.key) && truncated == x.hash
    {
      var h := if use_stored_hash then x.hash else hash(x.key);
      if use_stored_hash {
        TwoTo32();
        TruncatedBucket(hash(x.key), m_mask + 1, TRUNCATED);
      }
      ibucket := bucket_for_hash(h);
      truncated := h % TRUNCATED;
    }

    // One old entry moves into this new table.
    method adopt(x: Bucket<K, V>, use_stored_hash: bool, ghost old_b: seq<Bucket<K, V>>, ghost flag: bool, ghost q: nat)
      requires Robin(hash, m_buckets[..]) && m_buckets.Length == m_mask + 1 == m_bucket_count && IsPow2(m_mask + 1)
      requires |Contents()| < m_buckets.Length
      requires x.Full? && x.hash == hash(x.key) % TRUNCATED && x.key !in Contents()
      requires use_stored_hash ==> m_mask + 1 <= TRUNCATED
      requires From(old_b, flag, q) && Contents().Keys + {x.key} <= RobinHashLayout.Contents(old_b).Keys
      modifies m_buckets
      ensures Robin(hash, m_buckets[..])
      ensures Contents() == old(Contents())[x.key := x.val]
    {
      var ibucket, truncated := homeOnRehash(x, use_stored_hash);
      ghost var e := SomeEmpty(m_buckets[..]);
      LacksAbsent(m_buckets[..], x.key);
      insert_value_on_rehash(ibucket, Full(0, truncated, x.key, x.val), e, old_b, flag, q);
    }

    // The loop of rehash_impl, seen from the new table.
    method adoptAll(old_buckets: array<Bucket<K, V>>, ghost flag: bool, ghost q: nat)
      requires From(old_buckets[..], flag, q) && old_buckets != m_buckets
      requires Robin(hash, m_buckets[..]) && Contents() == map[]
      requires m_buckets.Length == m_mask + 1 == m_bucket_count && IsPow2(m_mask + 1)
      requires |RobinHashLayout.Contents(old_buckets[..])| <= m_buckets.Length
      modifies m_buckets
      ensures Robin(hash, m_buckets[..])
      ensures Contents() == old(RobinHashLayout.Contents(old_buckets[..]))
    {
      ghost var b, n := old_buckets[..], m_buckets.Length;
      var use_stored_hash := USE_STORED_HASH_ON_REHASH(m_mask + 1);
      for i := 0 to old_buckets.Length
        invariant old_buckets[..] == b && m_buckets.Length == n
        invariant Robin(hash, m_buckets[..]) && Contents() == MapOf(b, i)
      {
        adoptNext(old_buckets[i], use_stored_hash, b, i, flag, q);
      }
    }

    // One turn of that loop.
    method adoptNext(x: Bucket<K, V>, use_stored_hash: bool, ghost b: seq<Bucket<K, V>>, ghost i: nat, ghost flag: bool,
                     ghost q: nat)
      requires From(b, flag, q) && i < |b| && x == b[i]
      requires Robin(hash, m_buckets[..]) && Contents() == MapOf(b, i)
      requires m_buckets.Length == m_mask + 1 == m_bucket_count && IsPow2(m_mask + 1)
      requires |RobinHashLayout.Contents(b)| <= m_buckets.Length && (use_stored_hash ==> m_mask + 1 <= TRUNCATED)
      modifies m_buckets
      ensures Robin(hash, m_buckets[..]) && Contents() == MapOf(b, i + 1)
    {
      if x.Full? {
        NextKeyIsNew(b, i);
        assert BucketOk(hash, b, i);
        MapOfKeysGrow(b, i + 1, |b|);
        adopt(x, use_stored_hash, b, flag, q);
      }
    }

    method adoptTable(old_buckets: array<Bucket<K, V>>, ghost flag: bool)
      requires Robin(hash, old_buckets[..]) && old_buckets != m_buckets && IsPow2(old_buckets.Length)
      requires Near(hash, old_buckets[..], FrontFor(old_buckets.Length, flag))
      requires Robin(hash, m_buckets[..]) && Contents() == map[]
      requires m_buckets.Length == m_mask + 1 == m_bucket_count && IsPow2(m_mask + 1)
      requires 2 * old_buckets.Length <= m_buckets.Length <= MAX_BUCKET_COUNT
      requires |RobinHashLayout.Contents(old_buckets[..])| <= m_buckets.Length / 2
      modifies m_buckets
      ensures Robin(hash, m_buckets[..]) && Near(hash, m_buckets[..], FrontFor(m_buckets.Length, false))
      ensures Contents() == old(RobinHashLayout.Contents(old_buckets[..]))
    {
      ghost var b := old_buckets[..];
      ghost var q := Divides(old_buckets.Length, m_buckets.Length);
      adoptAll(old_buckets, flag, q);
      ghost var e := SomeEmpty(m_buckets[..]);
      FromDistsFit(b, flag, q, e);
      FrontOfLarger(|b|, flag, m_buckets.Length);
      FrontMoves(hash, m_buckets[..], FrontFor(|b|, flag), FrontFor(m_buckets.Length, false));
    }

    method rehash_impl(count: nat)
      requires Valid() && 2 * (m_mask + 1) <= count <= MAX_BUCKET_COUNT && IsPow2(count)
      requires m_nb_elements <= count / 2
      modifies this
      ensures Valid() && Contents() == old(Contents()) && fresh(m_buckets)
      ensures m_bucket_count == count
      ensures m_grow_on_next_insert == m_try_shrink_on_next_insert == false
    {
      var new_table := new RobinHash(hash, count);
      new_table.adoptTable(m_buckets, m_grow_on_next_insert);
      swap(new_table);
    }

    // new_table.swap(*this), but for what the new table gets.
    method swap(new_table: RobinHash<K, V>)
      modifies this
      ensures m_buckets == new_table.m_buckets && m_mask == new_table.m_mask
      ensures m_bucket_count == new_table.m_bucket_count
      ensures m_load_threshold == new_table.m_load_threshold && m_nb_elements == old(m_nb_elements)
      ensures m_grow_on_next_insert == m_try_shrink_on_next_insert == false
      ensures m_buckets[..] == old(new_table.m_buckets[..])
    {
      m_buckets, m_mask, m_bucket_count := new_table.m_buckets, new_table.m_mask, new_table.m_bucket_count;
      m_load_threshold := new_table.m_load_threshold;
      m_grow_on_next_insert, m_try_shrink_on_next_insert := false, false;
    }

    // ---- insertion ----

    lemma HalfIs()
      requires Valid()
      ensures m_nb_elements >= m_load_threshold <==> 2 * m_nb_elements + 1 >= m_bucket_count
    {
      if m_mask > 0 {
        var q := Divides(2, m_mask + 1);
      }
    }

    // The flag, a long probe, or a table half full.
    ghost predicate CallsForRehash(curr_dist: nat)
      reads this
    {
      m_grow_on_next_insert || curr_dist > 8192 || 2 * m_nb_elements + 1 >= m_bucket_count
    }

    // thrown stands for the length error of next_bucket_count.
    method rehash_on_extreme_load(curr_dist: nat) returns (rehashed: bool, thrown: bool)
      requires Valid()
      modifies this
      ensures Valid() && Contents() == old(Contents())
      ensures m_buckets == old(m_buckets) || fresh(m_buckets)
      ensures rehashed || thrown <==> old(CallsForRehash(curr_dist))
      ensures thrown ==> m_mask + 1 > 0x4000_0000_0000_0000 && m_mask == old(m_mask)
      ensures !rehashed ==> m_buckets == old(m_buckets) && m_buckets[..] == old(m_buckets[..]) && m_mask == old(m_mask)
      ensures !rehashed ==> m_bucket_count == old(m_bucket_count)
      ensures !rehashed && !thrown ==>
        m_nb_elements < m_load_threshold && !m_grow_on_next_insert && curr_dist <= DIST_FROM_IDEAL_BUCKET_LIMIT
      ensures rehashed ==> !thrown && m_mask + 1 == 2 * (old(m_mask) + 1) <= 0x8000_0000_0000_0000
      ensures rehashed ==> m_nb_elements < m_load_threshold && !m_grow_on_next_insert
    {
      HalfIs();
      if m_grow_on_next_insert || curr_dist > DIST_FROM_IDEAL_BUCKET_LIMIT || m_nb_elements >= m_load_threshold {
        if m_mask + 1 > MAX_BUCKET_COUNT / GROWTH_FACTOR {
          return false, true;
        }
        Doubles(m_mask + 1);
        rehash_impl(GROWTH_FACTOR * (m_mask + 1));
        return true, false;
      }
      ghost var b := m_buckets[..];
      m_try_shrink_on_next_insert := false;  // the minimum load factor is 0: never shrink
      assert m_buckets[..] == b;
      return false, false;
    }

    // The second probe loop of insert_impl, for a key known to be absent.
    method reprobe(key: K) returns (ibucket: nat, dist: nat)
      requires Valid() && key !in Contents()
      ensures At(key, ibucket, dist) && dist > Dist(m_buckets[ibucket])
    {
      LacksAbsent(m_buckets[..], key);
      ValidDistsFit();
      ibucket := bucket_for_hash(hash(key));
      dist := 0;
      while dist <= Dist(m_buckets[ibucket])
        invariant At(key, ibucket, dist)
        decreases m_buckets.Length - dist
      {
        ProbeAdvances(hash, m_buckets[..], key, ibucket, dist);
        ibucket := next_bucket(ibucket);
        dist := step(dist, 1);
      }
    }

    // Writes a new entry at the bucket where its probe stopped.
    method place(key: K, v: V, ibucket: nat, dist: nat)
      requires Valid() && key !in Contents() && m_nb_elements < m_load_threshold
      requires At(key, ibucket, dist) && Dist(m_buckets[ibucket]) < dist <= DIST_FROM_IDEAL_BUCKET_LIMIT
      requires !m_grow_on_next_insert
      modifies m_buckets, `m_grow_on_next_insert, `m_nb_elements
      ensures Valid() && Contents() == old(Contents())[key := v] && Hit(key, ibucket)
      ensures m_grow_on_next_insert ==> SomeFar(m_buckets[..])
    {
      ghost var m := Contents();
      var x := writeEntry(key, v, ibucket, dist);
      ghost var b, far := m_buckets[..], SomeFar(m_buckets[..]);
      m_nb_elements := m_nb_elements + 1;
      assert m_buckets[..] == b && b[ibucket] == x;
      assert SomeFar(m_buckets[..]) == far;
      assert |m[key := v]| == |m| + 1;
    }

    // The bucket is taken at once if it is empty, and by exchanges otherwise.
    method writeEntry(key: K, v: V, ibucket: nat, dist: nat) returns (x: Bucket<K, V>)
      requires Valid() && key !in Contents() && m_nb_elements < m_load_threshold
      requires At(key, ibucket, dist) && Dist(m_buckets[ibucket]) < dist <= DIST_FROM_IDEAL_BUCKET_LIMIT
      requires !m_grow_on_next_insert
      modifies m_buckets, `m_grow_on_next_insert
      ensures Robin(hash, m_buckets[..]) && Near(hash, m_buckets[..], FrontFor(m_buckets.Length, m_grow_on_next_insert))
      ensures Contents() == old(Contents())[key := v] && x.Full? && x.key == key && m_buckets[ibucket] == x
      ensures m_grow_on_next_insert ==> SomeFar(m_buckets[..])
    {
      ghost var b := m_buckets[..];
      ghost var e := SomeEmpty(b);
      LacksAbsent(b, key);
      ProbeThenCarry(hash, b, key, v, ibucket, dist, e);
      x := Full(dist, hash(key) % TRUNCATED, key, v);
      if m_buckets[ibucket].Empty? {
        CarryPlace(hash, b, x, ibucket, e);
        var _ := swap_with_value_in_bucket(ibucket, x);
        InsertedIsNear(hash, b, m_buckets[..], ibucket, ibucket, x, e, false);
      } else {
        ValidDistsFit();
        ghost var last := insert_value_impl(ibucket, x, e);
      }
    }

    // insert_impl's rehash loop. limit_hit records whether some probe went beyond
    // DIST_FROM_IDEAL_BUCKET_LIMIT.
    method rehash_until_fit(key: K, at: nat, d: nat)
      returns (ibucket: nat, dist: nat, thrown: bool, ghost rehashes: nat, ghost limit_hit: bool)
      requires Valid() && key !in Contents() && At(key, at, d) && d > Dist(m_buckets[at])
      modifies this
      ensures Valid() && Contents() == old(Contents()) && (m_buckets == old(m_buckets) || fresh(m_buckets))
      ensures thrown ==> m_mask + 1 > MAX_BUCKET_COUNT / GROWTH_FACTOR
      ensures !thrown ==> m_nb_elements < m_load_threshold && At(key, ibucket, dist) && dist > Dist(m_buckets[ibucket])
      ensures !thrown ==> dist <= DIST_FROM_IDEAL_BUCKET_LIMIT && !m_grow_on_next_insert
      ensures d > DIST_FROM_IDEAL_BUCKET_LIMIT ==> limit_hit
      ensures !limit_hit ==> rehashes <= 1
      ensures rehashes > 0 || thrown <==> old(CallsForRehash(d))
      ensures rehashes == 1 ==> m_mask + 1 == 2 * (old(m_mask) + 1)
      ensures rehashes == 0 ==> m_bucket_count == old(m_bucket_count)
    {
      ibucket, dist, rehashes, limit_hit := at, d, 0, d > DIST_FROM_IDEAL_BUCKET_LIMIT;
      var rehashed;
      rehashed, thrown := rehash_on_extreme_load(dist);
      if rehashed {
        ghost var far;
        ibucket, dist, thrown, rehashes, far := rehashFurther(key);
        limit_hit := limit_hit || far;
      }
    }

    // The loop once it has been entered: the table has been rehashed once.
    method rehashFurther(key: K)
      returns (ibucket: nat, dist: nat, thrown: bool, ghost rehashes: nat, ghost limit_hit: bool)
      requires Valid() && key !in Contents() && m_nb_elements < m_load_threshold && !m_grow_on_next_insert
      modifies this
      ensures Valid() && Contents() == old(Contents()) && (m_buckets == old(m_buckets) || fresh(m_buckets))
      ensures Turn(key, ibucket, dist, false, thrown)
      ensures rehashes > 0 && (!limit_hit ==> rehashes == 1)
      ensures rehashes == 1 ==> m_mask == old(m_mask)
    {
      var rehashed := true;
      rehashes, limit_hit, ibucket, dist, thrown := 1, false, 0, 0, false;
      while rehashed
        invariant Valid() && Contents() == old(Contents()) && (m_buckets == old(m_buckets) || fresh(m_buckets))
        invariant Turn(key, ibucket, dist, rehashed, thrown)
        invariant rehashes > 0 && (!limit_hit ==> rehashes == 1)
        invariant rehashes == 1 ==> m_mask == old(m_mask)
        decreases MAX_BUCKET_COUNT - m_mask, rehashed
      {
        ibucket, dist, rehashed, thrown := tryAgain(key);
        if rehashed { rehashes, limit_hit := rehashes + 1, true; }
      }
    }

    // One turn of that loop: after a rehash only a long probe calls for another.
    method tryAgain(key: K) returns (ibucket: nat, dist: nat, rehashed: bool, thrown: bool)
      requires Valid() && key !in Contents() && m_nb_elements < m_load_threshold && !m_grow_on_next_insert
      modifies this
      ensures Valid() && Contents() == old(Contents()) && (m_buckets == old(m_buckets) || fresh(m_buckets))
      ensures Turn(key, ibucket, dist, rehashed, thrown)
      ensures rehashed || thrown ==> dist > DIST_FROM_IDEAL_BUCKET_LIMIT
      ensures m_mask + 1 == if rehashed then 2 * (old(m_mask) + 1) else old(m_mask) + 1
      ensures !rehashed ==> m_bucket_count == old(m_bucket_count)
    {
      ibucket, dist := reprobe(key);
      HalfIs();
      rehashed, thrown := rehash_on_extreme_load(dist);
    }

    // After a call of rehash_on_extreme_load.
    ghost predicate Turn(key: K, ibucket: nat, dist: nat, rehashed: bool, thrown: bool)
      reads this, m_buckets
    {
      && (thrown ==> !rehashed && m_mask + 1 > MAX_BUCKET_COUNT / GROWTH_FACTOR)
      && (!thrown ==> m_nb_elements < m_load_threshold && !m_grow_on_next_insert)
      && (!rehashed && !thrown ==>
            At(key, ibucket, dist) && Dist(m_buckets[ibucket]) < dist <= DIST_FROM_IDEAL_BUCKET_LIMIT)
    }

    // The probe for an absent key stops at distance d.
    ghost predicate StopsAfter(key: K, d: nat)
      reads this, m_buckets
    {
      exists i: nat :: At(key, i, d) && Dist(m_buckets[i]) < d
    }

    // thrown stands for the length error of a table that cannot grow any more.
    method insert_impl(key: K, v: V)
      returns (ibucket: nat, inserted: bool, thrown: bool, ghost rehashes: nat, ghost limit_hit: bool, ghost first: nat)
      requires Valid()
      modifies this, m_buckets
      ensures Valid() && (m_buckets == old(m_buckets) || fresh(m_buckets))
      ensures inserted <==> key !in old(Contents()) && !thrown
      ensures Contents() == if inserted then old(Contents())[key := v] else old(Contents())
      ensures !thrown ==> Hit(key, ibucket)
      ensures thrown ==> key !in old(Contents()) && m_mask + 1 > MAX_BUCKET_COUNT / GROWTH_FACTOR
      ensures !limit_hit ==> rehashes <= 1
      ensures rehashes == 0 ==> m_bucket_count == old(m_bucket_count)
      ensures rehashes == 1 ==> m_mask + 1 == 2 * (old(m_mask) + 1)
      ensures key in old(Contents()) ==> rehashes == 0 && m_grow_on_next_insert == old(m_grow_on_next_insert)
      ensures key !in old(Contents()) ==>
                old(StopsAfter(key, first)) && (rehashes > 0 || thrown <==> old(CallsForRehash(first)))
      ensures inserted && m_grow_on_next_insert ==> SomeFar(m_buckets[..])
    {
      var found, dist;
      found, ibucket, dist := probe(key);
      first := dist;
      if found {
        return ibucket, false, false, 0, false, first;
      }
      assert At(key, ibucket, dist) && Dist(m_buckets[ibucket]) < dist;
      ibucket, dist, thrown, rehashes, limit_hit := rehash_until_fit(key, ibucket, dist);
      inserted := !thrown;
      if inserted { place(key, v, ibucket, dist); }
    }

    // The minimum load factor is 0, so the array is kept.
    method clear()
      requires Valid()
      modifies m_buckets, `m_nb_elements, `m_grow_on_next_insert
      ensures Valid() && Contents() == map[]
      ensures !m_grow_on_next_insert
    {
      forall i | 0 <= i < m_buckets.Length {
        m_buckets[i] := Empty;
      }
      m_nb_elements := 0;
      m_grow_on_next_insert := false;
      EmptyArray(hash, m_buckets[..]);
      EmptyIsNear(hash, m_buckets[..], FrontFor(m_buckets.Length, false));
    }
  }

  // A table of at least so many buckets; null stands for the length error.
  method Create<K(==, !new), V>(hash: K -> nat, bucket_count: nat) returns (table: RobinHash?<K, V>)
    ensures table == null <==> bucket_count > MAX_BUCKET_COUNT
    ensures table != null ==> fresh(table) && fresh(table.m_buckets) && table.Valid() && table.Contents() == map[]
    ensures table != null && bucket_count > 0 ==>
              && IsPow2(table.m_bucket_count) && bucket_count <= table.m_bucket_count
              && forall p: nat :: IsPow2(p) && bucket_count <= p ==> table.m_bucket_count <= p
    ensures table != null && bucket_count == 0 ==> table.m_bucket_count == 0
  {
    table := null;
    if bucket_count <= MAX_BUCKET_COUNT {
      table := new RobinHash(hash, bucket_count);
    }
  }
}
