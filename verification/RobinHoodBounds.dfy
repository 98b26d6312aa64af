// How many keys a table can take before a probe distance no longer fits its info byte: 126 whatever
// their hashes, and 127 if all their hashes are the same.
module RobinHoodBounds {
  import opened RobinHoodLayout
  import opened RobinHoodSteps
  import opened Words
  import opened Basics
  import opened PowersOfTwo

  const SIZE_MAX := 0xffff_ffff_ffff_ffff

  // keyToIdx's extra mixing of the user's hash.
  function MulXorShift(h: bv64, multiplier: bv64): bv64 {
    var m := h * multiplier;
    m ^ (m >> 33)
  }

  // MaxLoadFactor100 is 80.
  function CalcMaxNumElementsAllowed(maxElements: nat): nat {
    if maxElements <= SIZE_MAX / 100 then maxElements * 80 / 100 else (maxElements / 100) * 80
  }

  // Four fifths of the slots, rounded down; above 2^64 / 100, four fifths of the whole hundreds.
  lemma AllowsFourFifths(n: nat)
    ensures var a := CalcMaxNumElementsAllowed(n);
            if n <= 0x028f_5c28_f5c2_8f5c then 5 * a <= 4 * n < 5 * a + 5 else 5 * a <= 4 * n < 5 * a + 400
  {
    assert SIZE_MAX / 100 == 0x028f_5c28_f5c2_8f5c;
  }

  function CalcNumElementsWithBuffer(numElements: nat): nat {
    var allowed := CalcMaxNumElementsAllowed(numElements);
    numElements + if allowed < 0xff then allowed else 0xff
  }

  // The tail behind the home slots: one slot for every element allowed, but at most 255.
  lemma TailIs(n: nat)
    ensures var tail, a := CalcNumElementsWithBuffer(n) - n, CalcMaxNumElementsAllowed(n);
            tail <= a && tail <= 255 && (tail == a || tail == 255)
    ensures CalcMaxNumElementsAllowed(8) == 6 && CalcNumElementsWithBuffer(8) == 14
  {
  }

  lemma {:induction false} Doubled(n: nat, m: nat)
    requires n >= 8 && IsPow2(n) && m == n * 2
    ensures m > n && IsPow2(m)
    ensures 0 < CalcMaxNumElementsAllowed(n) < CalcMaxNumElementsAllowed(m)
  {
  }

  // ---- too many keys too near ----

  // The home slot under a multiplier, with n home slots.
  function HomeOf<K(!new)>(mix: (K, bv64) -> nat, mult: bv64, n: nat, k: K): nat
    requires n > 0
  {
    (mix(k, mult) / 32) % n
  }

  // The home slots a up to h have 126 keys more than they are.
  ghost predicate DenseAt<K(!new)>(mix: (K, bv64) -> nat, mult: bv64, n: nat, keys: set<K>, ks: set<K>, a: nat, h: nat)
  {
    && n > 0 && a <= h && ks <= keys && |ks| >= h - a + 127
    && forall k | k in ks :: a <= HomeOf(mix, mult, n, k) <= h
  }

  ghost predicate Dense<K(!new)>(mix: (K, bv64) -> nat, mult: bv64, n: nat, keys: set<K>) {
    exists ks, a: nat, h: nat :: DenseAt(mix, mult, n, keys, ks, a, h)
  }

  // The slots from lo to i are taken, and the one before them is not.
  ghost predicate RunFrom<K(!new), V>(info: seq<int>, kv: seq<Slot<K, V>>, lo: nat, i: nat) {
    && lo <= i < |kv| <= |info| && (lo > 0 ==> info[lo - 1] == 0) && forall j | lo <= j <= i :: info[j] != 0
  }

  lemma {:induction false} RunStart<K(!new), V>(info: seq<int>, kv: seq<Slot<K, V>>, i: nat) returns (lo: nat)
    requires i < |kv| <= |info| && info[i] != 0
    ensures RunFrom(info, kv, lo, i)
  {
    if i == 0 || info[i - 1] == 0 {
      lo := i;
    } else {
      lo := RunStart(info, kv, i - 1);
    }
  }

  // Along a run the homes never go back.
  lemma HomesStep<K(!new), V>(p: Params<K>, info: seq<int>, kv: seq<Slot<K, V>>, j: nat)
    requires Coherent(p, info, kv) && p.inc == 2 && j + 1 < |kv| && info[j] != 0 && info[j + 1] != 0
    ensures kv[j].Node? && kv[j + 1].Node? && Home(p, kv[j].key) <= Home(p, kv[j + 1].key)
  {
    StoredByte(p, info, kv, j);
    StoredByte(p, info, kv, j + 1);
    assert Steady(p.inc, info, j + 1);
  }

  lemma {:induction false} HomesAscend<K(!new), V>(p: Params<K>, info: seq<int>, kv: seq<Slot<K, V>>, lo: nat, j: nat,
                                                   i: nat)
    requires Coherent(p, info, kv) && p.inc == 2 && RunFrom(info, kv, lo, i) && lo <= j <= i
    ensures kv[j].Node? && kv[i].Node? && lo <= Home(p, kv[j].key) <= Home(p, kv[i].key)
    decreases i - j
  {
    StoredByte(p, info, kv, j);
    if Home(p, kv[j].key) < lo { Chain(p, info, kv, j, lo - 1); }
    if j < i {
      HomesStep(p, info, kv, j);
      HomesAscend(p, info, kv, lo, j + 1, i);
    }
  }

  // A byte without room under the smallest increment ends a run of keys that are too near.
  lemma NoRoomIsDense<K(!new), V>(p: Params<K>, info: seq<int>, kv: seq<Slot<K, V>>, i: nat)
    requires Coherent(p, info, kv) && p.inc == 2 && i < |kv| && info[i] + p.inc > 255
    ensures Dense(p.mix, p.mult, p.n, Contents(info, kv).Keys)
  {
    StoredByte(p, info, kv, i);
    var h := Home(p, kv[i].key);
    var lo := RunStart(info, kv, i);
    var ks := RunOfKeys(p, info, kv, lo, i + 1);
    forall k | k in ks
      ensures lo <= HomeOf(p.mix, p.mult, p.n, k) <= h
    {
      var j: nat :| lo <= j < i + 1 && kv[j].Node? && kv[j].key == k;
      HomesAscend(p, info, kv, lo, j, i);
    }
    HomesAscend(p, info, kv, lo, i, i);
    assert DenseAt(p.mix, p.mult, p.n, Contents(info, kv).Keys, ks, lo, h);
  }

  lemma SlotOf<K(!new), V>(p: Params<K>, info: seq<int>, kv: seq<Slot<K, V>>, k: K) returns (i: nat)
    requires Coherent(p, info, kv) && k in Contents(info, kv)
    ensures i < |kv| && info[i] != 0 && kv[i].Node? && kv[i].key == k && Home(p, k) <= i < Home(p, k) + 127
  {
    MapOfRepresents(info, kv, |kv|);
    i :| 0 <= i < |kv| && info[i] != 0 && kv[i] == Node(k, Contents(info, kv)[k]);
    StoredByte(p, info, kv, i);
  }

  // Of keys that are too near, one is 126 slots behind the last of their homes.
  lemma FarthestOfDense<K(!new), V>(p: Params<K>, info: seq<int>, kv: seq<Slot<K, V>>, ks: set<K>, a: nat, h: nat)
    returns (i: nat)
    requires Coherent(p, info, kv) && DenseAt(p.mix, p.mult, p.n, Contents(info, kv).Keys, ks, a, h)
    ensures i < |kv| && info[i] != 0 && kv[i].Node? && Home(p, kv[i].key) <= h && i >= h + 126
  {
    if !exists i: nat :: i < |kv| && info[i] != 0 && kv[i].Node? && kv[i].key in ks && i >= h + 126 {
      var hi := if h + 126 <= |kv| then h + 126 else |kv|;
      forall k | k in ks
        ensures exists i: nat :: a <= i < hi && info[i] != 0 && kv[i].Node? && kv[i].key == k
      {
        var i := SlotOf(p, info, kv, k);
      }
      FewInSlots(info, kv, a, hi, h - a + 127, ks);
    }
    i :| i < |kv| && info[i] != 0 && kv[i].Node? && kv[i].key in ks && i >= h + 126;
  }

  lemma FewInSlots<K(!new), V>(info: seq<int>, kv: seq<Slot<K, V>>, lo: nat, hi: nat, count: nat, ks: set<K>)
    requires hi <= |kv| <= |info| && hi < lo + count && count > 0
    requires forall k | k in ks :: exists i: nat :: lo <= i < hi && info[i] != 0 && kv[i].Node? && kv[i].key == k
    ensures |ks| < count
  {
    if lo <= hi {
      KeysInRange(info, kv, lo, hi, ks);
    } else {
      assert ks == {};
    }
  }

  lemma DenseHasNoRoom<K(!new), V>(p: Params<K>, info: seq<int>, kv: seq<Slot<K, V>>)
    requires Coherent(p, info, kv) && Dense(p.mix, p.mult, p.n, Contents(info, kv).Keys)
    ensures p.inc == 2 && !Room(p.inc, info, |kv|)
  {
    var ks, a: nat, h: nat :| DenseAt(p.mix, p.mult, p.n, Contents(info, kv).Keys, ks, a, h);
    var i := FarthestOfDense(p, info, kv, ks, a, h);
    StoredByte(p, info, kv, i);
    FarByte(p.inc, i - Home(p, kv[i].key), info[i]);
  }

  lemma FarByte(inc: nat, d: nat, byte: int)
    requires d >= 126 && inc * (d + 1) <= byte <= 255 && inc >= 2
    ensures inc == 2 && byte + inc > 255
  {
    assert inc * 127 <= inc * (d + 1);
  }

  // A table has run out of room for good, with no hash bit left to give up, if and only if some
  // stretch of home slots has 126 keys more than slots.
  lemma DenseIsFull<K(!new), V>(p: Params<K>, info: seq<int>, kv: seq<Slot<K, V>>)
    requires Coherent(p, info, kv)
    ensures Dense(p.mix, p.mult, p.n, Contents(info, kv).Keys) <==> p.inc == 2 && !Room(p.inc, info, |kv|)
  {
    if Dense(p.mix, p.mult, p.n, Contents(info, kv).Keys) { DenseHasNoRoom(p, info, kv); }
    if p.inc == 2 && !Room(p.inc, info, |kv|) {
      var i: nat :| i < |kv| && info[i] + p.inc > 255;
      NoRoomIsDense(p, info, kv, i);
    }
  }

  // That takes 127 keys.
  lemma DenseIsLarge<K(!new)>(mix: (K, bv64) -> nat, mult: bv64, n: nat, keys: set<K>)
    requires Dense(mix, mult, n, keys)
    ensures |keys| >= 127
  {
    var ks, a: nat, h: nat :| DenseAt(mix, mult, n, keys, ks, a, h);
    SubsetCard(ks, keys);
  }

  lemma FewKeysHaveRoom<K(!new), V>(p: Params<K>, info: seq<int>, kv: seq<Slot<K, V>>)
    requires Coherent(p, info, kv) && p.inc == 2 && |Contents(info, kv)| <= 126
    ensures Room(p.inc, info, |kv|)
  {
    DenseIsFull(p, info, kv);
    assert |Contents(info, kv)| == |Contents(info, kv).Keys|;
    if Dense(p.mix, p.mult, p.n, Contents(info, kv).Keys) { DenseIsLarge(p.mix, p.mult, p.n, Contents(info, kv).Keys); }
  }

  // ---- what the moving of the slots meets ----

  // The keys before slot i are too near, in the table they are moved to, for its own.
  ghost predicate StopsAt<K(!new), V>(mix: (K, bv64) -> nat, mult: bv64, n: nat, info: seq<int>, kv: seq<Slot<K, V>>,
                                      i: nat)
    requires |kv| <= |info|
  {
    i < |kv| && info[i] != 0 && Dense(mix, mult, n, MapOf(info, kv, i).Keys)
  }

  ghost predicate Stops<K(!new), V>(mix: (K, bv64) -> nat, mult: bv64, n: nat, info: seq<int>, kv: seq<Slot<K, V>>)
    requires |kv| <= |info|
  {
    exists i: nat :: StopsAt(mix, mult, n, info, kv, i)
  }

  ghost predicate NoneStops<K(!new), V>(mix: (K, bv64) -> nat, mult: bv64, n: nat, info: seq<int>, kv: seq<Slot<K, V>>,
                                        count: nat)
    requires count <= |kv| <= |info|
  {
    count == 0 || (NoneStops(mix, mult, n, info, kv, count - 1) && !StopsAt(mix, mult, n, info, kv, count - 1))
  }

  lemma {:induction false} StopsBefore<K(!new), V>(mix: (K, bv64) -> nat, mult: bv64, n: nat, info: seq<int>,
                                                   kv: seq<Slot<K, V>>, count: nat, i: nat)
    requires i < count <= |kv| <= |info| && NoneStops(mix, mult, n, info, kv, count)
    ensures !StopsAt(mix, mult, n, info, kv, i)
  {
    if i < count - 1 { StopsBefore(mix, mult, n, info, kv, count - 1, i); }
  }

  lemma {:induction false} NeverStops<K(!new), V>(mix: (K, bv64) -> nat, mult: bv64, n: nat, info: seq<int>,
                                                  kv: seq<Slot<K, V>>)
    requires |kv| <= |info| && NoneStops(mix, mult, n, info, kv, |kv|)
    ensures !Stops(mix, mult, n, info, kv)
  {
    if i: nat :| StopsAt(mix, mult, n, info, kv, i) { StopsBefore(mix, mult, n, info, kv, |kv|, i); }
  }

  lemma StopsIsLarge<K(!new), V>(mix: (K, bv64) -> nat, mult: bv64, n: nat, info: seq<int>, kv: seq<Slot<K, V>>)
    requires Distinct(info, kv) && Stops(mix, mult, n, info, kv)
    ensures |Contents(info, kv)| >= 128
  {
    var i: nat :| StopsAt(mix, mult, n, info, kv, i);
    DenseIsLarge(mix, mult, n, MapOf(info, kv, i).Keys);
    assert |MapOf(info, kv, i).Keys| == |MapOf(info, kv, i)|;
    NextKeyIsNew(info, kv, i);
  }

  // ---- too many keys with one hash ----

  // 127 keys of m that no multiplier tells apart.
  ghost predicate Crowd<K(!new), V>(mix: (K, bv64) -> nat, m: map<K, V>, ks: set<K>) {
    ks <= m.Keys && |ks| == 127 && forall a, b, mult | a in ks && b in ks :: mix(a, mult) == mix(b, mult)
  }

  ghost predicate Crowded<K(!new), V>(mix: (K, bv64) -> nat, m: map<K, V>) {
    exists ks :: Crowd(mix, m, ks)
  }

  // The keys before slot i are too many for its own.
  ghost predicate Stopper<K(!new), V>(mix: (K, bv64) -> nat, info: seq<int>, kv: seq<Slot<K, V>>, i: nat)
    requires |kv| <= |info|
  {
    i < |kv| && info[i] != 0 && Crowded(mix, MapOf(info, kv, i))
  }

  // The moving of the slots meets a further key when the ones moved already are too many.
  ghost predicate Doomed<K(!new), V>(mix: (K, bv64) -> nat, info: seq<int>, kv: seq<Slot<K, V>>)
    requires |kv| <= |info|
  {
    exists i: nat :: Stopper(mix, info, kv, i)
  }

  lemma CrowdIsDense<K(!new), V>(mix: (K, bv64) -> nat, mult: bv64, n: nat, m: map<K, V>)
    requires n > 0 && Crowded(mix, m)
    ensures Dense(mix, mult, n, m.Keys)
  {
    var ks :| Crowd(mix, m, ks);
    var k :| k in ks;
    var h := HomeOf(mix, mult, n, k);
    forall k' | k' in ks
      ensures HomeOf(mix, mult, n, k') == h
    {
      assert mix(k', mult) == mix(k, mult);
    }
    assert DenseAt(mix, mult, n, m.Keys, ks, h, h);
  }

  // Such a table is lost whatever the multiplier and the size it is moved to.
  lemma DoomedStops<K(!new), V>(mix: (K, bv64) -> nat, mult: bv64, n: nat, info: seq<int>, kv: seq<Slot<K, V>>)
    requires n > 0 && |kv| <= |info| && Doomed(mix, info, kv)
    ensures Stops(mix, mult, n, info, kv)
  {
    var i: nat :| Stopper(mix, info, kv, i);
    CrowdIsDense(mix, mult, n, MapOf(info, kv, i));
    assert StopsAt(mix, mult, n, info, kv, i);
  }

  lemma StopsAtNext<K(!new), V>(mix: (K, bv64) -> nat, mult: bv64, n: nat, info: seq<int>, kv: seq<Slot<K, V>>, i: nat,
                                stuck: bool)
    requires i < |kv| <= |info| && info[i] != 0 && NoneStops(mix, mult, n, info, kv, i)
    requires Distinct(info, kv) && stuck == Dense(mix, mult, n, MapOf(info, kv, i).Keys)
    ensures !stuck ==> NoneStops(mix, mult, n, info, kv, i + 1)
    ensures stuck ==> Stops(mix, mult, n, info, kv) && |Contents(info, kv)| > 127
  {
    if stuck {
      assert StopsAt(mix, mult, n, info, kv, i);
      StopsIsLarge(mix, mult, n, info, kv);
    }
  }

  lemma StopsIsDense<K(!new), V>(mix: (K, bv64) -> nat, mult: bv64, n: nat, info: seq<int>, kv: seq<Slot<K, V>>)
    requires |kv| <= |info| && Stops(mix, mult, n, info, kv)
    ensures Dense(mix, mult, n, Contents(info, kv).Keys)
  {
    var i: nat :| StopsAt(mix, mult, n, info, kv, i);
    var ks, a: nat, h: nat :| DenseAt(mix, mult, n, MapOf(info, kv, i).Keys, ks, a, h);
    MapOfKeysGrow(info, kv, i, |kv|);
    assert DenseAt(mix, mult, n, Contents(info, kv).Keys, ks, a, h);
  }

  // Different keys are in different slots.
  lemma {:induction false} KeysInRange<K(!new), V>(info: seq<int>, kv: seq<Slot<K, V>>, lo: nat, hi: nat, ks: set<K>)
    requires lo <= hi <= |kv| <= |info|
    requires forall k | k in ks :: exists i: nat :: lo <= i < hi && info[i] != 0 && kv[i].Node? && kv[i].key == k
    ensures |ks| <= hi - lo
    decreases hi
  {
    if lo == hi {
      assert ks == {};
    } else {
      var last := if kv[hi - 1].Node? then {kv[hi - 1].key} else {};
      forall k | k in ks - last
        ensures exists i: nat :: lo <= i < hi - 1 && info[i] != 0 && kv[i].Node? && kv[i].key == k
      {
        var i: nat :| lo <= i < hi && info[i] != 0 && kv[i].Node? && kv[i].key == k;
      }
      KeysInRange(info, kv, lo, hi - 1, ks - last);
      SubsetCard(ks, (ks - last) + last);
    }
  }

  lemma CrowdHasNoRoom<K(!new), V>(p: Params<K>, info: seq<int>, kv: seq<Slot<K, V>>)
    requires Coherent(p, info, kv) && Crowded(p.mix, Contents(info, kv))
    ensures p.inc == 2 && !Room(p.inc, info, |kv|)
  {
    CrowdIsDense(p.mix, p.mult, p.n, Contents(info, kv));
    DenseHasNoRoom(p, info, kv);
  }

  lemma DoomedIsCrowded<K(!new), V>(mix: (K, bv64) -> nat, info: seq<int>, kv: seq<Slot<K, V>>)
    requires Distinct(info, kv) && Doomed(mix, info, kv)
    ensures Crowded(mix, Contents(info, kv)) && |Contents(info, kv)| >= 128
  {
    var i: nat :| Stopper(mix, info, kv, i);
    var ks :| Crowd(mix, MapOf(info, kv, i), ks);
    MapOfKeysGrow(info, kv, i, |kv|);
    NextKeyIsNew(info, kv, i);
    SubsetCard(ks, MapOf(info, kv, i).Keys);
    assert Crowd(mix, Contents(info, kv), ks);
  }

  lemma {:induction false} MapOfKeysGrow<K(!new), V>(info: seq<int>, kv: seq<Slot<K, V>>, i: nat, j: nat)
    requires i <= j <= |kv| <= |info|
    ensures MapOf(info, kv, i).Keys <= MapOf(info, kv, j).Keys
  {
    if i < j { MapOfKeysGrow(info, kv, i, j - 1); }
  }

  lemma CrowdIsLarge<K(!new), V>(mix: (K, bv64) -> nat, m: map<K, V>)
    requires Crowded(mix, m)
    ensures |m| >= 127
  {
    var ks :| Crowd(mix, m, ks);
    SubsetCard(ks, m.Keys);
  }

  // ---- the bounds are sharp ----

  // The arrays and scalars of a table that is in use.
  ghost predicate Storable<K(!new), V>(p: Params<K>, info: seq<int>, kv: seq<Slot<K, V>>) {
    && Coherent(p, info, kv) && IsPow2(p.n) && p.n >= 8
    && |kv| == CalcNumElementsWithBuffer(p.n) && |Contents(info, kv)| <= CalcMaxNumElementsAllowed(p.n)
  }

  // The keys below 127 have one hash, every other has a home slot of its own behind theirs.
  function Gathered(k: int, mult: bv64): nat {
    if k < 127 then 0 else k * 32
  }

  function GatheredParams(n: nat): Params<int> {
    Params(Gathered, 1, n, 2, 4)
  }

  function GatheredInfo(count: nat, cap: nat): seq<int> {
    seq(cap + 8, i requires 0 <= i < cap + 8 =>
      if i < count then (if i < 127 then 2 * (i + 1) else 2) else if i == cap then 1 else 0)
  }

  function GatheredSlots(count: nat, cap: nat): seq<Slot<int, int>> {
    seq(cap, i requires 0 <= i < cap => if i < count then Node(i, i) else Vacant)
  }

  // The first count slots hold the keys of their own index.
  ghost predicate InOrder(info: seq<int>, kv: seq<Slot<int, int>>, count: nat) {
    && count <= |kv| <= |info|
    && (forall i: nat | i < count :: info[i] != 0 && kv[i] == Node(i, i))
    && (forall i: nat | count <= i < |kv| :: info[i] == 0)
  }

  lemma GatheredSlot(n: nat, count: nat, cap: nat, i: nat)
    requires 0 < n && i < count <= n && count <= cap
    ensures Home(GatheredParams(n), i) == if i < 127 then 0 else i
    ensures SlotOk(GatheredParams(n), GatheredInfo(count, cap), GatheredSlots(count, cap), i)
  {
    var p := GatheredParams(n);
    assert Shr(0, 4) == Shr(0, 3) == Shr(0, 2) == Shr(0, 1) == Shr(0, 0) == 0;
    GatheredHome(n, i);
    InfoClosedForm(p, i, if i < 127 then i else 0);
  }

  lemma GatheredHome(n: nat, i: nat)
    requires i < n
    ensures Home(GatheredParams(n), i) == (if i < 127 then 0 else i) && Gathered(i, 1) % 32 == 0
  {
    if i < 127 {
      Below(0, n);
    } else {
      TimesOf32(i);
      Below(i, n);
    }
  }

  lemma TimesOf32(i: nat)
    ensures (i * 32) / 32 == i && (i * 32) % 32 == 0
  {
  }

  lemma Below(i: nat, n: nat)
    requires i < n
    ensures i % n == i
  {
  }

  function First(n: nat): (s: set<int>)
    ensures |s| == n && forall k :: k in s <==> 0 <= k < n
  {
    if n == 0 then {} else First(n - 1) + {n - 1}
  }

  lemma {:induction false} KeysInOrder(info: seq<int>, kv: seq<Slot<int, int>>, count: nat, lim: nat, k: int)
    requires InOrder(info, kv, count) && lim <= |kv|
    ensures k in MapOf(info, kv, lim) <==> 0 <= k < count && k < lim
  {
    if lim > 0 { KeysInOrder(info, kv, count, lim - 1, k); }
  }

  lemma SizeInOrder(info: seq<int>, kv: seq<Slot<int, int>>, count: nat)
    requires InOrder(info, kv, count)
    ensures |Contents(info, kv)| == count
  {
    forall k ensures k in Contents(info, kv) <==> k in First(count) {
      KeysInOrder(info, kv, count, |kv|, k);
    }
    assert Contents(info, kv).Keys == First(count);
    assert |Contents(info, kv)| == |Contents(info, kv).Keys|;
  }

  lemma GatheredIsCoherent(n: nat, count: nat, cap: nat)
    requires 0 < n <= cap && count <= n
    ensures Coherent(GatheredParams(n), GatheredInfo(count, cap), GatheredSlots(count, cap))
    ensures InOrder(GatheredInfo(count, cap), GatheredSlots(count, cap), count)
  {
    var info, kv := GatheredInfo(count, cap), GatheredSlots(count, cap);
    forall i: nat | i < |kv| && info[i] != 0
      ensures SlotOk(GatheredParams(n), info, kv, i)
    {
      GatheredSlot(n, count, cap, i);
    }
  }

  lemma {:induction false} GatheredIsStorable(n: nat, count: nat)
    requires IsPow2(n) && n >= 8 && count <= CalcMaxNumElementsAllowed(n)
    ensures var cap := CalcNumElementsWithBuffer(n);
      && Storable(GatheredParams(n), GatheredInfo(count, cap), GatheredSlots(count, cap))
      && |Contents(GatheredInfo(count, cap), GatheredSlots(count, cap))| == count
  {
    var cap := CalcNumElementsWithBuffer(n);
    GatheredIsCoherent(n, count, cap);
    SizeInOrder(GatheredInfo(count, cap), GatheredSlots(count, cap), count);
  }

  lemma {:induction false} CrowdInOrder(info: seq<int>, kv: seq<Slot<int, int>>, count: nat, lim: nat)
    requires InOrder(info, kv, count) && 127 <= lim <= |kv| && 127 <= count
    ensures Crowded(Gathered, MapOf(info, kv, lim))
  {
    forall k | k in First(127) ensures k in MapOf(info, kv, lim) {
      KeysInOrder(info, kv, count, lim, k);
    }
    assert Crowd(Gathered, MapOf(info, kv, lim), First(127));
  }

  ghost predicate NeverCrowded(count: nat) {
    forall p: Params<int>, info, kv: seq<Slot<int, int>> |
      Storable(p, info, kv) && |Contents(info, kv)| == count :: !Crowded(p.mix, Contents(info, kv))
  }

  ghost predicate NeverDoomed(count: nat) {
    forall p: Params<int>, info, kv: seq<Slot<int, int>> |
      Storable(p, info, kv) && |Contents(info, kv)| == count :: !Doomed(p.mix, info, kv)
  }

  // Tables of count keys are never crowded, whatever the hash, if and only if there are at most 126,
  // and never doomed if and only if there are at most 127.
  lemma CrowdBounds(count: nat)
    ensures NeverCrowded(count) <==> count <= 126
    ensures NeverDoomed(count) <==> count <= 127
  {
    if count <= 126 && !NeverCrowded(count) {
      var p: Params<int>, info, kv: seq<Slot<int, int>> :|
        Storable(p, info, kv) && |Contents(info, kv)| == count && Crowded(p.mix, Contents(info, kv));
      CrowdIsLarge(p.mix, Contents(info, kv));
    }
    if count <= 127 && !NeverDoomed(count) {
      var p: Params<int>, info, kv: seq<Slot<int, int>> :|
        Storable(p, info, kv) && |Contents(info, kv)| == count && Doomed(p.mix, info, kv);
      DoomedIsCrowded(p.mix, info, kv);
    }
    if count >= 127 {
      var n := SizeFor(count);
      var cap := CalcNumElementsWithBuffer(n);
      var p, info, kv := GatheredParams(n), GatheredInfo(count, cap), GatheredSlots(count, cap);
      GatheredIsStorable(n, count);
      GatheredIsCoherent(n, count, cap);
      CrowdInOrder(info, kv, count, cap);
      assert Crowded(p.mix, Contents(info, kv));
      if count >= 128 {
        CrowdInOrder(info, kv, count, 127);
        assert Stopper(p.mix, info, kv, 127);
      }
    }
  }

  lemma {:induction false} SizeFor(count: nat) returns (n: nat)
    ensures IsPow2(n) && n >= 8 && count <= CalcMaxNumElementsAllowed(n)
  {
    if count == 0 {
      n := 8;
    } else {
      n := SizeFor(count - 1);
      Doubled(n, n * 2);
      n := if CalcMaxNumElementsAllowed(n) >= count then n else n * 2;
    }
  }

  // ---- a table that loses a binding ----

  // 127 keys that stay in the first home slot under every multiplier, and another that does not.
  lemma FirstHomeIsDoomed<K(!new), V>(p: Params<K>, info: seq<int>, kv: seq<Slot<K, V>>, ks: set<K>, x: K)
    requires Coherent(p, info, kv) && Crowd(p.mix, Contents(info, kv), ks)
    requires forall k | k in ks :: Home(p, k) == 0
    requires x in Contents(info, kv) && Home(p, x) > 0
    ensures Doomed(p.mix, info, kv)
  {
    var i := SlotOf(p, info, kv, x);
    if i < 127 { TooManyBelow(p, info, kv, ks, x, i); }
    forall k | k in ks
      ensures k in MapOf(info, kv, i)
    {
      var j := SlotOf(p, info, kv, k);
      MapOfRepresents(info, kv, i);
    }
    assert Crowd(p.mix, MapOf(info, kv, i), ks);
    assert Stopper(p.mix, info, kv, i);
  }

  lemma TooManyBelow<K(!new), V>(p: Params<K>, info: seq<int>, kv: seq<Slot<K, V>>, ks: set<K>, x: K, i: nat)
    requires Coherent(p, info, kv) && ks <= Contents(info, kv).Keys && |ks| == 127
    requires forall k | k in ks :: Home(p, k) == 0
    requires i < |kv| && info[i] != 0 && kv[i].Node? && kv[i].key == x && Home(p, x) > 0
    ensures i >= 127
  {
    if i < 127 {
      var hi := if |kv| < 127 then |kv| else 127;
      forall k | k in ks + {x}
        ensures exists j: nat :: 0 <= j < hi && info[j] != 0 && kv[j].Node? && kv[j].key == k
      {
        if k in ks {
          var j := SlotOf(p, info, kv, k);
        }
      }
      KeysInRange(info, kv, 0, hi, ks + {x});
    }
  }

  const kFirstMultiplier: bv64 := 0xc4ceb9fe1a85ec53

  // The hash 0 keeps the first home slot under every multiplier. The hash 1 does not have it under
  // the first multiplier, whatever the size.
  function TwoHashes(k: int): bv64 {
    if k < 127 then 0 else 1
  }

  function Mixed(k: int, mult: bv64): nat {
    MulXorShift(TwoHashes(k), mult) as nat
  }

  ghost predicate MixesTwo(mix: (int, bv64) -> nat) {
    forall k, mult {:trigger Mixed(k, mult)} :: mix(k, mult) == Mixed(k, mult)
  }

  lemma MixedIs(k: int, mult: bv64)
    ensures k < 127 ==> Mixed(k, mult) == 0
    ensures k >= 127 ==> Mixed(k, kFirstMultiplier) == 0xc4ceb9fe78e2b0ac
  {
    ZeroStays(mult);
    assert MulXorShift(1, kFirstMultiplier) == 0xc4ceb9fe78e2b0ac;
  }

  lemma ZeroStays(mult: bv64)
    ensures MulXorShift(0, mult) == 0
  {
    assert 0 as bv64 * mult == 0;
  }

  lemma {:induction false} OneIsElsewhere(n: nat)
    requires IsPow2(n) && n >= 8
    ensures (0xc4ceb9fe78e2b0ac / 32) % n != 0
  {
    var eight: nat := 8;
    assert IsPow2(2) && IsPow2(4) && IsPow2(eight);
    var q := Divides(eight, n);
    if q > 0 { ModOfMod(0xc4ceb9fe78e2b0ac / 32, eight, q); }
  }

  lemma {:induction false} TwoHomes(mix: (int, bv64) -> nat, n: nat, k: int)
    requires IsPow2(n) && n >= 8 && MixesTwo(mix)
    ensures HomeOf(mix, kFirstMultiplier, n, k) == 0 <==> k < 127
  {
    MixedIs(k, kFirstMultiplier);
    FirstHome(mix(k, kFirstMultiplier), n);
  }

  lemma {:induction false} FirstHome(m: nat, n: nat)
    requires IsPow2(n) && n >= 8 && (m == 0 || m == 0xc4ceb9fe78e2b0ac)
    ensures (m / 32) % n == 0 <==> m == 0
  {
    if m == 0 {
      Below(0, n);
    } else {
      OneIsElsewhere(n);
    }
  }

  // Up to 126 keys of the hash 0 and one of the hash 1 are never too near.
  lemma {:induction false} TwoAreNotDense(mix: (int, bv64) -> nat, n: nat, keys: set<int>, k: int)
    requires IsPow2(n) && n >= 8 && |keys| <= 127 && 127 in keys && k in keys && k < 127
    requires MixesTwo(mix)
    ensures !Dense(mix, kFirstMultiplier, n, keys)
  {
    TwoHomes(mix, n, k);
    TwoHomes(mix, n, 127);
    if Dense(mix, kFirstMultiplier, n, keys) { OneHomeOnly(mix, kFirstMultiplier, n, keys, k, 127); }
  }

  lemma OneHomeOnly<K(!new)>(mix: (K, bv64) -> nat, mult: bv64, n: nat, keys: set<K>, k: K, k': K)
    requires Dense(mix, mult, n, keys) && |keys| <= 127 && k in keys && k' in keys && n > 0
    ensures HomeOf(mix, mult, n, k) == HomeOf(mix, mult, n, k')
  {
    var ks, a: nat, h: nat :| DenseAt(mix, mult, n, keys, ks, a, h);
    AllOf(ks, keys);
  }

  lemma AllOf<T>(ks: set<T>, keys: set<T>)
    requires ks <= keys && |keys| <= |ks|
    ensures ks == keys
  {
    assert keys == ks + (keys - ks);
  }
}
