// robin_hood::detail::Table as an object over its two arrays. Contents is the finite map
// it stands for; every operation is proved against it.
module RobinHoodTable {
  import opened RobinHoodLayout
  import opened RobinHoodSteps
  import opened RobinHoodBounds
  import opened RobinHoodCourse
  import opened Basics
  import opened Words
  import opened PowersOfTwo
  import opened GrowthPolicy

  const INITIAL_NUM_ELEMENTS := 8
  const INITIAL_INFO_INC := 32
  const INFO_MASK := 31
  // What lies ahead of an absent key: how often increase_size has to be called, at most, as long as
  // the key can be placed after at most one rehash, which is hopeful; the multiplier that the next
  // growth leaves and, if it is a rehash, the number of home slots; whether that growth throws, and
  // whether every rehash would.
  datatype Outlook = Outlook(growths: nat, mult: bv64, size: nat, hopeful: bool, stops: bool, doomed: bool)

  datatype InsertionState = OverflowError | KeyFound | NewNode | OverwriteNode

  lemma InfoMaskIsPow2()
    ensures IsPow2(INFO_MASK + 1)
  {
    assert IsPow2(2) && IsPow2(4) && IsPow2(8) && IsPow2(16);
  }

  // static_cast<uint8_t>
  function U8(x: int): (r: int)
    ensures 0 <= r < 256 && (x - r) % 256 == 0
  {
    x % 256
  }

  lemma {:induction false} LargerAllowsMore(n: nat, m: nat)
    requires 8 <= n <= m && IsPow2(n) && IsPow2(m)
    ensures CalcMaxNumElementsAllowed(n) <= CalcMaxNumElementsAllowed(m)
    decreases m - n
  {
    if n < m {
      Gap(n, m);
      Doubled(n, n * 2);
      LargerAllowsMore(n * 2, m);
    }
  }

  ghost predicate FieldsFit(size: nat, num: nat, mask: nat, cap: nat, max: nat) {
    && num == size <= CalcMaxNumElementsAllowed(mask + 1)
    && IsPow2(mask + 1)
    && (if mask == 0 then cap == 0 else mask + 1 >= INITIAL_NUM_ELEMENTS && cap == CalcNumElementsWithBuffer(mask + 1))
    && (max == 0 || max == CalcMaxNumElementsAllowed(mask + 1))
  }

  // The flag that no further key is allowed for now.
  lemma FlagFitsToo(size: nat, num: nat, mask: nat, cap: nat, max: nat)
    requires FieldsFit(size, num, mask, cap, max)
    ensures FieldsFit(size, num, mask, cap, 0)
  {
  }

  // What rehashPowerOfTwo needs of the old arrays.
  ghost predicate Movable<K(!new), V>(mask: nat, info: seq<int>, kv: seq<Slot<K, V>>) {
    && |kv| + 8 == |info| && Distinct(info, kv)
    && |kv| == if mask == 0 then 0 else CalcNumElementsWithBuffer(mask + 1)
  }

  // The slots are moved to n home slots under a multiplier, and those before slot i could be. halts
  // says whether that will go wrong.
  ghost predicate Planned<K(!new), V>(mix: (K, bv64) -> nat, mult: bv64, n: nat, info: seq<int>, kv: seq<Slot<K, V>>,
                                      i: nat, halts: bool) {
    && Distinct(info, kv) && i <= |kv| && |RobinHoodLayout.Contents(info, kv)| <= CalcMaxNumElementsAllowed(n)
    && NoneStops(mix, mult, n, info, kv, i) && halts == Stops(mix, mult, n, info, kv)
  }

  lemma {:induction false} PlanSkips<K(!new), V>(mix: (K, bv64) -> nat, mult: bv64, n: nat, info: seq<int>,
                                                 kv: seq<Slot<K, V>>, i: nat, halts: bool)
    requires Planned(mix, mult, n, info, kv, i, halts) && i < |kv| && info[i] == 0
    ensures Planned(mix, mult, n, info, kv, i + 1, halts) && MapOf(info, kv, i + 1) == MapOf(info, kv, i)
  {
  }

  // The key to be moved next is not there yet. It can be inserted unless the keys before are too near.
  lemma {:induction false} PlanNext<K(!new), V>(mix: (K, bv64) -> nat, mult: bv64, n: nat, info: seq<int>,
                                                kv: seq<Slot<K, V>>, i: nat, halts: bool, m: map<K, V>, stuck: bool)
    requires Planned(mix, mult, n, info, kv, i, halts) && i < |kv| && info[i] != 0
    requires m == MapOf(info, kv, i) && stuck == Dense(mix, mult, n, m.Keys)
    ensures kv[i].Node? && kv[i].key !in m && |m| < CalcMaxNumElementsAllowed(n)
    ensures MapOf(info, kv, i + 1) == m[kv[i].key := kv[i].val]
    ensures !stuck ==> Planned(mix, mult, n, info, kv, i + 1, halts)
    ensures stuck ==>
              halts && |RobinHoodLayout.Contents(info, kv)| > 127 && StrictPart(m, RobinHoodLayout.Contents(info, kv))
  {
    NextKeyIsNew(info, kv, i);
    StopsAtNext(mix, mult, n, info, kv, i, stuck);
    PartIsStrict(info, kv, i);
  }

  // Some of the bindings of m, but not all.
  ghost predicate StrictPart<K(!new), V>(part: map<K, V>, m: map<K, V>) {
    part.Keys < m.Keys && forall k | k in part :: part[k] == m[k]
  }

  lemma {:induction false} PartIsStrict<K(!new), V>(info: seq<int>, kv: seq<Slot<K, V>>, i: nat)
    requires i < |kv| <= |info| && info[i] != 0
    requires Distinct(info, kv)
    ensures StrictPart(MapOf(info, kv, i), RobinHoodLayout.Contents(info, kv))
  {
    NextKeyIsNew(info, kv, i);
    MapOfRepresents(info, kv, i);
    MapOfRepresents(info, kv, |kv|);
    MapOfKeysGrow(info, kv, i, |kv|);
    MapOfKeysGrow(info, kv, i + 1, |kv|);
    assert kv[i].key in MapOf(info, kv, i + 1);
  }

  class Table<K(==, !new), V> {
    const mix: (K, bv64) -> nat  // the hash after MulXorShift
    var mHashMultiplier: bv64
    var mKeyVals: array<Slot<K, V>>
    var mInfo: array<int>
    var mNumElements: nat
    var mMask: nat
    var mMaxNumElementsAllowed: nat
    var mInfoInc: nat
    var mInfoHashShift: nat

    ghost function P(): Params<K>
      reads this
    {
      Params(mix, mHashMultiplier, mMask + 1, mInfoInc, mInfoHashShift)
    }

    // The sentinel sits at Cap(); 0 until the first allocation.
    function Cap(): nat
      reads this
    {
      mKeyVals.Length
    }

    // The finite map this table stands for.
    ghost function Contents(): map<K, V>
      reads this, mInfo, mKeyVals
      requires mKeyVals.Length <= mInfo.Length
    {
      RobinHoodLayout.Contents(mInfo[..], mKeyVals[..])
    }

    // How the scalar fields fit a table of size elements.
    ghost predicate Counts(size: nat)
      reads this
    {
      FieldsFit(size, mNumElements, mMask, mKeyVals.Length, mMaxNumElementsAllowed)
    }

    ghost predicate Valid()
      reads this, mInfo, mKeyVals
    {
      && Coherent(P(), mInfo[..], mKeyVals[..])
      && (mMaxNumElementsAllowed > 0 ==> Room(mInfoInc, mInfo[..], mKeyVals.Length))
      && Counts(|Contents()|)
    }

    ghost predicate Holds(idx: nat, key: K)
      reads this, mInfo, mKeyVals
      requires mKeyVals.Length <= mInfo.Length && key in Contents()
    {
      idx < mKeyVals.Length && mInfo[idx] != 0 && mKeyVals[idx] == Node(key, Contents()[key])
    }

    constructor (hash: K -> bv64)
      ensures Valid() && Contents() == map[] && fresh(mInfo) && fresh(mKeyVals)
      ensures mHashMultiplier == kFirstMultiplier && mMask == 0
      ensures forall k: K, m: bv64 :: mix(k, m) == MulXorShift(hash(k), m) as nat
    {
      mix := (k, m) => MulXorShift(hash(k), m) as nat;
      mHashMultiplier := kFirstMultiplier;
      mKeyVals := new Slot<K, V>[0];
      mInfo := new int[8](_ => 0);
      mNumElements := 0;
      mMask := 0;
      mMaxNumElementsAllowed := 0;
      mInfoInc := INITIAL_INFO_INC;
      mInfoHashShift := 0;
    }

    method keyToIdx(key: K) returns (idx: nat, info: nat)
      requires Ok(P()) && IsPow2(mMask + 1)
      ensures idx == Home(P(), key) && info == InfoAt(P(), key, 0)
    {
      var h := mix(key, mHashMultiplier);
      InfoMaskIsPow2();
      MaskIsRemainder(h, INFO_MASK + 1);
      MaskIsRemainder(h / 32, mMask + 1);
      info := mInfoInc + Shr(And(h, INFO_MASK), mInfoHashShift);
      idx := And(h / 32, mMask);
    }

    // ---- lookup ----

    // A probe for key stands at idx.
    ghost predicate At(key: K, idx: nat, info: nat)
      reads this, mInfo, mKeyVals
    {
      Probing(P(), mInfo[..], mKeyVals[..], key, idx, info)
    }

    ghost predicate Hit(key: K, idx: nat)
      reads this, mInfo, mKeyVals
    {
      idx < mKeyVals.Length && idx < mInfo.Length && mInfo[idx] != 0 && mKeyVals[idx].Node? && mKeyVals[idx].key == key
    }

    // One of the two probes of an unrolled round.
    method probe(key: K, idx: nat, info: nat) returns (hit: bool)
      requires At(key, idx, info) && idx + 1 < mInfo.Length
      ensures hit ==> Hit(key, idx)
      ensures !hit ==> At(key, idx + 1, info + mInfoInc)
    {
      if info == mInfo[idx] { ProbeGoesOn(P(), mInfo[..], mKeyVals[..], key, idx, info); }
      hit := info == mInfo[idx] && mKeyVals[idx].key == key;
      if !hit { ProbeAdvances(P(), mInfo[..], mKeyVals[..], key, idx, info); }
    }

    // The unrolled body of findIdx's loop.
    method probeTwice(key: K, at: nat, byte: nat) returns (hit: bool, idx: nat, info: nat)
      requires At(key, at, byte) && at <= Cap() && Cap() + 8 == mInfo.Length
      ensures hit ==> Hit(key, idx)
      ensures !hit ==> idx == at + 2 && At(key, idx, info)
    {
      idx, info := at, byte;
      hit := probe(key, idx, info);
      if hit { return; }
      idx, info := idx + 1, info + mInfoInc;
      hit := probe(key, idx, info);
      if hit { return; }
      idx, info := idx + 1, info + mInfoInc;
    }

    method findIdx(key: K) returns (idx: nat)
      requires Valid()
      ensures key in Contents() ==> Holds(idx, key)
      ensures key !in Contents() ==> idx == Cap()
    {
      var info: nat;
      idx, info := keyToIdx(key);
      ProbeStarts(P(), mInfo[..], mKeyVals[..], key);
      while true
        invariant At(key, idx, info) && idx <= Cap()
        decreases Cap() - idx
      {
        var hit;
        hit, idx, info := probeTwice(key, idx, info);
        if hit {
          StoredSlot(P(), mInfo[..], mKeyVals[..], idx);
          return;
        }
        if !(info <= mInfo[idx]) { break; }
        ProbeGoesOn(P(), mInfo[..], mKeyVals[..], key, idx, info);
      }
      ProbeStops(P(), mInfo[..], mKeyVals[..], key, idx, info);
      AbsentKey(P(), mInfo[..], mKeyVals[..], key);
      idx := if mMask == 0 then 0 else mKeyVals.Length;
    }

    // ---- erasure ----

    // One turn of shiftDown's loop; a moved-from slot counts as vacant.
    method moveDown(idx: nat)
      requires idx + 1 < Cap() < mInfo.Length && mInfoInc <= mInfo[..][idx + 1] < 256
      modifies mInfo, mKeyVals
      ensures mInfo[..] == old(mInfo[..])[idx := old(mInfo[..])[idx + 1] - old(mInfoInc)]
      ensures mKeyVals[..] == old(mKeyVals[..])[idx := old(mKeyVals[..])[idx + 1]][idx + 1 := Vacant]
    {
      mInfo[idx] := U8(mInfo[idx + 1] - mInfoInc);
      mKeyVals[idx], mKeyVals[idx + 1] := mKeyVals[idx + 1], Vacant;
    }

    // Frees a slot.
    method vacate(idx: nat)
      requires idx < Cap() < mInfo.Length
      modifies mInfo, mKeyVals
      ensures mInfo[..] == old(mInfo[..])[idx := 0]
      ensures mKeyVals[..] == old(mKeyVals[..])[idx := Vacant]
    {
      mInfo[idx] := 0;
      mKeyVals[idx] := Vacant;
    }

    // The slots behind at, up to idx, have moved down.
    ghost predicate SlidTo(info0: seq<int>, kv0: seq<Slot<K, V>>, at: nat, idx: nat)
      reads this, mInfo, mKeyVals
    {
      && at <= idx < Cap() == |kv0| < mInfo.Length == |info0| && mInfo[..][Cap()] < 2 * mInfoInc
      && mInfo[..] == DownInfo(info0, mInfoInc, at, idx) && mKeyVals[..] == Erased(kv0, at, idx, Vacant)
      && Displaced(info0, mInfoInc, at, idx)
    }

    // shiftDown's loop, until a slot that is empty or at home.
    method slideDown(at: nat, ghost info0: seq<int>, ghost kv0: seq<Slot<K, V>>) returns (idx: nat)
      requires SlidTo(info0, kv0, at, at) && mInfoInc > 0 && forall i: nat :: i < |info0| ==> info0[i] < 256
      modifies mInfo, mKeyVals
      ensures SlidTo(info0, kv0, at, idx) && mInfo[..][idx + 1] < 2 * mInfoInc
    {
      idx := at;
      while mInfo[idx + 1] >= 2 * mInfoInc
        invariant SlidTo(info0, kv0, at, idx)
        decreases |kv0| - idx
      {
        slideStep(at, idx, idx + 1, info0, kv0);
        idx := idx + 1;
      }
    }

    method slideStep(ghost at: nat, idx: nat, ghost next: nat, ghost info0: seq<int>, ghost kv0: seq<Slot<K, V>>)
      requires SlidTo(info0, kv0, at, idx) && next == idx + 1 && mInfo[..][next] >= 2 * mInfoInc
      requires forall i: nat :: i < |info0| ==> info0[i] < 256
      modifies mInfo, mKeyVals
      ensures SlidTo(info0, kv0, at, next)
    {
      MovesInfoOn(info0, mInfoInc, at, idx, mInfo[..]);
      MovesOn(kv0, at, idx, Vacant);
      moveDown(idx);
    }

    method shiftDown(at: nat, ghost info0: seq<int>, ghost kv0: seq<Slot<K, V>>) returns (ghost last: nat)
      requires mInfo[..] == info0 && mKeyVals[..] == kv0 && at < |kv0| < |info0|
      requires info0[at] != 0 && info0[|kv0|] < 2 * mInfoInc && mInfoInc > 0
      requires forall i: nat :: i < |info0| ==> info0[i] < 256
      modifies mInfo, mKeyVals
      ensures EraseSpan(info0, mInfoInc, |kv0|, at, last)
      ensures mInfo[..] == ErasedInfo(info0, mInfoInc, at, last) && mKeyVals[..] == Erased(kv0, at, last, Vacant)
    {
      ghost var kv1 := kv0[at := Vacant];
      NothingMoved(info0, mInfoInc, kv1, at, Vacant);
      mKeyVals[at] := Vacant;
      assert mKeyVals[..] == kv1;
      var idx := slideDown(at, info0, kv1);
      MovesInfoEnd(info0, mInfoInc, Cap(), at, idx, mInfo[..]);
      ErasedAgain(kv0, at, idx, Vacant);
      vacate(idx);
      last := idx;
    }

    // erase's search, one probe a round.
    method findToErase(key: K) returns (hit: bool, idx: nat)
      requires Valid()
      ensures hit ==> Hit(key, idx) && key in Contents()
      ensures !hit ==> key !in Contents()
    {
      var info: nat;
      idx, info := keyToIdx(key);
      ProbeStarts(P(), mInfo[..], mKeyVals[..], key);
      while true
        invariant At(key, idx, info) && idx <= Cap()
        decreases Cap() - idx
      {
        hit := probe(key, idx, info);
        if hit {
          StoredSlot(P(), mInfo[..], mKeyVals[..], idx);
          return;
        }
        idx, info := idx + 1, info + mInfoInc;
        if !(info <= mInfo[idx]) { break; }
        ProbeGoesOn(P(), mInfo[..], mKeyVals[..], key, idx, info);
      }
      ProbeStops(P(), mInfo[..], mKeyVals[..], key, idx, info);
      AbsentKey(P(), mInfo[..], mKeyVals[..], key);
      hit := false;
    }

    method removeSlot(idx: nat)
      requires Coherent(P(), mInfo[..], mKeyVals[..]) && idx < Cap() && mInfo[idx] != 0 && mKeyVals[idx].Node?
      modifies mInfo, mKeyVals
      ensures Coherent(P(), mInfo[..], mKeyVals[..])
      ensures Contents() == old(Contents()) - {old(mKeyVals[idx]).key}
      ensures old(Room(mInfoInc, mInfo[..], mKeyVals.Length)) ==> Room(mInfoInc, mInfo[..], mKeyVals.Length)
    {
      ghost var info0, kv0 := mInfo[..], mKeyVals[..];
      BytesFit(P(), info0, kv0);
      ghost var last := shiftDown(idx, info0, kv0);
      EraseStep(P(), info0, kv0, idx, last, mInfo[..], mKeyVals[..]);
    }

    // Returns whether key was there.
    method erase(key: K) returns (erased: bool)
      requires Valid()
      modifies mInfo, mKeyVals, `mNumElements
      ensures Valid()
      ensures erased <==> key in old(Contents())
      ensures Contents() == old(Contents()) - {key}
    {
      var idx;
      erased, idx := findToErase(key);
      if erased {
        removeSlot(idx);
        ghost var info1, kv1, p := mInfo[..], mKeyVals[..], P();
        mNumElements := mNumElements - 1;
        assert mInfo[..] == info1 && mKeyVals[..] == kv1 && P() == p;
      }
    }

    // ---- insertion ----

    ghost predicate Sought(key: K, idx: nat, info: nat)
      reads this, mInfo, mKeyVals
    {
      Seeking(P(), mInfo[..], mKeyVals[..], key, idx, info)
    }

    method nextWhileLess(key: K, at: nat, byte: nat) returns (idx: nat, info: nat)
      requires Sought(key, at, byte)
      ensures Sought(key, idx, info) && info >= mInfo[idx]
    {
      idx, info := at, byte;
      while info < mInfo[idx]
        invariant Sought(key, idx, info)
        decreases Cap() - idx
      {
        SeekAdvances(P(), mInfo[..], mKeyVals[..], key, idx, info);
        idx, info := idx + 1, info + mInfoInc;
      }
    }

    // "while we potentially have a match"
    method nextWhileEqual(key: K, at: nat, byte: nat) returns (found: bool, idx: nat, info: nat)
      requires Sought(key, at, byte) && byte >= mInfo[at]
      ensures found ==> Hit(key, idx)
      ensures !found ==> Sought(key, idx, info) && info > mInfo[idx]
    {
      idx, info := at, byte;
      while info == mInfo[idx]
        invariant Sought(key, idx, info) && info >= mInfo[idx]
        decreases Cap() - idx
      {
        ProbeGoesOn(P(), mInfo[..], mKeyVals[..], key, idx, info);
        if mKeyVals[idx].key == key {
          return true, idx, info;
        }
        EqualThenNotLess(P(), mInfo[..], mKeyVals[..], key, idx, info);
        SeekAdvances(P(), mInfo[..], mKeyVals[..], key, idx, info);
        idx, info := idx + 1, info + mInfoInc;
      }
      found := false;
    }

    // The search half of insertKeyPrepareEmptySpot.
    method seekSpot(key: K) returns (found: bool, idx: nat, info: nat)
      requires Valid()
      ensures found <==> key in Contents()
      ensures found ==> Hit(key, idx)
      ensures !found ==> Sought(key, idx, info) && info > mInfo[idx]
    {
      idx, info := keyToIdx(key);
      ProbeStarts(P(), mInfo[..], mKeyVals[..], key);
      idx, info := nextWhileLess(key, idx, info);
      found, idx, info := nextWhileEqual(key, idx, info);
      if found {
        StoredSlot(P(), mInfo[..], mKeyVals[..], idx);
      } else {
        ProbeStops(P(), mInfo[..], mKeyVals[..], key, idx, info);
        AbsentKey(P(), mInfo[..], mKeyVals[..], key);
      }
    }

    // The scan of both insertions for the first empty slot.
    method scanEmpty(ins: nat, ghost stop: nat) returns (free: nat)
      requires ins <= stop < mInfo.Length && mInfo[stop] == 0
      ensures ins <= free <= stop && mInfo[free] == 0
      ensures forall i :: ins <= i < free ==> mInfo[i] != 0
    {
      free := ins;
      while 0 != mInfo[free]
        invariant ins <= free <= stop
        invariant forall i :: ins <= i < free ==> mInfo[i] != 0
        decreases stop - free
      {
        free := free + 1;
      }
    }

    // The slots behind the last home slot outnumber the elements, or the largest distance.
    ghost predicate Buffered(size: nat)
      reads this
    {
      Cap() != 0 && (size < Cap() - (mMask + 1) || Cap() - (mMask + 1) >= 127)
    }

    lemma BufferLeft(size: nat)
      requires Counts(size) && size < Limit() && mMask != 0
      ensures Buffered(size)
    {
    }

    method findEmpty(key: K, ins: nat, byte: nat) returns (free: nat)
      requires Sought(key, ins, byte) && byte > mInfo[ins]
      requires Buffered(|Contents()|)
      ensures ins <= free < Cap() && InsertSpot(P(), mInfo[..], mKeyVals[..], key, ins, free)
      ensures forall i :: 0 <= i < Cap() && mInfo[i] != 0 ==> mKeyVals[i].key != key
    {
      ghost var info, kv := mInfo[..], mKeyVals[..];
      ScanStaysInside(P(), info, kv, Home(P(), key));
      ghost var stop :| Home(P(), key) <= stop < |kv| && info[stop] == 0;
      free := scanEmpty(ins, stop);
      SeekEndsAtSpot(P(), info, kv, key, ins, byte, free);
    }

    // The other half of insertKeyPrepareEmptySpot, and of insert_move: everything but writing
    // the new node, which the caller does next.
    method openSpot(key: K, ins: nat, byte: nat, free: nat, ghost v: V)
      requires ins <= free < Cap() < mInfo.Length && byte <= 255 && mMaxNumElementsAllowed > 0
      requires forall i :: 0 <= i < Cap() ==> 0 <= mInfo[i] && mInfo[i] + mInfoInc <= 255
      modifies mInfo, mKeyVals, `mMaxNumElementsAllowed
      ensures mInfo[..] == InsertedInfo(old(mInfo[..]), mInfoInc, ins, free, byte)
      ensures mKeyVals[..][ins := Node(key, v)] == Inserted(old(mKeyVals[..]), ins, free, Node(key, v))
      ensures mMaxNumElementsAllowed ==
        if byte + mInfoInc <= 255 && RoomForTwo(mInfoInc, old(mInfo[..]), ins, free)
        then old(mMaxNumElementsAllowed) else 0
    {
      ghost var info0, kv0 := mInfo[..], mKeyVals[..];
      OverwriteInserted(info0, kv0, mInfoInc, ins, free, byte, Node(key, v));
      if byte + mInfoInc > 0xff {
        mMaxNumElementsAllowed := 0;
      }
      if free != ins {
        shiftUp(free, ins);
      }
      writeByte(ins, byte);
    }

    method writeByte(ins: nat, byte: nat)
      requires ins < mInfo.Length && byte <= 255
      modifies mInfo
      ensures mInfo[..] == old(mInfo[..])[ins := byte]
    {
      mInfo[ins] := U8(byte);
    }

    // The arrays once the caller has written node (key, v) at idx.
    ghost predicate Ready(idx: nat, key: K, v: V, m: map<K, V>)
      reads this, mInfo, mKeyVals
    {
      && idx < Cap()
      && Coherent(P(), mInfo[..], mKeyVals[..][idx := Node(key, v)])
      && RobinHoodLayout.Contents(mInfo[..], mKeyVals[..][idx := Node(key, v)]) == m
    }

    // Valid once that node is written.
    ghost predicate Prepared(idx: nat, key: K, v: V, m: map<K, V>)
      reads this, mInfo, mKeyVals
    {
      && Ready(idx, key, v, m)
      && (mMaxNumElementsAllowed > 0 ==> Room(mInfoInc, mInfo[..], mKeyVals.Length))
      && Counts(|m|)
    }

    // The flag is only up if some byte leaves no room.
    ghost predicate FlagFits()
      reads this, mInfo
    {
      mKeyVals.Length <= mInfo.Length && (mMaxNumElementsAllowed == 0 ==> !Room(mInfoInc, mInfo[..], mKeyVals.Length))
    }

    // Finds the empty slot and opens the spot there, in a table of m.
    method makeSpot(key: K, ins: nat, byte: nat, ghost v: V, ghost m: map<K, V>) returns (free: nat)
      requires Sought(key, ins, byte) && byte > mInfo[ins] && Roomy(m)
      modifies mInfo, mKeyVals, `mMaxNumElementsAllowed
      ensures key !in m && |m[key := v]| == |m| + 1 && Ready(ins, key, v, m[key := v]) && Counts(|m|) && |m| < Limit()
      ensures mMaxNumElementsAllowed == if Room(mInfoInc, mInfo[..], Cap()) then old(mMaxNumElementsAllowed) else 0
      ensures ins < old(mInfo.Length) && (free == ins <==> old(mInfo[..])[ins] == 0)
    {
      free := findEmpty(key, ins, byte);
      FlagFitsToo(|m|, mNumElements, mMask, Cap(), mMaxNumElementsAllowed);
      openFor(key, ins, byte, free, v, m);
      assert |m[key := v]| == |m| + 1;
    }

    method openFor(key: K, ins: nat, byte: nat, free: nat, ghost v: V, ghost m: map<K, V>)
      requires Sought(key, ins, byte) && mMaxNumElementsAllowed > 0 && Room(mInfoInc, mInfo[..], Cap())
      requires Contents() == m
      requires ins <= free < Cap() && InsertSpot(P(), mInfo[..], mKeyVals[..], key, ins, free)
      requires forall i :: 0 <= i < Cap() && mInfo[..][i] != 0 ==> mKeyVals[..][i].key != key
      modifies mInfo, mKeyVals, `mMaxNumElementsAllowed
      ensures key !in m && Ready(ins, key, v, m[key := v])
      ensures mMaxNumElementsAllowed == if Room(mInfoInc, mInfo[..], Cap()) then old(mMaxNumElementsAllowed) else 0
    {
      ghost var info0, kv0 := mInfo[..], mKeyVals[..];
      ghost var info1, kv1 := InsertedInfo(info0, mInfoInc, ins, free, byte), Inserted(kv0, ins, free, Node(key, v));
      ghost var p := P();
      ByteFits(p, info0, kv0, key, ins, byte);
      BytesFit(p, info0, kv0);
      InsertStep(p, info0, kv0, key, v, ins, free, info1, kv1);
      InsertKeepsRoom(info0, mInfoInc, Cap(), ins, free, byte);
      openSpot(key, ins, byte, free, v);
      assert mInfo[..] == info1 && mKeyVals[..][ins := Node(key, v)] == kv1 && P() == p;
    }

    method prepareAt(key: K, ins: nat, byte: nat, ghost v: V, ghost m: map<K, V>) returns (free: nat)
      requires Valid() && Sought(key, ins, byte) && byte > mInfo[ins] && mNumElements < mMaxNumElementsAllowed
      requires Contents() == m
      modifies mInfo, mKeyVals, `mMaxNumElementsAllowed, `mNumElements
      ensures key !in m && Prepared(ins, key, v, m[key := v]) && FlagFits()
      ensures ins < old(mInfo.Length) && (free == ins <==> old(mInfo[..])[ins] == 0)
    {
      RoomIsLeft(m);
      free := makeSpot(key, ins, byte, v, m);
      countOne(ins, key, v, m[key := v], |m|);
    }

    // The table of m takes one more element.
    ghost predicate Roomy(m: map<K, V>)
      reads this, mInfo, mKeyVals
    {
      && mKeyVals.Length <= mInfo.Length && Contents() == m && mMaxNumElementsAllowed > 0
      && Room(mInfoInc, mInfo[..], Cap()) && Buffered(|m|) && Counts(|m|) && |m| < Limit()
    }

    lemma RoomIsLeft(m: map<K, V>)
      requires Valid() && Contents() == m && mNumElements < mMaxNumElementsAllowed
      ensures Roomy(m)
    {
      BufferLeft(|m|);
    }

    method countOne(ghost idx: nat, ghost key: K, ghost v: V, ghost m: map<K, V>, ghost size: nat)
      requires Ready(idx, key, v, m) && |m| == size + 1 && Counts(size) && size < Limit()
      requires mMaxNumElementsAllowed > 0 ==> Room(mInfoInc, mInfo[..], mKeyVals.Length)
      modifies `mNumElements
      ensures Prepared(idx, key, v, m) && (old(FlagFits()) ==> FlagFits())
    {
      ghost var info, kv, p := mInfo[..], mKeyVals[..], P();
      mNumElements := mNumElements + 1;
      assert mInfo[..] == info && mKeyVals[..] == kv && P() == p;
    }

    // Writes the node into the opened spot.
    method putNode(idx: nat, key: K, v: V, ghost m: map<K, V>)
      requires Prepared(idx, key, v, m)
      modifies mKeyVals
      ensures Valid() && Contents() == m && (old(FlagFits()) ==> FlagFits())
    {
      ghost var info0, kv0 := mInfo[..], mKeyVals[..];
      mKeyVals[idx] := Node(key, v);
      assert mInfo[..] == info0 && mKeyVals[..] == kv0[idx := Node(key, v)];
    }

    // Moves the slots of [ins, startIdx) up by one.
    method shiftUp(startIdx: nat, ins: nat)
      requires ins < startIdx < Cap() < mInfo.Length
      requires forall i :: ins <= i < startIdx ==> 0 <= mInfo[i] && mInfo[i] + mInfoInc <= 255
      modifies mInfo, mKeyVals, `mMaxNumElementsAllowed
      ensures mInfo[..] == InsertedInfo(old(mInfo[..]), mInfoInc, ins, startIdx, old(mInfo[ins]))
      ensures mKeyVals[..] == Inserted(old(mKeyVals[..]), ins, startIdx, old(mKeyVals[ins]))
      ensures mMaxNumElementsAllowed
                == if RoomForTwo(mInfoInc, old(mInfo[..]), ins, startIdx) then old(mMaxNumElementsAllowed) else 0
    {
      ghost var info0, kv0 := mInfo[..], mKeyVals[..];
      OverwriteInserted(info0, kv0, mInfoInc, startIdx, startIdx, 0, kv0[startIdx]);
      var idx: nat := startIdx;
      while idx != ins
        invariant ins <= idx <= startIdx
        invariant mKeyVals[..] == Inserted(kv0, idx, startIdx, kv0[idx])
        invariant mInfo[..] == info0 && mMaxNumElementsAllowed == old(mMaxNumElementsAllowed)
      {
        ShiftsOn(kv0, idx, startIdx);
        moveUp(idx);
        idx := idx - 1;
      }
      shiftInfoUp(startIdx, ins);
    }

    method moveUp(idx: nat)
      requires 0 < idx < Cap()
      modifies mKeyVals
      ensures mKeyVals[..] == old(mKeyVals[..])[idx := old(mKeyVals[..])[idx - 1]]
    {
      mKeyVals[idx] := mKeyVals[idx - 1];
    }

    // shiftUp's second loop.
    method shiftInfoUp(startIdx: nat, ins: nat)
      requires ins < startIdx < Cap() < mInfo.Length
      requires forall i :: ins <= i < startIdx ==> 0 <= mInfo[..][i] && mInfo[..][i] + mInfoInc <= 255
      modifies mInfo, `mMaxNumElementsAllowed
      ensures mInfo[..] == InsertedInfo(old(mInfo[..]), mInfoInc, ins, startIdx, old(mInfo[ins]))
      ensures mMaxNumElementsAllowed
                == if RoomForTwo(mInfoInc, old(mInfo[..]), ins, startIdx) then old(mMaxNumElementsAllowed) else 0
    {
      ghost var info0, inc := mInfo[..], mInfoInc;
      NothingShifted(info0, inc, startIdx);
      var idx: nat := startIdx;
      while idx != ins
        invariant ins <= idx <= startIdx && mInfoInc == inc && RaisedFrom(info0, inc, idx, startIdx)
        invariant mMaxNumElementsAllowed
                    == if RoomForTwo(inc, info0, idx, startIdx) then old(mMaxNumElementsAllowed) else 0
      {
        RoomForTwoOn(inc, info0, idx, startIdx);
        raiseNext(info0, idx, idx - 1, startIdx, inc);
        idx := idx - 1;
      }
    }

    // The bytes behind idx are raised.
    ghost predicate RaisedFrom(info0: seq<int>, inc: nat, idx: nat, startIdx: nat)
      reads this, mInfo
    {
      idx <= startIdx < mInfo.Length == |info0| && mInfo[..] == InsertedInfo(info0, inc, idx, startIdx, info0[idx])
    }

    method raiseNext(ghost info0: seq<int>, idx: nat, ghost next: nat, ghost startIdx: nat, ghost inc: nat)
      requires 0 < idx == next + 1 && RaisedFrom(info0, inc, idx, startIdx) && mInfoInc == inc
      requires 0 <= info0[next] && info0[next] + inc <= 255
      modifies mInfo, `mMaxNumElementsAllowed
      ensures RaisedFrom(info0, inc, next, startIdx)
      ensures mMaxNumElementsAllowed == if info0[next] + inc + inc <= 255 then old(mMaxNumElementsAllowed) else 0
    {
      ShiftsInfoOn(info0, inc, idx, startIdx);
      raise(idx);
    }

    // One turn of that loop.
    method raise(idx: nat)
      requires 0 < idx < mInfo.Length && 0 <= mInfo[..][idx - 1] && mInfo[..][idx - 1] + mInfoInc <= 255
      modifies mInfo, `mMaxNumElementsAllowed
      ensures mInfo[..] == old(mInfo[..])[idx := old(mInfo[..])[idx - 1] + old(mInfoInc)]
      ensures mMaxNumElementsAllowed ==
        if old(mInfo[..])[idx - 1] + old(mInfoInc) + old(mInfoInc) > 255 then 0 else old(mMaxNumElementsAllowed)
    {
      mInfo[idx] := U8(mInfo[idx - 1] + mInfoInc);
      if mInfo[idx] + mInfoInc > 0xff {
        mMaxNumElementsAllowed := 0;
      }
    }

    // ---- running out of probe distance ----

    // One turn of try_increase_info's loop: a 64-bit load, the masked shift, and the store.
    method halveWordAt(i: nat)
      requires i + 8 <= mInfo.Length
      requires forall k :: i <= k < i + 8 ==> 0 <= mInfo[k] <= 255
      modifies mInfo
      ensures forall k :: 0 <= k < mInfo.Length ==>
                            mInfo[k] == if i <= k < i + 8 then old(mInfo[k]) / 2 else old(mInfo[k])
    {
      var b: seq<nat> := mInfo[i..i + 8];
      HalveEight(b);
      var bytes := Store(HalveWord(Load(b)), 8);
      assert forall k :: 0 <= k < 8 ==> bytes[k] == b[k] / 2;
      forall k | i <= k < i + 8 {
        mInfo[k] := bytes[k - i];
      }
    }

    method try_increase_info(ghost m: map<K, V>, ghost o: Outlook) returns (ok: bool)
      requires Awaits(m, o) && mMask != 0
      modifies mInfo, `mInfoInc, `mInfoHashShift, `mMaxNumElementsAllowed
      ensures Valid() && Contents() == m
      ensures ok <==> old(mInfoInc) > 2
      ensures ok ==> mMaxNumElementsAllowed == Limit()
      ensures ok ==> mInfoInc == old(mInfoInc) / 2 && mInfoHashShift == old(mInfoHashShift) + 1
      ensures ok ==> mInfo[..] == HalvedInfo(old(mInfo[..]), Cap())
      ensures !ok ==> Awaits(m, o) && unchanged(this, mInfo)
    {
      if mInfoInc <= 2 {
        return false;
      }
      giveBit(m, P(), mInfo[..], mKeyVals[..]);
      ok := true;
    }

    // One hash bit less in every byte.
    method giveBit(ghost m: map<K, V>, ghost p: Params<K>, ghost info0: seq<int>, ghost kv0: seq<Slot<K, V>>)
      requires Valid() && mMask != 0 && mInfoInc > 2
      requires Contents() == m && P() == p && mInfo[..] == info0 && mKeyVals[..] == kv0
      modifies mInfo, `mInfoInc, `mInfoHashShift, `mMaxNumElementsAllowed
      ensures Valid() && Contents() == m && P() == p.(inc := p.inc / 2, shift := p.shift + 1)
      ensures mMaxNumElementsAllowed == Limit() && mInfo[..] == HalvedInfo(info0, Cap())
    {
      HalveStep(p, info0, kv0);
      BytesFit(p, info0, kv0);
      narrow();
      assert mKeyVals[..] == kv0 && P() == p.(inc := p.inc / 2, shift := p.shift + 1);
    }

    method narrow()
      requires Cap() + 8 == mInfo.Length && Cap() > 0 && mInfo[Cap()] == 1
      requires forall k :: 0 <= k < mInfo.Length ==> 0 <= mInfo[k] <= 255
      requires forall k :: Cap() < k < mInfo.Length ==> mInfo[k] == 0
      modifies mInfo, `mInfoInc, `mInfoHashShift, `mMaxNumElementsAllowed
      ensures mInfoInc == old(mInfoInc) / 2 && mInfoHashShift == old(mInfoHashShift) + 1
      ensures mMaxNumElementsAllowed == CalcMaxNumElementsAllowed(mMask + 1)
      ensures mInfo[..] == HalvedInfo(old(mInfo[..]), Cap())
    {
      mInfoInc := mInfoInc / 2;
      mInfoHashShift := mInfoHashShift + 1;
      halveAll();
      mMaxNumElementsAllowed := CalcMaxNumElementsAllowed(mMask + 1);
    }

    method halveAll()
      requires Cap() + 8 == mInfo.Length && Cap() > 0 && mInfo[Cap()] == 1
      requires forall k :: 0 <= k < mInfo.Length ==> 0 <= mInfo[k] <= 255
      requires forall k :: Cap() < k < mInfo.Length ==> mInfo[k] == 0
      modifies mInfo
      ensures mInfo[..] == HalvedInfo(old(mInfo[..]), Cap())
    {
      ghost var info0 := mInfo[..];
      var numElementsWithBuffer := mKeyVals.Length;
      var i: nat := 0;
      while i < numElementsWithBuffer
        invariant 0 <= i <= numElementsWithBuffer + 7
        invariant forall k :: 0 <= k < i ==> mInfo[k] == info0[k] / 2
        invariant forall k :: i <= k < mInfo.Length ==> mInfo[k] == info0[k]
      {
        assert forall k :: i <= k < i + 8 ==> mInfo[k] == info0[k];
        halveWordAt(i);
        i := i + 8;
      }
      mInfo[numElementsWithBuffer] := 1;
      assert mInfo[..] == HalvedInfo(info0, Cap());
    }

    // ---- growth ----

    method allocate(cap: nat) returns (kv: array<Slot<K, V>>, info: array<int>)
      ensures fresh(kv) && fresh(info) && kv.Length == cap && info.Length == cap + 8
      ensures forall i :: 0 <= i < info.Length ==> info[i] == if i == cap then 1 else 0
    {
      kv := new Slot<K, V>[cap](_ => Vacant);
      info := new int[cap + 8](_ => 0);
      info[cap] := 1;
    }

    method initData(max_elements: nat)
      requires max_elements >= INITIAL_NUM_ELEMENTS && IsPow2(max_elements)
      modifies this
      ensures Valid() && Contents() == map[] && fresh(mInfo) && fresh(mKeyVals)
      ensures mMask == max_elements - 1 && mHashMultiplier == old(mHashMultiplier) && mNumElements == 0
      ensures mMaxNumElementsAllowed > 0
    {
      Doubled(max_elements, max_elements * 2);
      var kv, info := allocate(CalcNumElementsWithBuffer(max_elements));
      ghost var p := Params(mix, mHashMultiplier, max_elements, INITIAL_INFO_INC, 0);
      EmptyIsCoherent(p, info[..], kv[..]);
      mNumElements := 0;
      mMask := max_elements - 1;
      mMaxNumElementsAllowed := CalcMaxNumElementsAllowed(max_elements);
      ghost var info0, kv0 := info[..], kv[..];
      mKeyVals, mInfo, mInfoInc, mInfoHashShift := kv, info, INITIAL_INFO_INC, 0;
      assert mInfo[..] == info0 && mKeyVals[..] == kv0 && P() == p;
    }

    // insert_move's "skip forward": the key is known to be absent.
    method skipForward(key: K) returns (idx: nat, info: nat)
      requires Valid() && key !in Contents()
      ensures Sought(key, idx, info) && info > mInfo[idx]
    {
      idx, info := keyToIdx(key);
      ProbeStarts(P(), mInfo[..], mKeyVals[..], key);
      while info <= mInfo[idx]
        invariant Sought(key, idx, info)
        decreases Cap() - idx
      {
        idx, info := skipOne(key, idx, info);
      }
    }

    method skipOne(key: K, at: nat, byte: nat) returns (idx: nat, info: nat)
      requires Valid() && key !in Contents() && Sought(key, at, byte) && byte <= mInfo[at]
      ensures idx == at + 1 && at < Cap() && Sought(key, idx, info)
    {
      ProbeGoesOn(P(), mInfo[..], mKeyVals[..], key, at, byte);
      StoredSlot(P(), mInfo[..], mKeyVals[..], at);
      SeekAdvances(P(), mInfo[..], mKeyVals[..], key, at, byte);
      idx, info := at + 1, byte + mInfoInc;
    }

    // False stands for the thrown overflow error: no byte has room, and no hash bit is left to give
    // up.
    method insert_move(key: K, v: V) returns (ok: bool)
      requires Valid() && mMask != 0 && key !in Contents() && mNumElements < Limit()
      modifies this, mInfo, mKeyVals
      ensures Valid() && Kept(old(mInfo), old(mKeyVals), old(mMask), old(mHashMultiplier))
      ensures ok <==> old(mMaxNumElementsAllowed > 0 || mInfoInc > 2)
      ensures Contents() == if ok then old(Contents())[key := v] else old(Contents())
      ensures ok ==> FlagFits()
    {
      ghost var m := Contents();
      ok := keepRoom(m);
      if ok { insertAbsent(key, v, m); }
    }

    ghost predicate Kept(info: array<int>, keyVals: array<Slot<K, V>>, mask: nat, mult: bv64)
      reads this
    {
      mInfo == info && mKeyVals == keyVals && mMask == mask && mHashMultiplier == mult
    }

    method keepRoom(ghost m: map<K, V>) returns (ok: bool)
      requires Valid() && mMask != 0 && Contents() == m
      modifies mInfo, `mInfoInc, `mInfoHashShift, `mMaxNumElementsAllowed
      ensures Valid() && Contents() == m
      ensures ok ==> mMaxNumElementsAllowed == Limit()
      ensures ok <==> old(mMaxNumElementsAllowed > 0 || mInfoInc > 2)
    {
      ok := true;
      if 0 == mMaxNumElementsAllowed {
        ok := try_increase_info(m, Prospect());
      }
    }

    method insertAbsent(key: K, v: V, ghost m: map<K, V>)
      requires Valid() && mMask != 0 && key !in m && mNumElements < mMaxNumElementsAllowed && Contents() == m
      modifies mInfo, mKeyVals, `mMaxNumElementsAllowed, `mNumElements
      ensures Valid() && Contents() == m[key := v] && FlagFits()
    {
      var idx, info := skipForward(key);
      var free := prepareAt(key, idx, info, v, m);
      putNode(idx, key, v, m[key := v]);
    }

    // ---- when an insertion can fail ----

    // The table is stuck if and only if its keys are too near.
    lemma StuckIsDense()
      requires Valid() && FlagFits()
      ensures Stuck() <==> Dense(mix, mHashMultiplier, mMask + 1, Contents().Keys)
    {
      DenseIsFull(P(), mInfo[..], mKeyVals[..]);
    }

    // Keys that are not too near now, nor with twice the home slots, do not need a new multiplier.
    lemma {:induction false} SparseIsHopeful(keys: set<K>)
      requires Valid() && FlagFits() && mMask != 0 && Contents().Keys == keys
      requires !Dense(mix, mHashMultiplier, mMask + 1, keys) && !Dense(mix, mHashMultiplier, 2 * (mMask + 1), keys)
      ensures Hopeful() && GrownMultiplier() == mHashMultiplier
    {
      StuckIsDense();
      if Growths() == 2 { RoomyGrows(); }
    }

    lemma RoomyGrows()
      requires Valid() && !Stuck() && Growths() == 2
      ensures mNumElements >= Limit()
    {
    }

    lemma InUse(k: K)
      requires Valid() && k in Contents()
      ensures mMask != 0 && IsPow2(mMask + 1) && mMask + 1 >= 8
    {
      assert |Contents()| > 0;
    }

    // 127 keys with one hash are.
    lemma CrowdHasNone()
      requires Valid() && Crowded(mix, Contents())
      ensures mMaxNumElementsAllowed == 0 && mInfoInc == 2 && mMask != 0
    {
      CrowdHasNoRoom(P(), mInfo[..], mKeyVals[..]);
    }

    // Moving the slots to so many home slots under a multiplier throws.
    ghost predicate Halts(mult: bv64, n: nat)
      reads this, mInfo, mKeyVals
    {
      mKeyVals.Length <= mInfo.Length && Stops(mix, mult, n, mInfo[..], mKeyVals[..])
    }

    // What a rehash leaves of the contents m: all of them, or, after the overflow error that is
    // thrown half-way, those moved before.
    ghost predicate Rehashed(ok: bool, m: map<K, V>)
      reads this, mInfo, mKeyVals
    {
      && Valid() && (|m| <= 127 ==> ok)
      && if ok then Contents() == m && FlagFits() else StrictPart(Contents(), m)
    }

    // halts says whether the move meets a key behind keys that are too near.
    method rehashPowerOfTwo(numBuckets: nat, ghost info0: seq<int>, ghost kv0: seq<Slot<K, V>>, ghost halts: bool)
      returns (ok: bool)
      requires mInfo[..] == info0 && mKeyVals[..] == kv0 && Movable(mMask, info0, kv0)
      requires numBuckets >= INITIAL_NUM_ELEMENTS && IsPow2(numBuckets)
      requires |RobinHoodLayout.Contents(info0, kv0)| <= CalcMaxNumElementsAllowed(numBuckets)
      requires halts == Stops(mix, mHashMultiplier, numBuckets, info0, kv0)
      modifies this
      ensures fresh(mInfo) && fresh(mKeyVals)
      ensures mMask == numBuckets - 1 && mHashMultiplier == old(mHashMultiplier)
      ensures Rehashed(ok, RobinHoodLayout.Contents(info0, kv0)) && (ok <==> !halts)
    {
      var oldKeyVals, oldInfo := mKeyVals, mInfo;
      var oldMaxElementsWithBuffer := CalcNumElementsWithBuffer(mMask + 1);
      initData(numBuckets);
      ok := true;
      if oldMaxElementsWithBuffer > 1 {
        ok := moveFrom(oldKeyVals, oldInfo, oldMaxElementsWithBuffer, info0, kv0, halts, mHashMultiplier, numBuckets);
      }
    }

    // The table holds m.
    ghost predicate Holding(m: map<K, V>, mult: bv64, n: nat)
      reads this, mInfo, mKeyVals
    {
      Valid() && FlagFits() && Contents() == m && mHashMultiplier == mult && mMask + 1 == n && mMask != 0
    }

    // It holds what was moved from the slots before slot i.
    ghost predicate Moving(mult: bv64, n: nat, info0: seq<int>, kv0: seq<Slot<K, V>>, i: nat, halts: bool)
      reads this, mInfo, mKeyVals
    {
      Planned(mix, mult, n, info0, kv0, i, halts) && Holding(MapOf(info0, kv0, i), mult, n)
    }

    // Into the empty table of the new size.
    method moveFrom(oldKeyVals: array<Slot<K, V>>, oldInfo: array<int>, oldMax: nat, ghost info0: seq<int>,
                    ghost kv0: seq<Slot<K, V>>, ghost halts: bool, ghost mult: bv64, ghost n: nat)
      returns (ok: bool)
      requires oldInfo[..] == info0 && oldKeyVals[..] == kv0 && oldKeyVals.Length == oldMax < oldInfo.Length
      requires oldKeyVals != mKeyVals && oldInfo != mInfo && Moving(mult, n, info0, kv0, 0, halts)
      modifies this, mInfo, mKeyVals
      ensures Kept(old(mInfo), old(mKeyVals), n - 1, mult)
      ensures Rehashed(ok, RobinHoodLayout.Contents(info0, kv0)) && (ok <==> !halts)
    {
      ok := moveAll(oldKeyVals, oldInfo, oldMax, info0, kv0, halts, mult, n);
      if ok { NeverStops(mix, mult, n, info0, kv0); }
    }

    method moveAll(oldKeyVals: array<Slot<K, V>>, oldInfo: array<int>, oldMax: nat,
                   ghost info0: seq<int>, ghost kv0: seq<Slot<K, V>>, ghost halts: bool, ghost mult: bv64, ghost n: nat)
      returns (ok: bool)
      requires oldInfo[..] == info0 && oldKeyVals[..] == kv0 && oldKeyVals.Length == oldMax < oldInfo.Length
      requires oldKeyVals != mKeyVals && oldInfo != mInfo && Moving(mult, n, info0, kv0, 0, halts)
      modifies this, mInfo, mKeyVals
      ensures Kept(old(mInfo), old(mKeyVals), n - 1, mult)
      ensures if ok then Moving(mult, n, info0, kv0, oldMax, halts)
              else halts && Rehashed(ok, RobinHoodLayout.Contents(info0, kv0))
    {
      var i: nat := 0;
      // The quantifier keeps the invariant in one piece for the verifier.
      while i < oldMax
        invariant i <= oldMax && Kept(old(mInfo), old(mKeyVals), n - 1, mult)
        invariant unchanged(oldInfo, oldKeyVals) && (exists k :: k == i && Moving(mult, n, info0, kv0, k, halts))
      {
        ok := moveSlot(oldKeyVals[i], oldInfo[i], info0, kv0, i, halts, mult, n);
        if !ok { return; }
        i := i + 1;
      }
      ok := true;
    }

    // One turn of that loop.
    method moveSlot(slot: Slot<K, V>, byte: int, ghost info0: seq<int>, ghost kv0: seq<Slot<K, V>>, ghost i: nat,
                    ghost halts: bool, ghost mult: bv64, ghost n: nat) returns (ok: bool)
      requires Moving(mult, n, info0, kv0, i, halts) && i < |kv0| && byte == info0[i] && slot == kv0[i]
      modifies this, mInfo, mKeyVals
      ensures Kept(old(mInfo), old(mKeyVals), n - 1, mult)
      ensures if ok then Moving(mult, n, info0, kv0, i + 1, halts)
              else halts && Rehashed(ok, RobinHoodLayout.Contents(info0, kv0))
    {
      ok := true;
      if byte == 0 {
        PlanSkips(mix, mult, n, info0, kv0, i, halts);
      } else {
        StuckIsDense();
        PlanNext(mix, mult, n, info0, kv0, i, halts, Contents(), Stuck());
        ok := insert_move(slot.key, slot.val);
      }
    }

    // No byte has room, and no hash bit is left to give up.
    ghost predicate Stuck()
      reads this
    {
      mMaxNumElementsAllowed == 0 && mInfoInc <= 2
    }

    method nextHashMultiplier()
      modifies `mHashMultiplier
      ensures mHashMultiplier == old(mHashMultiplier) + MULTIPLIER_STEP
    {
      mHashMultiplier := mHashMultiplier + MULTIPLIER_STEP;
    }

    ghost function Limit(): nat
      reads this
    {
      CalcMaxNumElementsAllowed(mMask + 1)
    }

    ghost function Growths(): nat
      reads this
    {
      if mNumElements < mMaxNumElementsAllowed then 0
      else if mMask == 0 || (mNumElements < Limit() && mInfoInc > 2) then 1
      else 2
    }

    // The multiplier and the number of home slots that the next growth leaves.
    ghost function GrownMultiplier(): bv64
      reads this
    {
      if Growths() <= 1 || mNumElements * 2 >= Limit() then mHashMultiplier else mHashMultiplier + MULTIPLIER_STEP
    }

    ghost function GrownSize(): nat
      reads this
    {
      if mNumElements * 2 < Limit() then mMask + 1 else 2 * (mMask + 1)
    }

    ghost predicate IsDoomed()
      reads this, mInfo, mKeyVals
    {
      mKeyVals.Length <= mInfo.Length && Doomed(mix, mInfo[..], mKeyVals[..])
    }

    ghost predicate Hopeful()
      reads this, mInfo, mKeyVals
      requires mKeyVals.Length <= mInfo.Length
    {
      Growths() <= 1 || !Dense(mix, GrownMultiplier(), GrownSize(), Contents().Keys)
    }

    ghost function Prospect(): Outlook
      reads this, mInfo, mKeyVals
      requires mKeyVals.Length <= mInfo.Length
    {
      var stops := Growths() == 2 && Halts(GrownMultiplier(), GrownSize());
      Outlook(Growths(), GrownMultiplier(), GrownSize(), Hopeful(), stops, IsDoomed())
    }

    lemma FewAreHopeful()
      requires Valid() && |Contents()| <= 126
      ensures Hopeful()
    {
      assert |Contents()| == |Contents().Keys|;
      if !Hopeful() { DenseIsLarge(mix, GrownMultiplier(), GrownSize(), Contents().Keys); }
    }

    lemma HopefulNeverStops()
      requires Valid() && Hopeful()
      ensures !Prospect().stops
    {
      if Prospect().stops { StopsIsDense(mix, GrownMultiplier(), GrownSize(), mInfo[..], mKeyVals[..]); }
    }

    lemma StopsNeedsMany()
      requires Valid() && Prospect().stops
      ensures |Contents()| >= 128
    {
      StopsIsLarge(mix, GrownMultiplier(), GrownSize(), mInfo[..], mKeyVals[..]);
    }

    lemma CrowdIsHopeless()
      requires Valid() && Crowded(mix, Contents())
      ensures !Hopeful() && Growths() == 2
    {
      CrowdHasNone();
      CrowdIsDense(mix, GrownMultiplier(), GrownSize(), Contents());
    }

    lemma DoomedIsHopeless()
      requires Valid() && IsDoomed()
      ensures Prospect().stops && Crowded(mix, Contents())
    {
      DoomedIsCrowded(mix, mInfo[..], mKeyVals[..]);
      CrowdIsHopeless();
      DoomedStops(mix, GrownMultiplier(), GrownSize(), mInfo[..], mKeyVals[..]);
    }

    // The table stands for m, and o is what lies ahead.
    ghost predicate Awaits(m: map<K, V>, o: Outlook)
      reads this, mInfo, mKeyVals
    {
      Valid() && Contents() == m && Prospect() == o
    }

    // What a growth leaves of the contents m.
    ghost predicate Grown(ok: bool, m: map<K, V>)
      reads this, mInfo, mKeyVals
    {
      Valid() && (|m| <= 127 ==> ok) && if ok then Contents() == m else StrictPart(Contents(), m)
    }

    // A rehash leaves so many home slots, and the flag right; any other growth makes room.
    ghost predicate Settled(o: Outlook)
      reads this, mInfo
    {
      if o.growths == 2 then mMask != 0 && mMask + 1 == o.size && FlagFits() else Growths() == 0
    }

    // How a growth ends, as foreseen.
    ghost predicate Foreseen(ok: bool, o: Outlook)
      reads this, mInfo
    {
      && (ok <==> !o.stops)
      && (ok ==> mHashMultiplier == o.mult && mNumElements < Limit() && Settled(o))
      && (o.hopeful ==> ok && Growths() < o.growths)
    }

    // False stands for a thrown overflow error.
    method increase_size(ghost m: map<K, V>, ghost o: Outlook) returns (ok: bool)
      requires Awaits(m, o) && mNumElements >= mMaxNumElementsAllowed
      modifies this, mInfo
      ensures mInfo == old(mInfo) || fresh(mInfo)
      ensures mKeyVals == old(mKeyVals) || fresh(mKeyVals)
      ensures Grown(ok, m) && Foreseen(ok, o)
      ensures ok ==> mMask >= old(mMask) && (old(mMask) == 0 ==> mMask + 1 == 8)
    {
      if 0 == mMask {
        allocateFirst(m, o);
        return true;
      }
      ok := growFurther(m, o);
    }

    method allocateFirst(ghost m: map<K, V>, ghost o: Outlook)
      requires Awaits(m, o) && mMask == 0
      modifies this
      ensures fresh(mInfo) && fresh(mKeyVals)
      ensures Valid() && Contents() == m && Foreseen(true, o) && mMask + 1 == 8
    {
      initData(INITIAL_NUM_ELEMENTS);
      assert CalcMaxNumElementsAllowed(INITIAL_NUM_ELEMENTS) == 6;
    }

    // increase_size once there is a table.
    method growFurther(ghost m: map<K, V>, ghost o: Outlook) returns (ok: bool)
      requires Awaits(m, o) && mNumElements >= mMaxNumElementsAllowed && mMask != 0
      modifies this, mInfo
      ensures mInfo == old(mInfo) || fresh(mInfo)
      ensures mKeyVals == old(mKeyVals) || fresh(mKeyVals)
      ensures Grown(ok, m) && Foreseen(ok, o)
      ensures ok ==> mMask >= old(mMask)
    {
      ok := tryIncrease(m, o);
      if ok {
        return;
      }
      ok := resize(m, o);
    }

    // The first test of increase_size.
    method tryIncrease(ghost m: map<K, V>, ghost o: Outlook) returns (ok: bool)
      requires Awaits(m, o) && mMask != 0 && mNumElements >= mMaxNumElementsAllowed
      modifies mInfo, `mInfoInc, `mInfoHashShift, `mMaxNumElementsAllowed
      ensures ok ==> Valid() && Contents() == m && Foreseen(true, o)
      ensures !ok ==> Awaits(m, o) && o.growths == 2
    {
      GrowsByHalving(m, o);
      ok := false;
      if mNumElements < CalcMaxNumElementsAllowed(mMask + 1) {
        ok := try_increase_info(m, o);
        if ok { HalvedIsForeseen(o); }
      }
    }

    lemma HalvedIsForeseen(o: Outlook)
      requires o.growths == 1 && o.mult == mHashMultiplier && !o.stops
      requires mNumElements < mMaxNumElementsAllowed == Limit()
      ensures Foreseen(true, o)
    {
    }

    lemma GrowsByHalving(m: map<K, V>, o: Outlook)
      requires Awaits(m, o) && mMask != 0 && mNumElements >= mMaxNumElementsAllowed
      ensures o.growths == if mNumElements < Limit() && mInfoInc > 2 then 1 else 2
      ensures o.growths == 1 ==> o.mult == mHashMultiplier && !o.stops
    {
    }

    method resize(ghost m: map<K, V>, ghost o: Outlook) returns (ok: bool)
      requires Awaits(m, o) && o.growths == 2
      modifies this
      ensures fresh(mInfo) && fresh(mKeyVals)
      ensures Grown(ok, m) && Foreseen(ok, o)
      ensures ok ==> mMask >= old(mMask)
    {
      if o.hopeful { HopefulNeverStops(); }
      ok := rehashOrDouble(m, o.mult, o.size, o.stops);
      RehashIsForeseen(m, o, ok);
    }

    lemma RehashIsForeseen(m: map<K, V>, o: Outlook, ok: bool)
      requires Rehashed(ok, m) && (ok <==> !o.stops) && o.growths == 2 && mMask != 0
      requires mHashMultiplier == o.mult && mMask + 1 == o.size && |m| < CalcMaxNumElementsAllowed(o.size)
      requires o.hopeful ==> ok && !Dense(mix, o.mult, o.size, m.Keys)
      ensures Grown(ok, m) && Foreseen(ok, o)
    {
      if ok {
        StuckIsDense();
        assert mNumElements == |m| < Limit();
      }
    }

    // The second test of increase_size.
    method rehashOrDouble(ghost m: map<K, V>, ghost mult: bv64, ghost n: nat, ghost halts: bool) returns (ok: bool)
      requires Valid() && Contents() == m && Growths() == 2 && mult == GrownMultiplier() && n == GrownSize()
      requires halts == Halts(mult, n)
      modifies this
      ensures fresh(mInfo) && fresh(mKeyVals)
      ensures Rehashed(ok, m) && (ok <==> !halts)
      ensures mMask + 1 == n >= old(mMask) + 1 && mHashMultiplier == mult && |m| < CalcMaxNumElementsAllowed(n)
    {
      var twice := (mMask + 1) * 2;
      Doubled(mMask + 1, twice);
      if mNumElements * 2 < CalcMaxNumElementsAllowed(mMask + 1) {
        ok := rehashInPlace(halts);
      } else {
        ok := moveTo(twice, halts);
      }
    }

    method moveTo(numBuckets: nat, ghost halts: bool) returns (ok: bool)
      requires Valid() && numBuckets >= INITIAL_NUM_ELEMENTS && IsPow2(numBuckets)
      requires mNumElements <= CalcMaxNumElementsAllowed(numBuckets) && halts == Halts(mHashMultiplier, numBuckets)
      modifies this
      ensures fresh(mInfo) && fresh(mKeyVals)
      ensures Rehashed(ok, old(Contents())) && (ok <==> !halts)
      ensures mMask == numBuckets - 1 && mHashMultiplier == old(mHashMultiplier)
    {
      ok := rehashPowerOfTwo(numBuckets, mInfo[..], mKeyVals[..], halts);
    }

    // Same size, next multiplier.
    method rehashInPlace(ghost halts: bool) returns (ok: bool)
      requires Valid() && mMask != 0 && halts == Halts(mHashMultiplier + MULTIPLIER_STEP, mMask + 1)
      modifies this
      ensures fresh(mInfo) && fresh(mKeyVals)
      ensures Rehashed(ok, old(Contents())) && (ok <==> !halts)
      ensures mMask == old(mMask) && mHashMultiplier == old(mHashMultiplier) + MULTIPLIER_STEP
    {
      ghost var info0, kv0 := mInfo[..], mKeyVals[..];
      nextHashMultiplier();
      ok := rehashPowerOfTwo(mMask + 1, info0, kv0, halts);
    }

    // What insertKeyPrepareEmptySpot leaves for its caller. An overflow error that was thrown in the
    // middle of a rehash has lost some of the bindings.
    ghost predicate Outcome(key: K, v: V, m: map<K, V>, idx: nat, state: InsertionState, intact: bool)
      reads this, mInfo, mKeyVals
    {
      match state
      case OverflowError => Valid() && key !in m && if intact then Contents() == m else StrictPart(Contents(), m)
      case KeyFound => Valid() && Contents() == m && Hit(key, idx) && key in m && intact
      case _ => key !in m && Prepared(idx, key, v, m[key := v]) && FlagFits() && intact
    }

    // Whether the insertion of an absent key fails: not if at most one rehash makes room, as for 126
    // keys or fewer; always if 127 keys share one hash. It loses bindings if that rehash throws, as
    // it does in a doomed table, and never with fewer than 128 keys.
    ghost predicate Expected(key: K, m: map<K, V>, o: Outlook, ok: bool, lost: bool)
      reads this
    {
      && (key in m || |m| <= 126 || o.hopeful ==> ok)
      && (key !in m && Crowded(mix, m) ==> !ok)
      && (lost ==> !ok && |m| >= 128)
      && (key !in m && (o.stops || o.doomed) ==> lost)
    }

    // What the first attempt decides, or a later one that throws.
    lemma AsExpected(key: K, m: map<K, V>, o: Outlook, done: bool, thrown: bool)
      requires Awaits(m, o) && (done <==> key in m || o.growths == 0) && (thrown <==> !done && o.stops)
      requires done || thrown
      ensures Expected(key, m, o, done, thrown)
    {
      if Crowded(mix, m) { CrowdIsHopeless(); }
      if o.doomed { DoomedIsHopeless(); }
      if o.hopeful { HopefulNeverStops(); }
      if |m| <= 126 { FewAreHopeful(); }
      if o.stops { StopsNeedsMany(); }
    }

    // One attempt: not done means the table has grown and is to be searched again; thrown that
    // the growth failed.
    method attempt(key: K, ghost v: V, ghost m: map<K, V>, ghost o: Outlook)
      returns (done: bool, thrown: bool, idx: nat, state: InsertionState)
      requires Awaits(m, o)
      modifies this, mInfo, mKeyVals
      ensures mInfo == old(mInfo) || fresh(mInfo)
      ensures mKeyVals == old(mKeyVals) || fresh(mKeyVals)
      ensures done <==> key in m || o.growths == 0
      ensures thrown <==> !done && o.stops
      ensures done ==> state != OverflowError && Outcome(key, v, m, idx, state, true)
      ensures done && key !in m ==> mHashMultiplier == o.mult
      ensures !done ==> Grown(!thrown, m) && Foreseen(!thrown, o)
      ensures done && key !in m ==> idx < old(mInfo.Length) && (state == NewNode <==> old(mInfo[..])[idx] == 0)
    {
      var found, at, info := seekSpot(key);
      idx := at;
      if found {
        return true, false, idx, KeyFound;
      }
      if mNumElements >= mMaxNumElementsAllowed {
        var ok := increase_size(m, o);
        return false, !ok, idx, OverflowError;
      }
      var free := prepareAt(key, idx, info, v, m);
      return true, false, idx, if free == idx then NewNode else OverwriteNode;
    }

    ghost function SettingNow(): Setting
      reads this
    {
      Setting(mHashMultiplier, mMask + 1)
    }

    // After a rehash, and others before it: the keys are still too near, and k decides the next one; or
    // they are not, and at most one halving is due.
    ghost predicate OnCourse(i: nat, m: map<K, V>, st: Setting, lasts: seq<K>)
      reads this, mInfo, mKeyVals
    {
      var d := |lasts|;
      && mKeyVals.Length <= mInfo.Length && Tried(mix, m.Keys, st, |m|, lasts)
      && if i == d then
           && d > 0 && Growths() == 2 && SettingNow() == SettingAfter(st, |m|, d)
           && Decides(mix, mInfo[..], mKeyVals[..], lasts[d - 1])
         else
           d < i <= d + 2 && !TooNear(mix, SettingAfter(st, |m|, d + 1), m.Keys) && Growths() + i <= d + 2
    }

    // A rehash that was not stopped.
    lemma RehashOnCourse(i: nat, m: map<K, V>, st: Setting, lasts: seq<K>) returns (lasts': seq<K>)
      requires Valid() && Contents() == m && FlagFits() && mMask != 0 && mNumElements < Limit()
      requires Tried(mix, m.Keys, st, |m|, lasts) && i == |lasts| + 1 && SettingNow() == SettingAfter(st, |m|, i)
      requires lasts != [] ==> !TooNear(mix, SettingNow(), m.Keys - {lasts[|lasts| - 1]})
      ensures OnCourse(i, m, st, lasts')
    {
      StuckIsDense();
      lasts' := lasts;
      if Stuck() {
        StuckIsFull();
        var k := LastDecides(P(), mInfo[..], mKeyVals[..]);
        lasts' := lasts + [k];
        TriedMore(mix, m.Keys, st, |m|, lasts, k);
      }
    }

    lemma StuckIsFull()
      requires Valid() && FlagFits() && Stuck()
      ensures P().inc == 2 && Contents() != map[]
    {
      StuckIsDense();
      DenseHasNoRoom(P(), mInfo[..], mKeyVals[..]);
      DenseIsLarge(mix, mHashMultiplier, mMask + 1, Contents().Keys);
    }

    // What the next growth is, while the keys are too near.
    lemma {:induction false} CourseGoesOn(i: nat, m: map<K, V>, o: Outlook, st: Setting, lasts: seq<K>)
      requires Awaits(m, o) && OnCourse(i, m, st, lasts) && o.growths == 2
      ensures i == |lasts| > 0 && Setting(o.mult, o.size) == SettingAfter(st, |m|, i + 1)
      ensures o.stops <==> TooNear(mix, Setting(o.mult, o.size), m.Keys - {lasts[|lasts| - 1]})
    {
      NextIsGrown();
      assert o.stops <==> Stops(mix, o.mult, o.size, mInfo[..], mKeyVals[..]);
      assert Stops(mix, o.mult, o.size, mInfo[..], mKeyVals[..])
        <==> Stops(mix, Setting(o.mult, o.size).mult, Setting(o.mult, o.size).n, mInfo[..], mKeyVals[..]);
    }

    lemma NextIsGrown()
      requires Valid() && Growths() == 2
      ensures NextSetting(SettingNow(), mNumElements) == Setting(GrownMultiplier(), GrownSize())
    {
    }

    // How an attempt ends the course.
    lemma CourseEnds(i: nat, m: map<K, V>, o: Outlook, st: Setting, lasts: seq<K>, ok: bool, lost: bool)
      requires i < ATTEMPTS && Awaits(m, o) && OnCourse(i, m, st, lasts)
      requires (ok <==> o.growths == 0) && (lost <==> o.stops) && (ok || lost)
      ensures Ends(mix, m.Keys, st, |m|, lasts, ok, lost)
    {
      if o.stops { CourseGoesOn(i, m, o, st, lasts); }
    }

    // What becomes of an absent key whose first growth is a rehash that is not stopped.
    ghost predicate Decided(key: K, m: map<K, V>, o: Outlook, st: Setting, ok: bool, lost: bool)
      reads this
    {
      key !in m && o.growths == 2 && !o.stops ==> exists lasts :: Ends(mix, m.Keys, st, |m|, lasts, ok, lost)
    }

    // The state before the attempt with this number, seen from that before the first.
    ghost predicate Trying(i: nat, key: K, m: map<K, V>, o: Outlook, st: Setting, lasts: seq<K>)
      reads this, mInfo, mKeyVals
    {
      && Valid() && Contents() == m && (i > 0 ==> key !in m)
      && (if i == 0 then Prospect() == o && SettingNow() == st && lasts == [] else !o.doomed && !o.stops)
      && (o.hopeful ==> i + Growths() <= 2 && Hopeful() && GrownMultiplier() == o.mult)
      && (i > 0 && o.growths == 2 ==> OnCourse(i, m, st, lasts))
    }

    // intact is false after an overflow error that was thrown in the middle of a rehash.
    method insertKeyPrepareEmptySpot(key: K, ghost v: V, ghost m: map<K, V>, ghost o: Outlook, ghost st: Setting)
      returns (idx: nat, state: InsertionState, intact: bool)
      requires Awaits(m, o) && SettingNow() == st
      modifies this, mInfo, mKeyVals
      ensures mInfo == old(mInfo) || fresh(mInfo)
      ensures mKeyVals == old(mKeyVals) || fresh(mKeyVals)
      ensures Outcome(key, v, m, idx, state, intact)
      ensures Expected(key, m, o, state != OverflowError, !intact)
      ensures Decided(key, m, o, st, state != OverflowError, !intact)
      ensures key !in m && o.hopeful ==> mHashMultiplier == o.mult
    {
      ghost var lasts := [];
      if |m| <= 126 { FewAreHopeful(); }
      if o.doomed { DoomedIsHopeless(); }
      for i := 0 to 256
        invariant mInfo == old(mInfo) || fresh(mInfo)
        invariant mKeyVals == old(mKeyVals) || fresh(mKeyVals)
        invariant Trying(i, key, m, o, st, lasts)
      {
        var done, thrown;
        done, thrown, idx, state, lasts := tryOnce(i, key, v, m, o, st, lasts);
        if done { return idx, state, true; }
        if thrown { return 0, OverflowError, false; }
      }
      GivenUp(key, m, o, st, lasts);
      return 0, OverflowError, true;
    }

    lemma GivenUp(key: K, m: map<K, V>, o: Outlook, st: Setting, lasts: seq<K>)
      requires Trying(ATTEMPTS, key, m, o, st, lasts) && (|m| <= 126 ==> o.hopeful) && (o.doomed ==> o.stops)
      ensures Expected(key, m, o, false, false) && Decided(key, m, o, st, false, false)
    {
      assert o.growths == 2 ==> Ends(mix, m.Keys, st, |m|, lasts, false, false);
    }

    // One turn of that loop.
    method tryOnce(ghost i: nat, key: K, ghost v: V, ghost m: map<K, V>, ghost o: Outlook, ghost st: Setting,
                   ghost lasts: seq<K>)
      returns (done: bool, thrown: bool, idx: nat, state: InsertionState, ghost lasts': seq<K>)
      requires i < ATTEMPTS && Trying(i, key, m, o, st, lasts) && (o.doomed ==> o.stops)
      modifies this, mInfo, mKeyVals
      ensures mInfo == old(mInfo) || fresh(mInfo)
      ensures mKeyVals == old(mKeyVals) || fresh(mKeyVals)
      ensures done ==> state != OverflowError && Outcome(key, v, m, idx, state, true)
      ensures done && key !in m && o.hopeful ==> mHashMultiplier == o.mult
      ensures thrown ==> !done && Valid() && key !in m && StrictPart(Contents(), m)
      ensures done || thrown ==> Expected(key, m, o, done, thrown) && Decided(key, m, o, st, done, thrown)
      ensures !done && !thrown ==> Trying(i + 1, key, m, o, st, lasts')
    {
      ghost var now := Prospect();
      ghost var placed := key in m || now.growths == 0;
      if placed || now.stops { AsExpected(key, m, now, placed, !placed); }
      Deciding(i, key, m, now, o, st, lasts, placed);
      done, thrown, idx, state := attempt(key, v, m, now);
      lasts' := lasts;
      if !done && !thrown && now.growths == 2 && o.growths == 2 { lasts' := RehashOnCourse(i + 1, m, st, lasts); }
    }

    // What is known of the course before an attempt.
    lemma Deciding(i: nat, key: K, m: map<K, V>, now: Outlook, o: Outlook, st: Setting, lasts: seq<K>, placed: bool)
      requires i < ATTEMPTS && Trying(i, key, m, o, st, lasts) && Awaits(m, now)
      requires (placed <==> key in m || now.growths == 0)
      ensures placed || now.stops ==> Decided(key, m, o, st, placed, !placed)
      ensures now.growths == 2 && o.growths == 2 ==>
                && i == |lasts| && Tried(mix, m.Keys, st, |m|, lasts)
                && Setting(now.mult, now.size) == SettingAfter(st, |m|, i + 1)
                && (i > 0 && !now.stops ==> !TooNear(mix, Setting(now.mult, now.size), m.Keys - {lasts[i - 1]}))
      ensures !placed && now.growths < 2 && o.growths == 2 ==>
                i == |lasts| + 1 && now.growths == 1 && !TooNear(mix, SettingAfter(st, |m|, i), m.Keys)
    {
      if i == 0 {
        if now.growths == 2 { NextIsGrown(); }
      } else if o.growths == 2 {
        if now.growths == 2 { CourseGoesOn(i, m, now, st, lasts); }
        if key !in m && (placed || now.stops) { CourseEnds(i, m, now, st, lasts, placed, !placed); }
      }
    }

    // ok is false when an overflow error was thrown; lost when that left a rehash half done.
    method emplace(key: K, v: V) returns (inserted: bool, ok: bool, lost: bool)
      requires Valid()
      modifies this, mInfo, mKeyVals
      ensures mInfo == old(mInfo) || fresh(mInfo)
      ensures mKeyVals == old(mKeyVals) || fresh(mKeyVals)
      ensures Valid()
      ensures ok ==> (inserted <==> key !in old(Contents()))
      ensures ok ==> Contents() == if inserted then old(Contents())[key := v] else old(Contents())
      ensures !ok ==> if lost then StrictPart(Contents(), old(Contents())) else Contents() == old(Contents())
      ensures Expected(key, old(Contents()), old(Prospect()), ok, lost)
      ensures Decided(key, old(Contents()), old(Prospect()), old(SettingNow()), ok, lost)
      ensures ok && inserted ==> FlagFits() && (old(Hopeful()) ==> mHashMultiplier == old(GrownMultiplier()))
    {
      ghost var m := Contents();
      var idx, state, intact := insertKeyPrepareEmptySpot(key, v, m, Prospect(), SettingNow());
      ok, lost, inserted := state != OverflowError, !intact, state != KeyFound;
      match state
      case OverflowError =>
      case KeyFound => StoredSlot(P(), mInfo[..], mKeyVals[..], idx);
      case _ => putNode(idx, key, v, m[key := v]);
    }

    method clear()
      requires Valid()
      modifies mInfo, `mNumElements, `mInfoInc, `mInfoHashShift
      ensures Valid() && Contents() == map[]
      ensures mMask == old(mMask)
    {
      if mNumElements == 0 {
        return;
      }
      ghost var p := P().(inc := INITIAL_INFO_INC, shift := 0);
      wipe();
      EmptyIsCoherent(p, mInfo[..], mKeyVals[..]);
      mNumElements := 0;
      mInfoInc := INITIAL_INFO_INC;
      mInfoHashShift := 0;
      assert P() == p;
    }

    // The info bytes of no slots, and the sentinel.
    method wipe()
      requires mInfo.Length == Cap() + 8 && Cap() == CalcNumElementsWithBuffer(mMask + 1)
      modifies mInfo
      ensures forall i :: 0 <= i < mInfo.Length ==> mInfo[..][i] == if i == Cap() then 1 else 0
    {
      var numElementsWithBuffer := CalcNumElementsWithBuffer(mMask + 1);
      forall i | 0 <= i < numElementsWithBuffer + 8 {
        mInfo[i] := 0;
      }
      mInfo[numElementsWithBuffer] := 1;
    }

    // reserve(c): false stands for a thrown overflow error, before anything is changed if no size_t
    // is large enough, and half-way through a rehash otherwise.
    method reserve(c: nat) returns (ok: bool, ghost newSize: nat)
      requires Valid()
      modifies this
      ensures mInfo == old(mInfo) || fresh(mInfo)
      ensures mKeyVals == old(mKeyVals) || fresh(mKeyVals)
      ensures var needed := if c > old(mNumElements) then c else old(mNumElements);
              if SomeSize(needed) then Grown(ok, old(Contents())) else !ok && Valid() && Contents() == old(Contents())
      ensures ok ==> c <= Limit()
      ensures newSize == 0 || LeastSize(newSize, if c > old(mNumElements) then c else old(mNumElements))
      ensures ok ==> mMask + 1 == if newSize > old(mMask) + 1 then newSize else old(mMask) + 1
      ensures ok <==> newSize != 0 && (newSize <= old(mMask) + 1 || !old(Halts(mHashMultiplier, newSize)))
    {
      var minElementsAllowed := if c > mNumElements then c else mNumElements;
      var size := sizeFor(minElementsAllowed);
      newSize := size;
      if size == 0 {
        return false, 0;
      }
      ok := growTo(size, minElementsAllowed, Halts(mHashMultiplier, size));
    }

    // The table is only moved to one that is larger.
    method growTo(newSize: nat, ghost needed: nat, ghost halts: bool) returns (ok: bool)
      requires Valid() && Suffices(newSize, needed) && mNumElements <= needed
      requires halts == Halts(mHashMultiplier, newSize)
      modifies this
      ensures mInfo == old(mInfo) || fresh(mInfo)
      ensures mKeyVals == old(mKeyVals) || fresh(mKeyVals)
      ensures Grown(ok, old(Contents())) && (ok ==> needed <= Limit())
      ensures ok <==> newSize <= old(mMask) + 1 || !halts
      ensures ok ==> mMask + 1 == if newSize > old(mMask) + 1 then newSize else old(mMask) + 1
    {
      if newSize > mMask + 1 {
        ok := moveTo(newSize, halts);
      } else {
        LargerAllowsMore(newSize, mMask + 1);
        ok := true;
      }
    }

    // The doubling loop of reserve: the least size that is large enough, or 0 when no size_t is.
    method sizeFor(minElementsAllowed: nat) returns (newSize: nat)
      ensures newSize == 0 <==> !SomeSize(minElementsAllowed)
      ensures newSize != 0 ==> LeastSize(newSize, minElementsAllowed)
    {
      newSize := INITIAL_NUM_ELEMENTS;
      while CalcMaxNumElementsAllowed(newSize) < minElementsAllowed && newSize != 0
        invariant newSize == 0 || (INITIAL_NUM_ELEMENTS <= newSize <= SIZE_MAX && IsPow2(newSize))
        invariant forall n: nat | Suffices(n, minElementsAllowed) :: 0 < newSize <= n
        decreases if newSize == 0 then 0 else SIZE_MAX + 1 - newSize
      {
        NextSize(newSize, minElementsAllowed);
        if newSize > SIZE_MAX / 2 {
          newSize := 0;  // a power of two that large wraps
        } else {
          Doubled(newSize, newSize * 2);
          newSize := newSize * 2;
        }
      }
      assert newSize != 0 ==> Suffices(newSize, minElementsAllowed);
    }
  }

  // A size_t that reserve can choose.
  ghost predicate Suffices(n: nat, minElementsAllowed: nat) {
    INITIAL_NUM_ELEMENTS <= n <= SIZE_MAX && IsPow2(n) && CalcMaxNumElementsAllowed(n) >= minElementsAllowed
  }

  ghost predicate LeastSize(n: nat, minElementsAllowed: nat) {
    Suffices(n, minElementsAllowed) && forall n': nat | Suffices(n', minElementsAllowed) :: n <= n'
  }

  ghost predicate SomeSize(minElementsAllowed: nat) {
    exists n: nat :: Suffices(n, minElementsAllowed)
  }

  // For 10000 elements that is 16384.
  lemma {:induction false} SizeFor10000(n: nat)
    requires LeastSize(n, 10000)
    ensures n == 16384 && CalcMaxNumElementsAllowed(n) == 13107
  {
    var below, least := PowersAround();
    assert Suffices(least, 10000);
    if n <= below { LargerAllowsMore(n, below); }
    NextSize(below, 10000);
  }

  lemma PowersAround() returns (below: nat, least: nat)
    ensures below == 8192 && least == 16384 && IsPow2(below) && IsPow2(least)
    ensures CalcMaxNumElementsAllowed(below) == 6553 && CalcMaxNumElementsAllowed(least) == 13107
  {
    below, least := 8192, 16384;
    PowerIsPow2(13);
    assert Power(13) == 8192;
    Doubled(below, least);
  }

  lemma {:induction false} NextSize(size: nat, minElementsAllowed: nat)
    requires IsPow2(size) && CalcMaxNumElementsAllowed(size) < minElementsAllowed
    ensures forall n: nat | Suffices(n, minElementsAllowed) && size <= n :: 2 * size <= n
  {
    forall n: nat | Suffices(n, minElementsAllowed) && size <= n
      ensures 2 * size <= n
    {
      Gap(size, n);
    }
  }

  // With one hash for all keys, 127 keys can be stored, and no further one, whichever it is.
  method FullOfOneHash<V>(hash: bv64, v: V) returns (table: Table<int, V>)
    ensures fresh(table) && fresh(table.mInfo) && fresh(table.mKeyVals)
    ensures table.Valid() && table.Contents().Keys == First(127)
    ensures Crowded(table.mix, table.Contents())
  {
    table := new Table<int, V>((k: int) => hash);
    ghost var mix := table.mix;
    for i := 0 to 127
      invariant fresh(table) && fresh(table.mInfo) && fresh(table.mKeyVals) && table.mix == mix
      invariant table.Valid() && table.Contents().Keys == First(i)
    {
      StoreNext(table, i, v);
    }
    assert Crowd(mix, table.Contents(), First(127));
  }

  method StoreNext<V>(table: Table<int, V>, i: nat, v: V)
    requires table.Valid() && i < 127 && table.Contents().Keys == First(i)
    modifies table, table.mInfo, table.mKeyVals
    ensures table.mInfo == old(table.mInfo) || fresh(table.mInfo)
    ensures table.mKeyVals == old(table.mKeyVals) || fresh(table.mKeyVals)
    ensures table.Valid() && table.Contents().Keys == First(i + 1)
  {
    FirstCard(table.Contents(), i);
    var inserted, ok, lost := table.emplace(i, v);
    assert First(i + 1) == First(i) + {i as int};
  }

  lemma {:induction false} FirstCard<V>(m: map<int, V>, n: nat)
    requires m.Keys == First(n)
    ensures |m| == n
  {
    assert |m| == |m.Keys|;
  }

  method OneTooMany<V>(hash: bv64, v: V, key: int) returns (table: Table<int, V>, ok: bool, lost: bool)
    requires !(0 <= key < 127)
    ensures !ok && !lost && table.Valid() && table.Contents().Keys == First(127)
  {
    table := FullOfOneHash(hash, v);
    FirstCard(table.Contents(), 127);
    var inserted;
    inserted, ok, lost := table.emplace(key, v);
  }

  // ---- a run that loses a binding ----

  // Key 127 has the hash 1, the keys of zeros have the hash 0.
  ghost predicate Filling<V>(m: map<int, V>, zeros: set<int>) {
    m.Keys == zeros + {127} && forall k | k in zeros :: 0 <= k < 127
  }

  ghost predicate Filled<V>(table: Table<int, V>, zeros: set<int>)
    reads table, table.mInfo, table.mKeyVals
  {
    && table.Valid() && table.FlagFits() && table.mHashMultiplier == kFirstMultiplier
    && MixesTwo(table.mix) && Filling(table.Contents(), zeros)
  }

  lemma FillingCard<V>(m: map<int, V>, zeros: set<int>)
    requires Filling(m, zeros)
    ensures |m.Keys| == |zeros| + 1
  {
    assert m.Keys == zeros + {127};
  }

  lemma {:induction false} FillingIsSparse<V>(mix: (int, bv64) -> nat, n: nat, m: map<int, V>, zeros: set<int>)
    requires IsPow2(n) && n >= 8 && Filling(m, zeros) && |zeros| < 127 && MixesTwo(mix)
    ensures !Dense(mix, kFirstMultiplier, n, m.Keys)
  {
    FillingCard(m, zeros);
    if Dense(mix, kFirstMultiplier, n, m.Keys) {
      DenseIsLarge(mix, kFirstMultiplier, n, m.Keys);
      var k := SomeOf(zeros);
      TwoAreNotDense(mix, n, m.Keys, k);
    }
  }

  // Another key with the hash 0 finds room without a new multiplier.
  lemma {:induction false} FilledIsHopeful<V>(table: Table<int, V>, zeros: set<int>)
    requires Filled(table, zeros) && |zeros| < 127
    ensures table.Hopeful() && table.GrownMultiplier() == kFirstMultiplier
  {
    table.InUse(127);
    Doubles(table.mMask + 1);
    FillingIsSparse(table.mix, table.mMask + 1, table.Contents(), zeros);
    FillingIsSparse(table.mix, 2 * (table.mMask + 1), table.Contents(), zeros);
    table.SparseIsHopeful(table.Contents().Keys);
  }

  method StoreZero<V>(table: Table<int, V>, key: int, v: V, ghost zeros: set<int>)
    requires Filled(table, zeros) && |zeros| < 127 && 0 <= key < 127 && key !in zeros
    modifies table, table.mInfo, table.mKeyVals
    ensures table.mInfo == old(table.mInfo) || fresh(table.mInfo)
    ensures table.mKeyVals == old(table.mKeyVals) || fresh(table.mKeyVals)
    ensures Filled(table, zeros + {key})
  {
    FilledIsHopeful(table, zeros);
    NextZero(table.Contents(), zeros, key, v);
    var inserted, ok, lost := table.emplace(key, v);
  }

  lemma NextZero<V>(m: map<int, V>, zeros: set<int>, key: int, v: V)
    requires Filling(m, zeros) && 0 <= key < 127 && key !in zeros
    ensures key !in m && Filling(m[key := v], zeros + {key})
  {
  }

  lemma {:induction false} FilledIsDoomed<V>(table: Table<int, V>, zeros: set<int>)
    requires Filled(table, zeros) && |zeros| == 127
    ensures table.IsDoomed() && 127 in table.Contents()
  {
    table.InUse(127);
    FillingIsDoomed(table.P(), table.mInfo[..], table.mKeyVals[..], zeros);
  }

  lemma {:induction false} FillingIsDoomed<V>(p: Params<int>, info: seq<int>, kv: seq<Slot<int, V>>, zeros: set<int>)
    requires Coherent(p, info, kv) && p.mult == kFirstMultiplier && MixesTwo(p.mix) && IsPow2(p.n) && p.n >= 8
    requires Filling(RobinHoodLayout.Contents(info, kv), zeros) && |zeros| == 127
    ensures Doomed(p.mix, info, kv)
  {
    ZerosCrowd(p.mix, p.n, RobinHoodLayout.Contents(info, kv), zeros);
    forall k | k in zeros
      ensures Home(p, k) == 0
    {
    }
    FirstHomeIsDoomed(p, info, kv, zeros, 127);
  }

  lemma {:induction false} ZerosCrowd<V>(mix: (int, bv64) -> nat, n: nat, m: map<int, V>, zeros: set<int>)
    requires MixesTwo(mix) && IsPow2(n) && n >= 8 && Filling(m, zeros) && |zeros| == 127
    ensures Crowd(mix, m, zeros) && 127 in m && forall k | k in zeros :: HomeOf(mix, kFirstMultiplier, n, k) == 0
    ensures HomeOf(mix, kFirstMultiplier, n, 127) > 0
  {
    TwoHomes(mix, n, 127);
    forall k | k in zeros
      ensures HomeOf(mix, kFirstMultiplier, n, k) == 0
    {
      TwoHomes(mix, n, k);
    }
    forall a, b, mult | a in zeros && b in zeros
      ensures mix(a, mult) == mix(b, mult)
    {
      MixedIs(a, mult);
      MixedIs(b, mult);
    }
  }

  method StoreFirst<V>(v: V) returns (table: Table<int, V>)
    ensures fresh(table) && fresh(table.mInfo) && fresh(table.mKeyVals) && Filled(table, {})
  {
    table := new Table<int, V>(TwoHashes);
    table.FewAreHopeful();
    var inserted, ok, lost := table.emplace(127, v);
  }

  method FillTwo<V>(v: V) returns (table: Table<int, V>, ghost zeros: set<int>)
    ensures fresh(table) && fresh(table.mInfo) && fresh(table.mKeyVals) && Filled(table, zeros) && |zeros| == 127
  {
    table := StoreFirst(v);
    zeros := {};
    for i := 0 to 127
      invariant fresh(table) && fresh(table.mInfo) && fresh(table.mKeyVals) && Filled(table, zeros)
      invariant |zeros| == i && forall k | k in zeros :: k < i
    {
      StoreZero(table, i, v, zeros);
      zeros := OneMoreZero(zeros, i);
    }
  }

  lemma OneMoreZero(zeros: set<int>, i: nat) returns (more: set<int>)
    requires |zeros| == i && forall k | k in zeros :: k < i
    ensures more == zeros + {i as int} && |more| == i + 1 && forall k | k in more :: k < i + 1
  {
    more := zeros + {i as int};
  }

  // After key 127 and 127 keys with the hash 0, any further key loses one.
  method LosesOne<V>(v: V, key: int) returns (table: Table<int, V>, lost: bool, ghost zeros: set<int>)
    requires !(0 <= key <= 127)
    ensures lost && table.Valid() && |zeros| == 127
    ensures table.Contents().Keys < zeros + {127}
  {
    table, zeros := FillTwo(v);
    FilledIsDoomed(table, zeros);
    assert table.Contents().Keys == zeros + {127};
    var inserted, ok;
    inserted, ok, lost := table.emplace(key, v);
  }
}
