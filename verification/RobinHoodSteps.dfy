// What one insertion, one erasure and one halving of the info bytes do to a table, and
// why each keeps it coherent and changes its contents by exactly one binding or none.
module RobinHoodSteps {
  import opened RobinHoodLayout
  import opened Words
  import opened Basics

  // ---- insertion: shiftUp of [ins, free) and the new byte at ins ----

  function InsertedInfo(info: seq<int>, inc: nat, ins: nat, free: nat, x: int): (r: seq<int>)
    requires ins <= free < |info|
  {
    seq(|info|, i requires 0 <= i < |info| =>
      if i == ins then x else if ins < i <= free then info[i - 1] + inc else info[i])
  }

  function Inserted<T>(s: seq<T>, ins: nat, free: nat, x: T): (r: seq<T>)
    requires ins <= free < |s|
  {
    seq(|s|, i requires 0 <= i < |s| => if i == ins then x else if ins < i <= free then s[i - 1] else s[i])
  }

  // The two loops of shiftUp, one slot further down.
  lemma NothingShifted(info: seq<int>, inc: nat, at: nat)
    requires at < |info|
    ensures InsertedInfo(info, inc, at, at, info[at]) == info
  {
  }

  lemma ShiftsInfoOn(info: seq<int>, inc: nat, idx: nat, free: nat)
    requires 0 < idx <= free < |info|
    ensures InsertedInfo(info, inc, idx, free, info[idx])[idx - 1] == info[idx - 1]
    ensures InsertedInfo(info, inc, idx, free, info[idx])[idx := info[idx - 1] + inc]
              == InsertedInfo(info, inc, idx - 1, free, info[idx - 1])
  {
  }

  lemma ShiftsOn<T>(s: seq<T>, idx: nat, free: nat)
    requires 0 < idx <= free < |s|
    ensures Inserted(s, idx, free, s[idx])[idx - 1] == s[idx - 1]
    ensures Inserted(s, idx, free, s[idx])[idx := s[idx - 1]] == Inserted(s, idx - 1, free, s[idx - 1])
  {
  }

  lemma OverwriteInserted<T>(info: seq<int>, s: seq<T>, inc: nat, ins: nat, free: nat, x: nat, y: T)
    requires ins <= free < |s| < |info|
    ensures InsertedInfo(info, inc, ins, free, info[ins])[ins := x] == InsertedInfo(info, inc, ins, free, x)
    ensures Inserted(s, ins, free, s[ins])[ins := y] == Inserted(s, ins, free, y)
    ensures ins == free ==> info == InsertedInfo(info, inc, ins, free, info[ins]) && s == Inserted(s, ins, free, s[ins])
  {
  }

  // Where insertKeyPrepareEmptySpot and insert_move put a new key.
  ghost predicate InsertSpot<K(!new), V>(p: Params<K>, info: seq<int>, kv: seq<Slot<K, V>>, key: K, ins: nat, free: nat)
    requires Coherent(p, info, kv)
  {
    && Home(p, key) <= ins <= free < |kv|
    && info[ins] < InfoAt(p, key, ins - Home(p, key))
    && (ins > Home(p, key) ==> info[ins - 1] + p.inc >= InfoAt(p, key, ins - Home(p, key)))
    && info[free] == 0
    && (forall i :: ins <= i < free ==> info[i] != 0)
  }

  // The table after the insertion, as its two arrays.
  ghost predicate After<K(!new), V>(p: Params<K>, info: seq<int>, kv: seq<Slot<K, V>>, key: K, v: V, ins: nat,
                                    free: nat, info': seq<int>, kv': seq<Slot<K, V>>)
    requires Ok(p) && Home(p, key) <= ins <= free < |kv| < |info|
  {
    info' == InsertedInfo(info, p.inc, ins, free, InfoAt(p, key, ins - Home(p, key)))
    && kv' == Inserted(kv, ins, free, Node(key, v))
  }

  lemma InsertKeepsSlots<K(!new), V>(p: Params<K>, info: seq<int>, kv: seq<Slot<K, V>>, key: K, v: V, ins: nat,
                                     free: nat, info': seq<int>, kv': seq<Slot<K, V>>)
    requires Coherent(p, info, kv) && InsertSpot(p, info, kv, key, ins, free) && Room(p.inc, info, |kv|)
    requires After(p, info, kv, key, v, ins, free, info', kv')
    ensures Sized(p, info', kv') && info'[|kv'|] == 1 && forall i :: |kv'| < i < |info'| ==> info'[i] == 0
    ensures forall i :: 0 <= i < |kv'| && info'[i] != 0 ==> SlotOk(p, info', kv', i)
  {
    forall i | 0 <= i < |kv'| && info'[i] != 0
      ensures SlotOk(p, info', kv', i)
    {
      InsertedSlot(p, info, kv, key, v, ins, free, info', kv', i);
    }
  }

  lemma InsertedSlot<K(!new), V>(p: Params<K>, info: seq<int>, kv: seq<Slot<K, V>>, key: K, v: V, ins: nat, free: nat,
                                 info': seq<int>, kv': seq<Slot<K, V>>, i: nat)
    requires Coherent(p, info, kv) && InsertSpot(p, info, kv, key, ins, free) && Room(p.inc, info, |kv|)
    requires After(p, info, kv, key, v, ins, free, info', kv') && i < |kv'| && info'[i] != 0
    ensures SlotOk(p, info', kv', i)
  {
    InfoRange(p, key, ins - Home(p, key));
    if i == ins {
      if ins > Home(p, key) { assert info[ins - 1] + p.inc <= 255; }
    } else if ins < i <= free {
      assert SlotOk(p, info, kv, i - 1);
    } else {
      assert SlotOk(p, info, kv, i);
    }
  }

  lemma InsertKeepsChain<K(!new), V>(p: Params<K>, info: seq<int>, kv: seq<Slot<K, V>>, key: K, v: V, ins: nat,
                                     free: nat, info': seq<int>, kv': seq<Slot<K, V>>)
    requires Coherent(p, info, kv) && InsertSpot(p, info, kv, key, ins, free)
    requires After(p, info, kv, key, v, ins, free, info', kv')
    ensures Chained(p.inc, info', |kv|)
  {
    var x := InfoAt(p, key, ins - Home(p, key));
    InfoRange(p, key, ins - Home(p, key));
    assert ins > 0 && x >= 2 * p.inc ==> info[ins - 1] + p.inc >= x;
    OccupiedIsPositive(p, info, kv, ins, free);
    InsertedIsChained(p.inc, info, |kv|, ins, free, x);
  }

  lemma OccupiedIsPositive<K(!new), V>(p: Params<K>, info: seq<int>, kv: seq<Slot<K, V>>, ins: nat, free: nat)
    requires Coherent(p, info, kv) && ins <= free < |kv| && forall i :: ins <= i < free ==> info[i] != 0
    ensures forall i: nat :: ins <= i < free ==> info[i] >= p.inc
  {
    forall i: nat | ins <= i < free
      ensures info[i] >= p.inc
    {
      assert SlotOk(p, info, kv, i);
      InfoRange(p, kv[i].key, i - Home(p, kv[i].key));
    }
  }

  lemma {:induction false} InsertedIsChained(inc: nat, info: seq<int>, cap: nat, ins: nat, free: nat, x: int)
    requires cap <= |info| && Chained(inc, info, cap) && ins <= free < cap && info[free] == 0 && info[ins] < x
    requires ins > 0 && x >= 2 * inc ==> info[ins - 1] + inc >= x
    requires forall i: nat :: ins <= i < free ==> info[i] >= inc
    ensures Chained(inc, InsertedInfo(info, inc, ins, free, x), cap)
  {
    forall i: nat | 0 < i < cap
      ensures Steady(inc, InsertedInfo(info, inc, ins, free, x), i)
    {
      assert Steady(inc, info, i);
      if ins + 1 < i <= free {
        assert Steady(inc, info, i - 1) && info[i - 2] >= inc;
      }
    }
  }

  // Slot i of the new table shows what slot From(ins, free, i) of the old one showed.
  function From(ins: nat, free: nat, i: nat): (r: nat)
    ensures r <= i
  {
    if ins < i <= free then i - 1 else i
  }

  function To(ins: nat, free: nat, i: nat): nat {
    if ins <= i < free then i + 1 else i
  }

  lemma InsertKeepsDistinct<K(!new), V>(info: seq<int>, kv: seq<Slot<K, V>>, inc: nat, key: K, v: V, ins: nat,
                                        free: nat, x: int, info': seq<int>, kv': seq<Slot<K, V>>)
    requires ins <= free < |kv| < |info| && info[free] == 0
    requires forall i :: 0 <= i < |kv| && info[i] != 0 ==> kv[i].Node? && kv[i].key != key
    requires forall i :: ins <= i < free ==> info[i] != 0
    requires Distinct(info, kv)
    requires info' == InsertedInfo(info, inc, ins, free, x) && kv' == Inserted(kv, ins, free, Node(key, v))
    ensures Distinct(info', kv')
  {
    forall i: nat, j: nat | i < j < |kv'|
      ensures Differ(info', kv', i, j)
    {
      var a, b := From(ins, free, i), From(ins, free, j);
      if i != ins && j != ins && info[a] != 0 && info[b] != 0 { Different(info, kv, a, b); }
    }
  }

  lemma InsertKeepsCoherent<K(!new), V>(p: Params<K>, info: seq<int>, kv: seq<Slot<K, V>>, key: K, v: V, ins: nat,
                                        free: nat, info': seq<int>, kv': seq<Slot<K, V>>)
    requires Coherent(p, info, kv) && InsertSpot(p, info, kv, key, ins, free) && Room(p.inc, info, |kv|)
    requires forall i :: 0 <= i < |kv| && info[i] != 0 ==> kv[i].key != key
    requires After(p, info, kv, key, v, ins, free, info', kv')
    ensures Coherent(p, info', kv')
  {
    InsertKeepsSlots(p, info, kv, key, v, ins, free, info', kv');
    InsertKeepsChain(p, info, kv, key, v, ins, free, info', kv');
    InsertKeepsDistinct(info, kv, p.inc, key, v, ins, free, InfoAt(p, key, ins - Home(p, key)), info', kv');
  }

  lemma InsertAddsBinding<K(!new), V>(info: seq<int>, kv: seq<Slot<K, V>>, inc: nat, m: map<K, V>, key: K, v: V,
                                      ins: nat, free: nat, x: nat, info': seq<int>, kv': seq<Slot<K, V>>)
    requires ins <= free < |kv| < |info| && info[free] == 0 && x != 0
    requires forall i :: ins <= i < free ==> info[i] != 0
    requires Represents(info, kv, |kv|, m) && key !in m
    requires forall i :: 0 <= i < |info| ==> info[i] >= 0
    requires info' == InsertedInfo(info, inc, ins, free, x) && kv' == Inserted(kv, ins, free, Node(key, v))
    ensures Represents(info', kv', |kv|, m[key := v])
  {
    var m' := m[key := v];
    forall k | k in m'
      ensures exists i :: 0 <= i < |kv| && info'[i] != 0 && kv'[i] == Node(k, m'[k])
    {
      if k == key {
        assert kv'[ins] == Node(k, m'[k]);
      } else {
        var i :| 0 <= i < |kv| && info[i] != 0 && kv[i] == Node(k, m[k]);
        var j := To(ins, free, i);
        assert info'[j] != 0 && kv'[j] == Node(k, m'[k]);
      }
    }
    forall i | 0 <= i < |kv| && info'[i] != 0
      ensures kv'[i].Node? && kv'[i].key in m' && m'[kv'[i].key] == kv'[i].val
    {
      if i != ins {
        assert info[From(ins, free, i)] != 0 && kv'[i] == kv[From(ins, free, i)];
      }
    }
  }

  lemma SeekEndsAtSpot<K(!new), V>(p: Params<K>, info: seq<int>, kv: seq<Slot<K, V>>, key: K, at: nat, byte: nat,
                                   free: nat)
    requires Seeking(p, info, kv, key, at, byte) && byte > info[at]
    requires at <= free < |kv| && info[free] == 0 && forall i :: at <= i < free ==> info[i] != 0
    ensures InsertSpot(p, info, kv, key, at, free)
    ensures forall i :: 0 <= i < |kv| && info[i] != 0 ==> kv[i].key != key
  {
    ProbeStops(p, info, kv, key, at, byte);
  }

  // The bytes of [lo, hi) leave room for two more steps.
  ghost predicate RoomForTwo(inc: nat, info: seq<int>, lo: nat, hi: nat)
    requires hi <= |info|
  {
    forall i :: lo <= i < hi ==> info[i] + inc + inc <= 255
  }

  lemma RoomForTwoOn(inc: nat, info: seq<int>, lo: nat, hi: nat)
    requires 0 < lo <= hi <= |info|
    ensures RoomForTwo(inc, info, lo - 1, hi) <==> info[lo - 1] + inc + inc <= 255 && RoomForTwo(inc, info, lo, hi)
  {
  }

  // Every byte keeps room for one more step unless the insertion raised the flag.
  lemma InsertKeepsRoom(info: seq<int>, inc: nat, cap: nat, ins: nat, free: nat, x: nat)
    requires ins <= free < cap < |info| && Room(inc, info, cap)
    ensures Room(inc, InsertedInfo(info, inc, ins, free, x), cap) <==>
              x + inc <= 255 && RoomForTwo(inc, info, ins, free)
  {
    var info' := InsertedInfo(info, inc, ins, free, x);
    if Room(inc, info', cap) {
      assert info'[ins] == x;
      forall i | ins <= i < free
        ensures info[i] + inc + inc <= 255
      {
        assert info'[i + 1] == info[i] + inc;
      }
    }
  }

  lemma InsertStep<K(!new), V>(p: Params<K>, info: seq<int>, kv: seq<Slot<K, V>>, key: K, v: V, ins: nat, free: nat,
                               info': seq<int>, kv': seq<Slot<K, V>>)
    requires Coherent(p, info, kv) && InsertSpot(p, info, kv, key, ins, free) && Room(p.inc, info, |kv|)
    requires forall i :: 0 <= i < |kv| && info[i] != 0 ==> kv[i].key != key
    requires After(p, info, kv, key, v, ins, free, info', kv')
    ensures Coherent(p, info', kv') && key !in Contents(info, kv)
    ensures Contents(info', kv') == Contents(info, kv)[key := v]
  {
    var m := Contents(info, kv);
    InsertKeepsCoherent(p, info, kv, key, v, ins, free, info', kv');
    AbsentKey(p, info, kv, key);
    assert Represents(info', kv', |kv|, m[key := v]) by {
      MapOfRepresents(info, kv, |kv|);
      BytesFit(p, info, kv);
      InfoRange(p, key, ins - Home(p, key));
      InsertAddsBinding(info, kv, p.inc, m, key, v, ins, free, InfoAt(p, key, ins - Home(p, key)), info', kv');
    }
    ContentsIs(info', kv', m[key := v]);
  }

  // ---- erasure: shiftDown of (idx, last] ----

  function ErasedInfo(info: seq<int>, inc: nat, idx: nat, last: nat): seq<int>
    requires idx <= last < |info|
  {
    seq(|info|, i requires 0 <= i < |info| =>
      if idx <= i < last then info[i + 1] - inc else if i == last then 0 else info[i])
  }

  function Erased<T>(s: seq<T>, idx: nat, last: nat, x: T): seq<T>
    requires idx <= last < |s|
  {
    seq(|s|, i requires 0 <= i < |s| => if idx <= i < last then s[i + 1] else if i == last then x else s[i])
  }

  // The slots of (idx, last] all sit off their home slot.
  ghost predicate Displaced(info: seq<int>, inc: nat, idx: nat, last: nat)
    requires last < |info|
  {
    forall i :: idx < i <= last ==> info[i] >= 2 * inc
  }

  ghost predicate EraseSpan(info: seq<int>, inc: nat, cap: nat, idx: nat, last: nat)
    requires cap < |info|
  {
    && idx <= last < cap && info[idx] != 0
    && Displaced(info, inc, idx, last)
    && info[last + 1] < 2 * inc
  }

  // shiftDown's info bytes with the slots of (at, idx] moved down and slot idx still to do.
  function DownInfo(info: seq<int>, inc: nat, at: nat, idx: nat): seq<int>
    requires at <= idx < |info|
  {
    seq(|info|, i requires 0 <= i < |info| => if at <= i < idx then info[i + 1] - inc else info[i])
  }

  lemma NothingMoved<T>(info: seq<int>, inc: nat, kv: seq<T>, at: nat, vacant: T)
    requires at < |info| && at < |kv| && kv[at] == vacant
    ensures DownInfo(info, inc, at, at) == info && Erased(kv, at, at, vacant) == kv
  {
  }

  lemma MovesInfoOn(info: seq<int>, inc: nat, at: nat, idx: nat, cur: seq<int>)
    requires at <= idx && idx + 1 < |info| && Displaced(info, inc, at, idx)
    requires cur == DownInfo(info, inc, at, idx) && cur[idx + 1] >= 2 * inc
    ensures cur[idx + 1] == info[idx + 1] && Displaced(info, inc, at, idx + 1)
    ensures cur[idx := cur[idx + 1] - inc] == DownInfo(info, inc, at, idx + 1)
  {
  }

  lemma MovesInfoEnd(info: seq<int>, inc: nat, cap: nat, at: nat, idx: nat, cur: seq<int>)
    requires at <= idx < cap < |info| && Displaced(info, inc, at, idx) && info[at] != 0
    requires cur == DownInfo(info, inc, at, idx) && cur[idx + 1] < 2 * inc
    ensures EraseSpan(info, inc, cap, at, idx)
    ensures cur[idx := 0] == ErasedInfo(info, inc, at, idx)
  {
  }

  lemma ErasedAgain<T>(s: seq<T>, at: nat, idx: nat, hole: T)
    requires at <= idx < |s|
    ensures Erased(s[at := hole], at, idx, hole)[idx := hole] == Erased(s, at, idx, hole)
    ensures Erased(s[at := hole], at, idx, hole) == Erased(s, at, idx, hole)
  {
  }

  lemma MovesOn<T>(s: seq<T>, at: nat, idx: nat, hole: T)
    requires at <= idx && idx + 1 < |s|
    ensures Erased(s, at, idx, hole)[idx + 1] == s[idx + 1]
    ensures Erased(s, at, idx, hole)[idx := s[idx + 1]][idx + 1 := hole] == Erased(s, at, idx + 1, hole)
  {
  }

  lemma EraseKeepsSlots<K(!new), V>(p: Params<K>, info: seq<int>, kv: seq<Slot<K, V>>, idx: nat, last: nat,
                                    info': seq<int>, kv': seq<Slot<K, V>>)
    requires Coherent(p, info, kv) && EraseSpan(info, p.inc, |kv|, idx, last)
    requires info' == ErasedInfo(info, p.inc, idx, last) && kv' == Erased(kv, idx, last, Vacant)
    ensures Sized(p, info', kv') && info'[|kv'|] == 1 && forall i :: |kv'| < i < |info'| ==> info'[i] == 0
    ensures forall i :: 0 <= i < |kv'| && info'[i] != 0 ==> SlotOk(p, info', kv', i)
  {
    forall i | 0 <= i < |kv'| && info'[i] != 0
      ensures SlotOk(p, info', kv', i)
    {
      if idx <= i < last {
        assert SlotOk(p, info, kv, i + 1);
        InfoRange(p, kv[i + 1].key, i + 1 - Home(p, kv[i + 1].key));
      } else {
        assert SlotOk(p, info, kv, i);
      }
    }
  }

  lemma EraseKeepsDistinct<K(!new), V>(info: seq<int>, kv: seq<Slot<K, V>>, inc: nat, idx: nat, last: nat,
                                       info': seq<int>, kv': seq<Slot<K, V>>)
    requires idx <= last < |kv| < |info|
    requires forall i :: idx <= i <= last ==> info[i] != 0
    requires forall i :: idx < i <= last ==> info[i] >= inc
    requires Distinct(info, kv)
    requires info' == ErasedInfo(info, inc, idx, last) && kv' == Erased(kv, idx, last, Vacant)
    ensures Distinct(info', kv')
  {
    forall i: nat, j: nat | i < j < |kv'|
      ensures Differ(info', kv', i, j)
    {
      var a, b := To(idx, last, i), To(idx, last, j);
      if info'[i] != 0 && info'[j] != 0 { Different(info, kv, a, b); }
    }
  }

  lemma EraseKeepsChain(info: seq<int>, inc: nat, cap: nat, idx: nat, last: nat, info': seq<int>)
    requires cap < |info| && EraseSpan(info, inc, cap, idx, last)
    requires Chained(inc, info, cap) && inc > 0
    requires info' == ErasedInfo(info, inc, idx, last)
    ensures Chained(inc, info', cap)
  {
    forall i: nat | 0 < i < cap
      ensures Steady(inc, info', i)
    {
      assert Steady(inc, info, i);
      if i < last { assert Steady(inc, info, i + 1); }
    }
  }

  lemma EraseKeepsCoherent<K(!new), V>(p: Params<K>, info: seq<int>, kv: seq<Slot<K, V>>, idx: nat, last: nat,
                                       info': seq<int>, kv': seq<Slot<K, V>>)
    requires Coherent(p, info, kv) && EraseSpan(info, p.inc, |kv|, idx, last)
    requires info' == ErasedInfo(info, p.inc, idx, last) && kv' == Erased(kv, idx, last, Vacant)
    ensures Coherent(p, info', kv')
  {
    EraseKeepsSlots(p, info, kv, idx, last, info', kv');
    EraseKeepsChain(info, p.inc, |kv|, idx, last, info');
    EraseKeepsDistinct(info, kv, p.inc, idx, last, info', kv');
  }

  // Slot i of the new table shows what slot To(idx, last, i) of the old one showed.
  lemma ErasedAt<K(!new), V>(info: seq<int>, kv: seq<Slot<K, V>>, inc: nat, idx: nat, last: nat, i: nat)
    requires idx <= last < |kv| < |info| && i < |kv|
    requires forall j :: idx < j <= last ==> info[j] > inc
    ensures ErasedInfo(info, inc, idx, last)[i] != 0 <==> i != last && info[To(idx, last, i)] != 0
    ensures i != last ==> Erased(kv, idx, last, Vacant)[i] == kv[To(idx, last, i)] && To(idx, last, i) != idx
    ensures i != idx ==> From(idx, last, i) != last && To(idx, last, From(idx, last, i)) == i
  {
  }

  lemma EraseDropsBinding<K(!new), V>(info: seq<int>, kv: seq<Slot<K, V>>, inc: nat, m: map<K, V>, idx: nat, last: nat,
                                      info': seq<int>, kv': seq<Slot<K, V>>)
    requires idx <= last < |kv| < |info|
    requires forall i :: idx <= i <= last ==> info[i] != 0
    requires forall i :: idx < i <= last ==> info[i] > inc
    requires Represents(info, kv, |kv|, m) && Distinct(info, kv)
    requires info' == ErasedInfo(info, inc, idx, last) && kv' == Erased(kv, idx, last, Vacant)
    ensures Represents(info', kv', |kv|, m - {kv[idx].key})
  {
    var m' := m - {kv[idx].key};
    forall k | k in m'
      ensures exists i :: 0 <= i < |kv| && info'[i] != 0 && kv'[i] == Node(k, m'[k])
    {
      var i :| 0 <= i < |kv| && info[i] != 0 && kv[i] == Node(k, m[k]);
      ErasedAt(info, kv, inc, idx, last, i);
      ErasedAt(info, kv, inc, idx, last, From(idx, last, i));
    }
    forall i | 0 <= i < |kv| && info'[i] != 0
      ensures kv'[i].Node? && kv'[i].key in m' && m'[kv'[i].key] == kv'[i].val
    {
      ErasedAt(info, kv, inc, idx, last, i);
      var a := To(idx, last, i);
      Different(info, kv, a, idx);
    }
  }

  lemma EraseKeepsRoom(info: seq<int>, inc: nat, cap: nat, idx: nat, last: nat)
    requires cap < |info| && EraseSpan(info, inc, cap, idx, last)
    ensures Room(inc, info, cap) && inc <= 255 ==> Room(inc, ErasedInfo(info, inc, idx, last), cap)
  {
  }

  lemma EraseStep<K(!new), V>(p: Params<K>, info: seq<int>, kv: seq<Slot<K, V>>, idx: nat, last: nat,
                              info': seq<int>, kv': seq<Slot<K, V>>)
    requires Coherent(p, info, kv) && EraseSpan(info, p.inc, |kv|, idx, last)
    requires info' == ErasedInfo(info, p.inc, idx, last) && kv' == Erased(kv, idx, last, Vacant)
    ensures Coherent(p, info', kv') && kv[idx].Node?
    ensures Contents(info', kv') == Contents(info, kv) - {kv[idx].key}
    ensures Room(p.inc, info, |kv|) ==> Room(p.inc, info', |kv|)
  {
    var m := Contents(info, kv);
    EraseKeepsCoherent(p, info, kv, idx, last, info', kv');
    assert Represents(info', kv', |kv|, m - {kv[idx].key}) by {
      MapOfRepresents(info, kv, |kv|);
      EraseDropsBinding(info, kv, p.inc, m, idx, last, info', kv');
    }
    ContentsIs(info', kv', m - {kv[idx].key});
    EraseKeepsRoom(info, p.inc, |kv|, idx, last);
  }

  // ---- try_increase_info: every byte halved, one hash bit given up ----

  function HalvedInfo(info: seq<int>, cap: nat): (r: seq<int>)
    requires cap < |info|
  {
    seq(|info|, i requires 0 <= i < |info| => if i < cap then info[i] / 2 else info[i])
  }

  lemma {:induction false} ShrSucc(x: nat, s: nat)
    ensures Shr(x, s + 1) == Shr(x, s) / 2
  {
    if s > 0 { ShrSucc(x / 2, s - 1); }
  }

  lemma {:induction false} InfoHalves<K(!new)>(p: Params<K>, k: K, d: nat)
    requires Ok(p) && p.inc > 2
    ensures InfoAt(p.(inc := p.inc / 2, shift := p.shift + 1), k, d) == InfoAt(p, k, d) / 2
  {
    ShrSucc(p.mix(k, p.mult) % 32, p.shift);
    if d > 0 { InfoHalves(p, k, d - 1); }
  }

  lemma HalvePreservesMeaning<K(!new), V>(p: Params<K>, info: seq<int>, kv: seq<Slot<K, V>>)
    requires Coherent(p, info, kv) && p.inc > 2
    ensures
      var p' := p.(inc := p.inc / 2, shift := p.shift + 1);
      var info' := HalvedInfo(info, |kv|);
      && Coherent(p', info', kv)
      && Room(p'.inc, info', |kv|)
      && (forall i :: 0 <= i < |kv| ==> (info[i] == 0 <==> info'[i] == 0))
  {
    var p', info' := p.(inc := p.inc / 2, shift := p.shift + 1), HalvedInfo(info, |kv|);
    assert InfoWidth(p'.inc, p'.shift);
    forall i: nat | i < |kv|
      ensures info[i] != 0 ==> SlotOk(p', info', kv, i)
      ensures info[i] == 0 <==> info'[i] == 0
      ensures info'[i] + p'.inc <= 255
    {
      HalvedSlot(p, info, kv, i);
    }
    forall i: nat | 0 < i < |kv|
      ensures Steady(p'.inc, info', i)
    {
      assert Steady(p.inc, info, i);
    }
    forall i: nat, j: nat | i < j < |kv|
      ensures Differ(info', kv, i, j)
    {
      if info[i] != 0 && info[j] != 0 { Different(info, kv, i, j); }
    }
  }

  lemma HalvedSlot<K(!new), V>(p: Params<K>, info: seq<int>, kv: seq<Slot<K, V>>, i: nat)
    requires Coherent(p, info, kv) && p.inc > 2 && i < |kv|
    ensures
      var p' := p.(inc := p.inc / 2, shift := p.shift + 1);
      var info' := HalvedInfo(info, |kv|);
      && (info[i] != 0 ==> SlotOk(p', info', kv, i))
      && (info[i] == 0 <==> info'[i] == 0)
      && info'[i] + p'.inc <= 255
  {
    if info[i] != 0 {
      assert SlotOk(p, info, kv, i);
      InfoHalves(p, kv[i].key, i - Home(p, kv[i].key));
      InfoRange(p, kv[i].key, i - Home(p, kv[i].key));
    }
  }

  lemma {:induction false} HalveKeepsBindings<K(!new), V>(info: seq<int>, info': seq<int>, kv: seq<Slot<K, V>>,
                                                          lim: nat)
    requires lim <= |kv| <= |info| == |info'|
    requires forall i :: 0 <= i < |kv| ==> (info[i] == 0 <==> info'[i] == 0)
    ensures MapOf(info', kv, lim) == MapOf(info, kv, lim)
  {
    if lim > 0 { HalveKeepsBindings(info, info', kv, lim - 1); }
  }

  lemma HalveStep<K(!new), V>(p: Params<K>, info: seq<int>, kv: seq<Slot<K, V>>)
    requires Coherent(p, info, kv) && p.inc > 2
    ensures
      var p' := p.(inc := p.inc / 2, shift := p.shift + 1);
      var info' := HalvedInfo(info, |kv|);
      && Coherent(p', info', kv) && Room(p'.inc, info', |kv|)
      && Contents(info', kv) == Contents(info, kv)
  {
    HalvePreservesMeaning(p, info, kv);
    HalveKeepsBindings(info, HalvedInfo(info, |kv|), kv, |kv|);
  }

  // ---- the overflow tail is long enough ----

  // The keys of a run of occupied slots are that many different keys.
  lemma {:induction false} RunOfKeys<K(!new), V>(p: Params<K>, info: seq<int>, kv: seq<Slot<K, V>>, lo: nat, hi: nat)
    returns (ks: set<K>)
    requires Coherent(p, info, kv) && lo <= hi <= |kv|
    requires forall i :: lo <= i < hi ==> info[i] != 0
    ensures |ks| == hi - lo && ks <= Contents(info, kv).Keys
    ensures forall k :: k in ks ==> exists i :: lo <= i < hi && kv[i].Node? && kv[i].key == k
    decreases hi - lo
  {
    if lo == hi {
      ks := {};
    } else {
      ks := RunOfKeys(p, info, kv, lo, hi - 1);
      StoredSlot(p, info, kv, hi - 1);
      forall i: nat | lo <= i < hi - 1
        ensures kv[i].Node? && kv[i].key != kv[hi - 1].key
      {
        Different(info, kv, i, hi - 1);
      }
      ks := ks + {kv[hi - 1].key};
    }
  }

  // The empty-spot scan ends inside the table: either fewer than the tail's length keys are
  // stored, or the tail is longer than any probe distance a byte can hold.
  lemma ScanStaysInside<K(!new), V>(p: Params<K>, info: seq<int>, kv: seq<Slot<K, V>>, home: nat)
    requires Coherent(p, info, kv)
    requires home < p.n && kv != []
    requires |Contents(info, kv)| < |kv| - p.n || |kv| - p.n >= 127
    ensures exists free :: home <= free < |kv| && info[free] == 0
  {
    if forall i :: home <= i < |kv| ==> info[i] != 0 {
      if |Contents(info, kv)| < |kv| - p.n {
        var ks := RunOfKeys(p, info, kv, p.n, |kv|);
        SubsetCard(ks, Contents(info, kv).Keys);
      } else {
        StoredByte(p, info, kv, |kv| - 1);
      }
    }
  }

  // ---- an empty table, and a rehash that carries the bindings over one by one ----

  lemma EmptyIsCoherent<K(!new), V>(p: Params<K>, info: seq<int>, kv: seq<Slot<K, V>>)
    requires Sized(p, info, kv) && kv != []
    requires forall i :: 0 <= i < |info| && i != |kv| ==> info[i] == 0
    requires info[|kv|] == 1
    ensures Coherent(p, info, kv) && Contents(info, kv) == map[] && Room(p.inc, info, |kv|)
  {
    MapOfRepresents(info, kv, |kv|);
    var m := Contents(info, kv);
    assert forall k :: k in m ==> false;
  }

  lemma {:induction false} MapOfGrows<K(!new), V>(info: seq<int>, kv: seq<Slot<K, V>>, i: nat, j: nat)
    requires i <= j <= |kv| <= |info|
    ensures |MapOf(info, kv, i)| <= |MapOf(info, kv, j)|
  {
    if i < j {
      MapOfGrows(info, kv, i, j - 1);
      SubsetCard(MapOf(info, kv, j - 1).Keys, MapOf(info, kv, j).Keys);
      assert |MapOf(info, kv, j - 1).Keys| == |MapOf(info, kv, j - 1)|;
      assert |MapOf(info, kv, j).Keys| == |MapOf(info, kv, j)|;
    }
  }

  // The key of slot i is not among the keys of the slots below it, so fewer than all are.
  lemma {:induction false} NextKeyIsNew<K(!new), V>(info: seq<int>, kv: seq<Slot<K, V>>, i: nat)
    requires i < |kv| <= |info| && info[i] != 0
    requires Distinct(info, kv)
    ensures kv[i].key !in MapOf(info, kv, i)
    ensures |MapOf(info, kv, i)| < |Contents(info, kv)|
  {
    MapOfRepresents(info, kv, i);
    var m := MapOf(info, kv, i);
    if kv[i].key in m {
      var j :| 0 <= j < i && info[j] != 0 && kv[j] == Node(kv[i].key, m[kv[i].key]);
      Different(info, kv, j, i);
    }
    assert |m[kv[i].key := kv[i].val]| == |m| + 1;
    MapOfGrows(info, kv, i + 1, |kv|);
  }
}
