// The course of an insertion for which one growth is not enough: the settings that the growths lead
// to, and what decides each of them.
module RobinHoodCourse {
  import opened RobinHoodLayout
  import opened RobinHoodSteps
  import opened RobinHoodBounds

  const ATTEMPTS := 256
  const MULTIPLIER_STEP: bv64 := 0xc4ceb9fe1a85ec54

  // Each multiplier differs from the last, and is odd like the first; this is the second.
  lemma NextMultiplier(mult: bv64)
    ensures mult + MULTIPLIER_STEP != mult
    ensures mult & 1 == 1 ==> (mult + MULTIPLIER_STEP) & 1 == 1
    ensures kFirstMultiplier & 1 == 1 && kFirstMultiplier + MULTIPLIER_STEP == 0x899d_73fc_350b_d8a7
  {
  }

  // The multiplier and the number of home slots.
  datatype Setting = Setting(mult: bv64, n: nat)

  // The second test of increase_size, for a table of so many elements.
  function NextSetting(st: Setting, size: nat): Setting {
    if 2 * size < CalcMaxNumElementsAllowed(st.n) then st.(mult := st.mult + MULTIPLIER_STEP) else st.(n := 2 * st.n)
  }

  function SettingAfter(st: Setting, size: nat, i: nat): Setting {
    if i == 0 then st else NextSetting(SettingAfter(st, size, i - 1), size)
  }

  ghost predicate TooNear<K(!new)>(mix: (K, bv64) -> nat, st: Setting, keys: set<K>) {
    Dense(mix, st.mult, st.n, keys)
  }

  lemma MoreAreNearer<K(!new)>(mix: (K, bv64) -> nat, st: Setting, keys: set<K>, more: set<K>)
    requires TooNear(mix, st, keys) && keys <= more
    ensures TooNear(mix, st, more)
  {
    var ks, a: nat, h: nat :| DenseAt(mix, st.mult, st.n, keys, ks, a, h);
    assert DenseAt(mix, st.mult, st.n, more, ks, a, h);
  }

  // ---- the last slot ----

  // No key is at home behind k.
  ghost predicate IsLast<K(!new)>(mix: (K, bv64) -> nat, st: Setting, keys: set<K>, k: K) {
    st.n > 0 && k in keys && forall k' | k' in keys :: HomeOf(mix, st.mult, st.n, k') <= HomeOf(mix, st.mult, st.n, k)
  }

  ghost predicate LastSlot<K(!new), V>(info: seq<int>, kv: seq<Slot<K, V>>, i: nat) {
    i < |kv| <= |info| && info[i] != 0 && forall j | i < j < |kv| :: info[j] == 0
  }

  lemma {:induction false} SomeLast<K(!new), V>(info: seq<int>, kv: seq<Slot<K, V>>, count: nat) returns (i: nat)
    requires count <= |kv| <= |info| && MapOf(info, kv, count) != map[] && forall j | count <= j < |kv| :: info[j] == 0
    ensures LastSlot(info, kv, i)
  {
    if info[count - 1] != 0 { i := count - 1; } else { i := SomeLast(info, kv, count - 1); }
  }

  lemma BehindAllHomes<K(!new), V>(p: Params<K>, info: seq<int>, kv: seq<Slot<K, V>>, i: nat, k: K)
    requires Coherent(p, info, kv) && p.inc == 2 && LastSlot(info, kv, i) && k in Contents(info, kv)
    ensures kv[i].Node? && Home(p, k) <= Home(p, kv[i].key)
  {
    var j := SlotOf(p, info, kv, k);
    var lo := RunStart(info, kv, i);
    HomesAscend(p, info, kv, lo, i, i);
    if j >= lo { HomesAscend(p, info, kv, lo, j, i); }
  }

  lemma {:induction false} KeysBefore<K(!new), V>(info: seq<int>, kv: seq<Slot<K, V>>, i: nat)
    requires Distinct(info, kv) && LastSlot(info, kv, i)
    ensures kv[i].Node? && kv[i].key in Contents(info, kv)
    ensures MapOf(info, kv, i).Keys == Contents(info, kv).Keys - {kv[i].key}
  {
    NextKeyIsNew(info, kv, i);
    NothingBehind(info, kv, i + 1);
    OneMoreKey(MapOf(info, kv, i), kv[i].key, kv[i].val);
  }

  lemma OneMoreKey<K, V>(m: map<K, V>, k: K, v: V)
    requires k !in m
    ensures m[k := v].Keys - {k} == m.Keys
  {
  }

  lemma {:induction false} NothingBehind<K(!new), V>(info: seq<int>, kv: seq<Slot<K, V>>, i: nat)
    requires i <= |kv| <= |info| && forall j | i <= j < |kv| :: info[j] == 0
    ensures MapOf(info, kv, i) == Contents(info, kv)
    decreases |kv| - i
  {
    if i < |kv| {
      NothingBehind(info, kv, i + 1);
    }
  }

  // A move of the slots is stopped by the key in the last slot or by none.
  lemma StopsAtLast<K(!new), V>(mix: (K, bv64) -> nat, info: seq<int>, kv: seq<Slot<K, V>>, i: nat, st: Setting)
    requires Distinct(info, kv) && LastSlot(info, kv, i)
    ensures kv[i].Node?
    ensures (Stops(mix, st.mult, st.n, info, kv) <==> TooNear(mix, st, Contents(info, kv).Keys - {kv[i].key}))
  {
    KeysBefore(info, kv, i);
    if Stops(mix, st.mult, st.n, info, kv) {
      var j: nat :| StopsAt(mix, st.mult, st.n, info, kv, j);
      MapOfKeysGrow(info, kv, j, i);
      MoreAreNearer(mix, st, MapOf(info, kv, j).Keys, MapOf(info, kv, i).Keys);
    }
    if TooNear(mix, st, MapOf(info, kv, i).Keys) { assert StopsAt(mix, st.mult, st.n, info, kv, i); }
  }

  // What decides the next move of the slots.
  ghost predicate Decides<K(!new), V>(mix: (K, bv64) -> nat, info: seq<int>, kv: seq<Slot<K, V>>, k: K)
    requires |kv| <= |info|
  {
    forall st: Setting ::
      Stops(mix, st.mult, st.n, info, kv) <==> TooNear(mix, st, Contents(info, kv).Keys - {k})
  }

  lemma LastDecides<K(!new), V>(p: Params<K>, info: seq<int>, kv: seq<Slot<K, V>>) returns (k: K)
    requires Coherent(p, info, kv) && p.inc == 2 && Contents(info, kv) != map[]
    ensures IsLast(p.mix, Setting(p.mult, p.n), Contents(info, kv).Keys, k) && Decides(p.mix, info, kv, k)
  {
    var i := SomeLast(info, kv, |kv|);
    KeysBefore(info, kv, i);
    k := kv[i].key;
    forall k' | k' in Contents(info, kv)
      ensures HomeOf(p.mix, p.mult, p.n, k') <= HomeOf(p.mix, p.mult, p.n, k)
    {
      BehindAllHomes(p, info, kv, i, k');
    }
    forall st: Setting
      ensures Stops(p.mix, st.mult, st.n, info, kv) <==> TooNear(p.mix, st, Contents(info, kv).Keys - {k})
    {
      StopsAtLast(p.mix, info, kv, i, st);
    }
  }

  // ---- the course ----

  // Growths that left the keys too near; lasts are the keys in the last slot after each of them. None
  // was stopped, that is each made the keys too near with the last key it moved.
  ghost predicate Tried<K(!new)>(mix: (K, bv64) -> nat, keys: set<K>, st: Setting, size: nat, lasts: seq<K>) {
    lasts == [] ||
      var d := |lasts| - 1;
      var now := SettingAfter(st, size, d + 1);
      && Tried(mix, keys, st, size, lasts[..d])
      && TooNear(mix, now, keys) && IsLast(mix, now, keys, lasts[d])
      && (d > 0 ==> !TooNear(mix, now, keys - {lasts[d - 1]}))
  }

  lemma {:induction false} TriedMore<K(!new)>(mix: (K, bv64) -> nat, keys: set<K>, st: Setting, size: nat,
                                              lasts: seq<K>, k: K)
    requires Tried(mix, keys, st, size, lasts)
    requires TooNear(mix, SettingAfter(st, size, |lasts| + 1), keys)
    requires IsLast(mix, SettingAfter(st, size, |lasts| + 1), keys, k)
    requires lasts != [] ==> !TooNear(mix, SettingAfter(st, size, |lasts| + 1), keys - {lasts[|lasts| - 1]})
    ensures Tried(mix, keys, st, size, lasts + [k])
  {
    assert (lasts + [k])[..|lasts|] == lasts;
  }

  // How it ends after such growths: the next one is stopped by the last key, or leaves the keys far
  // enough apart, or the attempts are used up. The last two attempts are one more halving, which may
  // be due, and the insertion.
  ghost predicate Ends<K(!new)>(mix: (K, bv64) -> nat, keys: set<K>, st: Setting, size: nat, lasts: seq<K>, ok: bool,
                                lost: bool) {
    var d := |lasts|;
    var next := SettingAfter(st, size, d + 1);
    && Tried(mix, keys, st, size, lasts)
    && (lost ==> !ok && 0 < d < 256 && TooNear(mix, next, keys - {lasts[d - 1]}))
    && (ok ==> d + 2 <= 256 && !TooNear(mix, next, keys))
    && (!ok && !lost ==> d == 256 || (d + 2 >= 256 && !TooNear(mix, next, keys)))
  }

  lemma {:induction false} TriedTooNear<K(!new)>(mix: (K, bv64) -> nat, keys: set<K>, st: Setting, size: nat,
                                                 lasts: seq<K>, i: nat)
    requires Tried(mix, keys, st, size, lasts) && 1 <= i <= |lasts|
    ensures TooNear(mix, SettingAfter(st, size, i), keys)
  {
    if i < |lasts| { TriedTooNear(mix, keys, st, size, lasts[..|lasts| - 1], i); }
  }

  // If the keys are too near under all the settings, the insertion fails; if they are not under one
  // that is reached in time, it succeeds, or one of the growths before is stopped.
  lemma {:induction false} FirstFitDecides<K(!new)>(mix: (K, bv64) -> nat, keys: set<K>, st: Setting, size: nat,
                                                    lasts: seq<K>, ok: bool, lost: bool)
    requires Ends(mix, keys, st, size, lasts, ok, lost)
    ensures (forall i: nat | 1 <= i < 256 :: TooNear(mix, SettingAfter(st, size, i), keys)) ==> !ok
    ensures (exists i: nat :: 1 <= i <= 256 - 2 && !TooNear(mix, SettingAfter(st, size, i), keys)) ==> ok || lost
  {
    if i: nat :| 1 <= i <= 256 - 2 && !TooNear(mix, SettingAfter(st, size, i), keys) {
      if i <= |lasts| { TriedTooNear(mix, keys, st, size, lasts, i); }
    }
  }
}
