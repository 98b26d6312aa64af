// The memory layout of robin_hood::detail::Table, as a value: one info byte per slot,
// an overflow tail instead of wrap-around, and a sentinel byte behind the last slot.
module RobinHoodLayout {
  import opened Words

  datatype Slot<K, V> = Vacant | Node(key: K, val: V)

  // What keyToIdx reads of the table: the mixed hash under a multiplier, the number of
  // home slots, the increment of one probe step and the shift of the hash bits.
  datatype Params<!K> = Params(mix: (K, bv64) -> nat, mult: bv64, n: nat, inc: nat, shift: nat)

  // The five (mInfoInc, mInfoHashShift) pairs that try_increase_info steps through.
  predicate InfoWidth(inc: nat, shift: nat) {
    (inc == 32 && shift == 0) || (inc == 16 && shift == 1) || (inc == 8 && shift == 2) ||
    (inc == 4 && shift == 3) || (inc == 2 && shift == 4)
  }

  predicate Ok<K(!new)>(p: Params<K>) {
    p.n > 0 && InfoWidth(p.inc, p.shift)
  }

  // *idx and the low part of *info in keyToIdx.
  function Home<K(!new)>(p: Params<K>, k: K): (h: nat)
    requires Ok(p)
    ensures h < p.n
  {
    (p.mix(k, p.mult) / 32) % p.n
  }

  function HashBits<K>(p: Params<K>, k: K): nat {
    Shr(p.mix(k, p.mult) % 32, p.shift)
  }

  // The info byte of key k stored d slots behind its home slot.
  function InfoAt<K>(p: Params<K>, k: K, d: nat): nat {
    if d == 0 then p.inc + HashBits(p, k) else InfoAt(p, k, d - 1) + p.inc
  }

  lemma {:induction false} InfoClosedForm<K>(p: Params<K>, k: K, d: nat)
    ensures InfoAt(p, k, d) == p.inc * (d + 1) + HashBits(p, k)
  {
    if d > 0 {
      InfoClosedForm(p, k, d - 1);
      assert p.inc * (d + 1) == p.inc * d + p.inc;
    }
  }

  lemma HashBitsFit<K(!new)>(p: Params<K>, k: K)
    requires Ok(p)
    ensures HashBits(p, k) < p.inc
  {
    var x := p.mix(k, p.mult) % 32;
    assert Shr(x, 1) == Shr(x / 2, 0) == x / 2;
    assert Shr(x, 2) == Shr(x / 2, 1) == Shr(x / 2 / 2, 0);
    assert Shr(x, 3) == Shr(x / 2, 2) == Shr(x / 2 / 2, 1) == Shr(x / 2 / 2 / 2, 0);
    assert Shr(x, 4) == Shr(x / 2, 3) == Shr(x / 2 / 2, 2) == Shr(x / 2 / 2 / 2, 1);
  }

  // A byte tells whether its key sits at home, and how far it can be from home.
  lemma {:induction false} InfoRange<K(!new)>(p: Params<K>, k: K, d: nat)
    requires Ok(p)
    ensures InfoAt(p, k, d) >= p.inc
    ensures InfoAt(p, k, d) >= 2 * p.inc <==> d > 0
    ensures InfoAt(p, k, d) >= 2 * (d + 1)
  {
    HashBitsFit(p, k);
    if d > 0 { InfoRange(p, k, d - 1); }
  }

  ghost predicate SlotOk<K(!new), V>(p: Params<K>, info: seq<int>, kv: seq<Slot<K, V>>, i: nat)
    requires Ok(p) && i < |info| && i < |kv|
  {
    kv[i].Node? && Home(p, kv[i].key) <= i && info[i] == InfoAt(p, kv[i].key, i - Home(p, kv[i].key)) && info[i] <= 255
  }

  ghost predicate Sized<K(!new), V>(p: Params<K>, info: seq<int>, kv: seq<Slot<K, V>>) {
    Ok(p) && |info| == |kv| + 8 && (if kv == [] then p.n == 1 else p.n <= |kv|)
  }

  // A chain never drops by more than one step: what makes the early exit of a probe right.
  ghost predicate Chained(inc: nat, info: seq<int>, cap: nat)
    requires cap <= |info|
  {
    forall i: nat :: 0 < i < cap ==> Steady(inc, info, i)
  }

  ghost predicate Steady(inc: nat, info: seq<int>, i: nat)
    requires 0 < i < |info|
  {
    info[i] >= 2 * inc ==> info[i - 1] + inc >= info[i]
  }

  // Occupied slots hold nodes, all with different keys.
  ghost predicate Distinct<K(!new), V>(info: seq<int>, kv: seq<Slot<K, V>>) {
    && |kv| <= |info|
    && (forall i: nat :: i < |kv| && info[i] != 0 ==> kv[i].Node?)
    && (forall i: nat, j: nat :: i < j < |kv| ==> Differ(info, kv, i, j))
  }

  ghost predicate Differ<K(!new), V>(info: seq<int>, kv: seq<Slot<K, V>>, i: nat, j: nat)
    requires i < j < |kv| <= |info|
  {
    info[i] != 0 && info[j] != 0 && kv[i].Node? && kv[j].Node? ==> kv[i].key != kv[j].key
  }

  lemma Different<K(!new), V>(info: seq<int>, kv: seq<Slot<K, V>>, i: nat, j: nat)
    requires Distinct(info, kv) && i < |kv| && j < |kv| && i != j && info[i] != 0 && info[j] != 0
    ensures kv[i].Node? && kv[j].Node? && kv[i].key != kv[j].key
  {
    if i < j { assert Differ(info, kv, i, j); } else { assert Differ(info, kv, j, i); }
  }

  ghost predicate Coherent<K(!new), V>(p: Params<K>, info: seq<int>, kv: seq<Slot<K, V>>) {
    && Sized(p, info, kv)
    && info[|kv|] == (if kv == [] then 0 else 1)
    && (forall i :: |kv| < i < |info| ==> info[i] == 0)
    && (forall i :: 0 <= i < |kv| && info[i] != 0 ==> SlotOk(p, info, kv, i))
    && Chained(p.inc, info, |kv|)
    && Distinct(info, kv)
  }

  // The first lim slots hold exactly the bindings of m.
  ghost predicate Represents<K(!new), V>(info: seq<int>, kv: seq<Slot<K, V>>, lim: nat, m: map<K, V>)
    requires lim <= |kv| <= |info|
  {
    && (forall i :: 0 <= i < lim && info[i] != 0 ==> kv[i].Node? && kv[i].key in m && m[kv[i].key] == kv[i].val)
    && (forall k :: k in m ==> exists i :: 0 <= i < lim && info[i] != 0 && kv[i] == Node(k, m[k]))
  }

  // Every byte leaves room for one more probe step.
  ghost predicate Room(inc: nat, info: seq<int>, cap: nat)
    requires cap <= |info|
  {
    forall i :: 0 <= i < cap ==> info[i] + inc <= 255
  }

  // The finite map that the first lim slots stand for.
  ghost function MapOf<K(!new), V>(info: seq<int>, kv: seq<Slot<K, V>>, lim: nat): map<K, V>
    requires lim <= |kv| <= |info|
  {
    if lim == 0 then map[]
    else
      var m := MapOf(info, kv, lim - 1);
      if info[lim - 1] != 0 && kv[lim - 1].Node? then m[kv[lim - 1].key := kv[lim - 1].val] else m
  }

  ghost function Contents<K(!new), V>(info: seq<int>, kv: seq<Slot<K, V>>): map<K, V>
    requires |kv| <= |info|
  {
    MapOf(info, kv, |kv|)
  }

  lemma {:induction false} Chain<K(!new), V>(p: Params<K>, info: seq<int>, kv: seq<Slot<K, V>>, i: nat, j: nat)
    requires Coherent(p, info, kv) && j <= i < |kv| && info[i] != 0
    requires Home(p, kv[i].key) <= j
    ensures info[j] >= InfoAt(p, kv[i].key, j - Home(p, kv[i].key)) >= p.inc
    decreases i - j
  {
    var k := kv[i].key;
    var h := Home(p, k);
    assert SlotOk(p, info, kv, i);
    InfoRange(p, k, j - h);
    if j < i {
      Chain(p, info, kv, i, j + 1);
      InfoRange(p, k, j + 1 - h);
      assert Steady(p.inc, info, j + 1);
    }
  }

  lemma BytesFit<K(!new), V>(p: Params<K>, info: seq<int>, kv: seq<Slot<K, V>>)
    requires Coherent(p, info, kv)
    ensures forall i :: 0 <= i < |info| ==> 0 <= info[i] <= 255
  {
    forall i | 0 <= i < |kv| && info[i] != 0
      ensures 0 <= info[i] <= 255
    {
      assert SlotOk(p, info, kv, i);
    }
  }

  // The byte of a stored key spells out its probe distance and its hash bits.
  lemma StoredByte<K(!new), V>(p: Params<K>, info: seq<int>, kv: seq<Slot<K, V>>, i: nat)
    requires Coherent(p, info, kv) && i < |kv| && info[i] != 0
    ensures kv[i].Node? && Home(p, kv[i].key) <= i
    ensures HashBits(p, kv[i].key) < p.inc
    ensures info[i] == p.inc * (i - Home(p, kv[i].key) + 1) + HashBits(p, kv[i].key) <= 255
    ensures i - Home(p, kv[i].key) < 127
  {
    assert SlotOk(p, info, kv, i);
    var k := kv[i].key;
    InfoClosedForm(p, k, i - Home(p, k));
    InfoRange(p, k, i - Home(p, k));
    HashBitsFit(p, k);
  }

  // The sentinel and the padding behind it never match a probe and always stop it.
  lemma {:induction false} SentinelStops<K(!new), V>(p: Params<K>, info: seq<int>, kv: seq<Slot<K, V>>, key: K, d: nat,
                                                     at: nat)
    requires Coherent(p, info, kv) && |kv| <= at < |info|
    ensures InfoAt(p, key, d) > info[at]
  {
    InfoRange(p, key, d);
  }

  // ---- a probe for key at slot at, carrying the byte it would have there ----

  ghost predicate Probing<K(!new), V>(p: Params<K>, info: seq<int>, kv: seq<Slot<K, V>>, key: K, at: nat, byte: nat) {
    && Coherent(p, info, kv)
    && Home(p, key) <= at < |info|
    && byte == InfoAt(p, key, at - Home(p, key))
    && (forall i :: 0 <= i < at && i < |kv| && info[i] != 0 ==> kv[i].key != key)
  }

  lemma {:induction false} ProbeStarts<K(!new), V>(p: Params<K>, info: seq<int>, kv: seq<Slot<K, V>>, key: K)
    requires Coherent(p, info, kv)
    ensures Probing(p, info, kv, key, Home(p, key), InfoAt(p, key, 0)) && Home(p, key) <= |kv|
  {
    forall i | 0 <= i < |kv| && i < Home(p, key) && info[i] != 0
      ensures kv[i].key != key
    {
      assert SlotOk(p, info, kv, i);
    }
  }

  // While the byte does not exceed the slot's, the slot is a stored one.
  lemma ProbeGoesOn<K(!new), V>(p: Params<K>, info: seq<int>, kv: seq<Slot<K, V>>, key: K, at: nat, byte: nat)
    requires Probing(p, info, kv, key, at, byte) && byte <= info[at]
    ensures at < |kv| && info[at] != 0 && kv[at].Node?
  {
    if at >= |kv| { SentinelStops(p, info, kv, key, at - Home(p, key), at); }
    InfoRange(p, key, at - Home(p, key));
    assert SlotOk(p, info, kv, at);
  }

  // A slot whose byte differs from the probe's cannot hold the key.
  lemma ProbeAdvances<K(!new), V>(p: Params<K>, info: seq<int>, kv: seq<Slot<K, V>>, key: K, at: nat, byte: nat)
    requires Probing(p, info, kv, key, at, byte) && at + 1 < |info|
    requires byte == info[at] && at < |kv| && kv[at].Node? ==> kv[at].key != key
    ensures Probing(p, info, kv, key, at + 1, byte + p.inc)
  {
    if at < |kv| && info[at] != 0 { assert SlotOk(p, info, kv, at); }
  }

  // A probe that meets a smaller byte can stop: the key is at no slot at all.
  lemma ProbeStops<K(!new), V>(p: Params<K>, info: seq<int>, kv: seq<Slot<K, V>>, key: K, at: nat, byte: nat)
    requires Probing(p, info, kv, key, at, byte) && byte > info[at]
    ensures forall i :: 0 <= i < |kv| && info[i] != 0 ==> kv[i].key != key
  {
    forall i | 0 <= i < |kv| && info[i] != 0
      ensures kv[i].key != key
    {
      if at <= i && kv[i].key == key { Chain(p, info, kv, i, at); }
    }
  }

  // ---- a probe that looks for the slot where key belongs ----

  ghost predicate Seeking<K(!new), V>(p: Params<K>, info: seq<int>, kv: seq<Slot<K, V>>, key: K, at: nat, byte: nat) {
    && Probing(p, info, kv, key, at, byte)
    && at <= |kv|
    && (at > Home(p, key) ==> info[at - 1] + p.inc >= byte)
    && (forall i :: Home(p, key) <= i < at ==> info[i] != 0)
  }

  lemma SeekAdvances<K(!new), V>(p: Params<K>, info: seq<int>, kv: seq<Slot<K, V>>, key: K, at: nat, byte: nat)
    requires Seeking(p, info, kv, key, at, byte) && byte <= info[at]
    requires byte == info[at] && at < |kv| && kv[at].Node? ==> kv[at].key != key
    ensures at < |kv| && Seeking(p, info, kv, key, at + 1, byte + p.inc)
  {
    ProbeGoesOn(p, info, kv, key, at, byte);
    ProbeAdvances(p, info, kv, key, at, byte);
  }

  lemma ByteFits<K(!new), V>(p: Params<K>, info: seq<int>, kv: seq<Slot<K, V>>, key: K, at: nat, byte: nat)
    requires Seeking(p, info, kv, key, at, byte) && Room(p.inc, info, |kv|)
    ensures byte <= 255
  {
    HashBitsFit(p, key);
  }

  // Behind a slot with the probe's own byte no slot can be richer than the probe.
  lemma EqualThenNotLess<K(!new), V>(p: Params<K>, info: seq<int>, kv: seq<Slot<K, V>>, key: K, at: nat, byte: nat)
    requires Probing(p, info, kv, key, at, byte) && byte == info[at] && at < |kv|
    ensures byte + p.inc >= info[at + 1]
  {
    InfoRange(p, key, at - Home(p, key));
    if at + 1 < |kv| { assert Steady(p.inc, info, at + 1); }
  }

  lemma RepresentsUnique<K(!new), V>(info: seq<int>, kv: seq<Slot<K, V>>, lim: nat, m: map<K, V>, m': map<K, V>)
    requires lim <= |kv| <= |info|
    requires Represents(info, kv, lim, m) && Represents(info, kv, lim, m')
    ensures m == m'
  {
    forall k
      ensures k in m <==> k in m'
      ensures k in m ==> m[k] == m'[k]
    {
      if k in m {
        var i :| 0 <= i < lim && info[i] != 0 && kv[i] == Node(k, m[k]);
      }
      if k in m' {
        var i :| 0 <= i < lim && info[i] != 0 && kv[i] == Node(k, m'[k]);
      }
    }
  }

  lemma {:induction false} MapOfRepresents<K(!new), V>(info: seq<int>, kv: seq<Slot<K, V>>, lim: nat)
    requires Distinct(info, kv) && lim <= |kv|
    ensures Represents(info, kv, lim, MapOf(info, kv, lim))
  {
    if lim > 0 {
      MapOfRepresents(info, kv, lim - 1);
      if info[lim - 1] != 0 { OneMoreBinding(info, kv, lim - 1, MapOf(info, kv, lim - 1)); }
    }
  }

  lemma OneMoreBinding<K(!new), V>(info: seq<int>, kv: seq<Slot<K, V>>, n: nat, m: map<K, V>)
    requires Distinct(info, kv) && n < |kv| && info[n] != 0 && Represents(info, kv, n, m)
    ensures Represents(info, kv, n + 1, m[kv[n].key := kv[n].val])
  {
    var m' := m[kv[n].key := kv[n].val];
    forall i | 0 <= i < n && info[i] != 0
      ensures kv[i].Node? && kv[i].key in m' && m'[kv[i].key] == kv[i].val
    {
      Different(info, kv, i, n);
    }
    forall k | k in m'
      ensures exists i :: 0 <= i < n + 1 && info[i] != 0 && kv[i] == Node(k, m'[k])
    {
      if k == kv[n].key {
        assert kv[n] == Node(k, m'[k]);
      } else {
        var i :| 0 <= i < n && info[i] != 0 && kv[i] == Node(k, m[k]);
      }
    }
  }

  // Contents is the one map with the stored bindings and no others.
  lemma ContentsIs<K(!new), V>(info: seq<int>, kv: seq<Slot<K, V>>, m: map<K, V>)
    requires Distinct(info, kv)
    ensures Represents(info, kv, |kv|, m) <==> m == Contents(info, kv)
  {
    MapOfRepresents(info, kv, |kv|);
    if Represents(info, kv, |kv|, m) { RepresentsUnique(info, kv, |kv|, m, Contents(info, kv)); }
  }

  lemma StoredSlot<K(!new), V>(p: Params<K>, info: seq<int>, kv: seq<Slot<K, V>>, i: nat)
    requires Coherent(p, info, kv) && i < |kv| && info[i] != 0
    ensures kv[i].Node? && kv[i].key in Contents(info, kv) && kv[i] == Node(kv[i].key, Contents(info, kv)[kv[i].key])
  {
    MapOfRepresents(info, kv, |kv|);
  }

  lemma AbsentKey<K(!new), V>(p: Params<K>, info: seq<int>, kv: seq<Slot<K, V>>, key: K)
    requires Coherent(p, info, kv)
    requires forall i :: 0 <= i < |kv| && info[i] != 0 ==> kv[i].key != key
    ensures key !in Contents(info, kv)
  {
    MapOfRepresents(info, kv, |kv|);
  }
}
