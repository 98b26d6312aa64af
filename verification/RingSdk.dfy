// Ring_SDK of ring.cc, the storage of every BlockingRing: a deque in an array of N places.
module RingSdk {
  import opened Basics

  // (b + i) % n for a place in the ring
  lemma Wrap(b: nat, i: nat, n: nat)
    requires b < n && i <= n
    ensures (b + i) % n == if b + i < n then b + i else b + i - n
  {
    if b + i >= n {
      DivModUnique(b + i, 1, b + i - n, n);
    }
  }

  function Place(b: nat, i: nat, n: nat): nat
    requires n > 0
  {
    if b + i < n then b + i else b + i - n
  }

  // The elements of a ring that begins at b.
  function Elements<T>(r: seq<T>, b: nat, size: nat): (s: seq<T>)
    requires b < |r| && size <= |r|
    ensures |s| == size
  {
    seq(size, i requires 0 <= i < size => r[Place(b, i, |r|)])
  }

  lemma PushedBack<T>(r: seq<T>, b: nat, size: nat, x: T)
    requires b < |r| && size < |r|
    ensures Elements(r[Place(b, size, |r|) := x], b, size + 1) == Elements(r, b, size) + [x]
  {
  }

  lemma PushedFront<T>(r: seq<T>, b: nat, size: nat, x: T, b': nat)
    requires b < |r| && size < |r| && b' == (if b == 0 then |r| - 1 else b - 1)
    ensures Elements(r[b' := x], b', size + 1) == [x] + Elements(r, b, size)
  {
    var e, e' := Elements(r, b, size), Elements(r[b' := x], b', size + 1);
    forall i | 0 < i <= size ensures e'[i] == e[i - 1] {
      assert Place(b', i, |r|) == Place(b, i - 1, |r|) != b';
    }
  }

  lemma PoppedFront<T>(r: seq<T>, b: nat, size: nat)
    requires b < |r| && 0 < size <= |r|
    ensures Elements(r, b, size)[0] == r[b]
    ensures Elements(r, Place(b, 1, |r|), size - 1) == Elements(r, b, size)[1..]
  {
  }

  lemma PoppedBack<T>(r: seq<T>, b: nat, size: nat)
    requires b < |r| && 0 < size <= |r|
    ensures Elements(r, b, size)[size - 1] == r[Place(b, size - 1, |r|)]
    ensures Elements(r, b, size - 1) == Elements(r, b, size)[..size - 1]
  {
  }

  // A place that holds no element may be overwritten.
  lemma Outside<T>(r: seq<T>, b: nat, size: nat, at: nat, x: T)
    requires b < |r| && size <= |r| && at < |r|
    requires forall i | 0 <= i < size :: Place(b, i, |r|) != at
    ensures Elements(r[at := x], b, size) == Elements(r, b, size)
  {
  }

  class Ring<T(0)> {
    const ring: array<T>
    var begin: nat
    var size: nat

    ghost predicate Valid()
      reads this
    {
      ring.Length > 0 && begin < ring.Length && size <= ring.Length
    }

    ghost function Contents(): seq<T>
      requires Valid()
      reads this, ring
    {
      Elements(ring[..], begin, size)
    }

    constructor (n: nat)
      requires n > 0
      ensures Valid() && fresh(ring) && ring.Length == n && Contents() == []
    {
      ring := new T[n];
      begin, size := 0, 0;
    }

    predicate full()
      reads this
    {
      size >= ring.Length
    }

    // push_back and emplace_back
    method push_back(item: T)
      requires Valid() && !full()
      modifies this`size, ring
      ensures Valid() && Contents() == old(Contents()) + [item]
    {
      Wrap(begin, size, ring.Length);
      PushedBack(ring[..], begin, size, item);
      ghost var after := ring[..][Place(begin, size, ring.Length) := item];
      ring[(begin + size) % ring.Length] := item;
      assert ring[..] == after;
      size := size + 1;
    }

    // push_front and emplace_front
    method push_front(item: T)
      requires Valid() && !full()
      modifies this`begin, this`size, ring
      ensures Valid() && Contents() == [item] + old(Contents())
    {
      Wrap(begin, ring.Length - 1, ring.Length);
      ghost var b := if begin == 0 then ring.Length - 1 else begin - 1;
      PushedFront(ring[..], begin, size, item, b);
      ghost var after := ring[..][b := item];
      begin := (begin + ring.Length - 1) % ring.Length;
      ring[begin] := item;
      assert ring[..] == after;
      size := size + 1;
    }

    // The element is swapped out of its place, which gets a default one.
    method pop_front(blank: T) returns (item: T)
      requires Valid() && size > 0
      modifies this`begin, this`size, ring
      ensures Valid() && [item] + Contents() == old(Contents())
    {
      ghost var r, b := ring[..], begin;
      PoppedFront(r, b, size);
      size := size - 1;
      item := ring[begin];
      ring[begin] := blank;
      assert ring[..] == r[b := blank];
      Wrap(begin, 1, ring.Length);
      begin := (begin + 1) % ring.Length;
      Outside(r, begin, size, b, blank);
    }

    method pop_back(blank: T) returns (item: T)
      requires Valid() && size > 0
      modifies this`size, ring
      ensures Valid() && Contents() + [item] == old(Contents())
    {
      ghost var r := ring[..];
      PoppedBack(r, begin, size);
      size := size - 1;
      Wrap(begin, size, ring.Length);
      var at := (begin + size) % ring.Length;
      item := ring[at];
      ring[at] := blank;
      assert ring[..] == r[at := blank];
      Outside(r, begin, size, at, blank);
    }

    method eff_pop_front()
      requires Valid() && size > 0
      modifies this`begin, this`size
      ensures Valid() && Contents() == old(Contents())[1..]
    {
      PoppedFront(ring[..], begin, size);
      Wrap(begin, 1, ring.Length);
      size := size - 1;
      begin := (begin + 1) % ring.Length;
    }

    method eff_clear()
      requires Valid()
      modifies this`begin, this`size
      ensures Valid() && Contents() == []
    {
      size := 0;
      begin := 0;
    }
  }
}
