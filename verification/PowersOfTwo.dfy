// Powers of two, and what masking with one does to a hash.
module PowersOfTwo {
  import opened Basics

  ghost predicate IsPow2(n: nat) {
    n == 1 || (n > 1 && n % 2 == 0 && IsPow2(n / 2))
  }

  lemma {:induction false} Doubles(n: nat)
    requires IsPow2(n)
    ensures IsPow2(2 * n)
  {
  }

  lemma {:induction false} Gap(n: nat, w: nat)
    requires IsPow2(n) && IsPow2(w) && n < w
    ensures 2 * n <= w
  {
    if n > 1 { Gap(n / 2, w / 2); }
  }

  // The smaller of two powers of two divides the larger.
  lemma {:induction false} Divides(n: nat, w: nat) returns (q: nat)
    requires IsPow2(n) && IsPow2(w) && n <= w
    ensures w == q * n
  {
    if n == w {
      q := 1;
    } else {
      Gap(n, w);
      var r := Divides(n, w / 2);
      q := 2 * r;
      assert q * n == 2 * (r * n);
    }
  }

  lemma ModOfMod(h: nat, n: nat, q: nat)
    requires n > 0 && q > 0
    ensures (h % (q * n)) % n == h % n
  {
    var w := q * n;
    var lo, hi := h % w, h / w;
    assert h == w * hi + lo;
    assert w * hi == (q * hi) * n;
    ModShift(lo, q * hi, n);
  }

  lemma {:induction false} ModShift(x: nat, k: nat, n: nat)
    requires n > 0
    ensures (k * n + x) % n == x % n
    decreases k
  {
    if k > 0 {
      ModShift(x, k - 1, n);
      var y := (k - 1) * n + x;
      assert k * n + x == y + n;
      AddOnce(y, n);
    }
  }

  lemma AddOnce(y: nat, n: nat)
    requires n > 0
    ensures (y + n) % n == y % n
  {
    var q, r := y / n, y % n;
    assert y + n == (q + 1) * n + r;
    DivModUnique(y + n, q + 1, r, n);
  }

  // Cutting a hash to w values first does not change the bucket, if w is at least the bucket count.
  lemma {:induction false} TruncatedBucket(hash: nat, n: nat, w: nat)
    requires IsPow2(n) && IsPow2(w) && n <= w
    ensures (hash % w) % n == hash % n
  {
    var q := Divides(n, w);
    assert q > 0;
    ModOfMod(hash, n, q);
  }

  lemma {:induction false} TimesSixteen(n: nat)
    requires IsPow2(n)
    ensures IsPow2(16 * n)
  {
    Doubles(n);
    Doubles(2 * n);
    Doubles(4 * n);
    Doubles(8 * n);
  }

  lemma TwoTo32()
    ensures IsPow2(0x1_0000_0000)
  {
    var n: nat :| n == 1;
    TimesSixteen(n);
    TimesSixteen(16 * n);
    TimesSixteen(256 * n);
    TimesSixteen(4096 * n);
    TimesSixteen(65536 * n);
    TimesSixteen(1048576 * n);
    TimesSixteen(16777216 * n);
    TimesSixteen(268435456 * n);
    assert 4294967296 * n == 0x1_0000_0000;
  }
}
