// power_of_two_growth_policy of robin_growth_policy.h: bucket counts are powers of two, so that a
// mask can take the place of a remainder.
module GrowthPolicy {
  import opened PowersOfTwo
  import opened Basics
  import opened Words

  const MAX_BUCKET_COUNT := 0x8000_0000_0000_0000

  // ---- single bits ----

  function Bit(x: nat, j: nat): bool {
    if j == 0 then x % 2 == 1 else Bit(x / 2, j - 1)
  }

  lemma {:induction false} PowerIsPow2(n: nat)
    ensures IsPow2(Power(n))
  {
    if n > 0 {
      PowerIsPow2(n - 1);
      Doubles(Power(n - 1));
    }
  }

  lemma {:induction false} BitOfShr(x: nat, i: nat, j: nat)
    ensures Bit(Shr(x, i), j) == Bit(x, i + j)
  {
    if i > 0 { BitOfShr(x / 2, i - 1, j); }
  }

  lemma {:induction false} BitOfZero(j: nat)
    ensures !Bit(0, j)
  {
    if j > 0 { BitOfZero(j - 1); }
  }

  lemma {:induction false} BitOfOr(x: nat, y: nat, j: nat)
    ensures Bit(Or(x, y), j) <==> Bit(x, j) || Bit(y, j)
    decreases j
  {
    if x == 0 || y == 0 {
      BitOfZero(j);
    } else {
      var r := Or(x, y);
      assert r / 2 == Or(x / 2, y / 2) && r % 2 == (if x % 2 == 1 || y % 2 == 1 then 1 else 0);
      if j > 0 { BitOfOr(x / 2, y / 2, j - 1); }
    }
  }

  lemma {:induction false} OrFits(x: nat, y: nat, n: nat)
    requires x < Power(n) && y < Power(n)
    ensures Or(x, y) < Power(n)
    decreases n
  {
    if x != 0 && y != 0 {
      assert n > 0;
      OrFits(x / 2, y / 2, n - 1);
    }
  }

  // A number whose n lowest bits are all its bits, and all set.
  lemma {:induction false} AllOnes(x: nat, n: nat)
    requires x < Power(n) && forall j | 0 <= j < n :: Bit(x, j)
    ensures x == Power(n) - 1
  {
    if n > 0 {
      assert Bit(x, 0);
      forall j | 0 <= j < n - 1 ensures Bit(x / 2, j) { assert Bit(x, j + 1); }
      AllOnes(x / 2, n - 1);
    }
  }

  // The highest bit of x.
  lemma {:induction false} TopBit(x: nat) returns (m: nat)
    requires x > 0
    ensures Power(m) <= x < Power(m + 1) && Bit(x, m)
  {
    if x == 1 {
      m := 0;
    } else {
      var m' := TopBit(x / 2);
      m := m' + 1;
    }
  }

  // ---- powers of two ----

  // value & (value - 1) clears the lowest bit that is set.
  lemma {:induction false} LowestBitCleared(v: nat)
    requires v > 0
    ensures And(v, v - 1) == 0 <==> IsPow2(v)
  {
    if v % 2 == 1 {
      assert v - 1 == 2 * (v / 2);
      AndSelf(v / 2);
      if v > 1 { assert And(v, v - 1) == 2 * And(v / 2, v / 2); }
    } else {
      LowestBitCleared(v / 2);
      assert (v - 1) / 2 == v / 2 - 1;
      if v > 2 { assert And(v, v - 1) == 2 * And(v / 2, v / 2 - 1); }
    }
  }

  lemma {:induction false} AndSelf(x: nat)
    ensures And(x, x) == x
  {
    if x > 0 { AndSelf(x / 2); }
  }

  // A mask one below a power of two takes the remainder.
  lemma {:induction false} MaskIsRemainder(hash: nat, n: nat)
    requires IsPow2(n)
    ensures And(hash, n - 1) == hash % n
    decreases n
  {
    if n > 1 {
      MaskIsRemainder(hash / 2, n / 2);
      assert (n - 1) / 2 == n / 2 - 1 && (n - 1) % 2 == 1;
      HalvesOfRemainder(hash, n / 2);
    }
  }

  lemma HalvesOfRemainder(h: nat, k: nat)
    requires k > 0
    ensures h % (2 * k) == h % 2 + 2 * (h / 2 % k)
  {
    var q, r := h / 2 / k, h / 2 % k;
    assert h / 2 == q * k + r;
    Twice(q, k);
    DivModUnique(h, q, h % 2 + 2 * r, 2 * k);
  }

  lemma Twice(q: nat, k: nat)
    ensures q * (2 * k) == 2 * (q * k)
  {
  }

  method is_power_of_two(value: nat) returns (r: bool)
    ensures r <==> IsPow2(value)
  {
    if value > 0 { LowestBitCleared(value); }
    r := value != 0 && And(value, value - 1) == 0;
  }

  // The bits of x from m down, s of them, are set.
  predicate TopSet(x: nat, m: nat, s: nat) {
    forall j | 0 <= j <= m && m < j + s :: Bit(x, j)
  }

  lemma {:induction false} Smeared(x: nat, m: nat, i: nat)
    requires x < Power(m + 1) && TopSet(x, m, i)
    ensures Or(x, Shr(x, i)) < Power(m + 1) && TopSet(Or(x, Shr(x, i)), m, 2 * i)
  {
    OrFits(x, Shr(x, i), m + 1);
    forall j | 0 <= j <= m && m < j + 2 * i ensures Bit(Or(x, Shr(x, i)), j) {
      BitOfOr(x, Shr(x, i), j);
      BitOfShr(x, i, j);
      if m < j + i { assert Bit(x, j); } else { assert Bit(x, i + j); }
    }
  }

  // The result is the least power of two that is not below the value.
  method round_up_to_power_of_two(v: nat) returns (r: nat)
    requires v <= MAX_BUCKET_COUNT
    ensures IsPow2(r) && v <= r <= MAX_BUCKET_COUNT && forall p: nat :: IsPow2(p) && v <= p ==> r <= p
  {
    var value: nat := v;
    var ready := is_power_of_two(value);
    if ready { return value; }
    if value == 0 { return 1; }
    ghost var m: nat := TopBit(value - 1);
    LeastPower(v, m);
    value := smear(value - 1, m);
    return value + 1;
  }

  // The loop that copies the highest bit to all lower ones.
  method smear(x: nat, ghost m: nat) returns (value: nat)
    requires Power(m) <= x < Power(m + 1) && Bit(x, m) && x < MAX_BUCKET_COUNT
    ensures value == Power(m + 1) - 1
  {
    value := x;
    TopIsLow(x, m);
    var i: nat := 1;
    while i < 64
      invariant i == 1 || i == 2 || i == 4 || i == 8 || i == 16 || i == 32 || i == 64
      invariant 0 <= value < Power(m + 1) && TopSet(value, m, i)
    {
      Smeared(value, m, i);
      value := Or(value, Shr(value, i));
      i := i * 2;
    }
    AllOnes(value, m + 1);
  }

  lemma {:induction false} TopIsLow(x: nat, m: nat)
    requires Power(m) <= x < MAX_BUCKET_COUNT
    ensures m < 63
  {
    if m >= 63 {
      PowerGrows(63, m);
      PowerOf63();
    }
  }

  lemma PowerOf63()
    ensures Power(63) == MAX_BUCKET_COUNT
  {
    assert Power(4) == 16;
    PowerAdds(4, 3);
    PowerAdds(4, 4);
    PowerAdds(8, 7);
    PowerAdds(8, 8);
    PowerAdds(16, 15);
    PowerAdds(16, 16);
    PowerAdds(32, 31);
    assert Power(3) == 8;
  }

  lemma {:induction false} PowerGrows(a: nat, b: nat)
    requires a <= b
    ensures Power(a) <= Power(b)
  {
    if a < b { PowerGrows(a, b - 1); }
  }

  lemma {:induction false} PowerAdds(a: nat, b: nat)
    ensures Power(a + b) == Power(a) * Power(b)
  {
    if b > 0 { PowerAdds(a, b - 1); }
  }

  lemma LeastPower(v: nat, m: nat)
    requires Power(m) < v <= MAX_BUCKET_COUNT
    ensures IsPow2(Power(m + 1)) && Power(m + 1) <= MAX_BUCKET_COUNT
    ensures forall p: nat :: IsPow2(p) && v <= p ==> Power(m + 1) <= p
  {
    PowerIsPow2(m);
    PowerIsPow2(m + 1);
    PowerOf63();
    PowerIsPow2(63);
    Gap(Power(m), MAX_BUCKET_COUNT);
    forall p: nat | IsPow2(p) && v <= p ensures Power(m + 1) <= p {
      Gap(Power(m), p);
    }
  }
}
