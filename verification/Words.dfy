// Little-endian machine words as naturals, with bitwise-and defined bit by bit.
module Words {

  ghost predicate Bytes(b: seq<nat>) {
    forall i :: 0 <= i < |b| ==> b[i] < 256
  }

  // unaligned_load of |b| bytes.
  function Load(b: seq<nat>): nat {
    if b == [] then 0 else b[0] + 256 * Load(b[1..])
  }

  // memcpy of a word to n bytes.
  function Store(w: nat, n: nat): (b: seq<nat>)
    ensures |b| == n
  {
    if n == 0 then [] else [w % 256] + Store(w / 256, n - 1)
  }

  function And(x: nat, y: nat): nat {
    if x == 0 || y == 0 then 0 else (if x % 2 == 1 && y % 2 == 1 then 1 else 0) + 2 * And(x / 2, y / 2)
  }

  function Or(x: nat, y: nat): nat
    decreases x + y
  {
    if x == 0 then y else if y == 0 then x
    else (if x % 2 == 1 || y % 2 == 1 then 1 else 0) + 2 * Or(x / 2, y / 2)
  }

  // x >> i
  function Shr(x: nat, i: nat): (r: nat)
    ensures r <= x
  {
    if i == 0 then x else Shr(x / 2, i - 1)
  }

  // 1 << n
  function Power(n: nat): (p: nat)
    ensures p >= 1
  {
    if n == 0 then 1 else 2 * Power(n - 1)
  }

  function Mask7f(n: nat): nat {
    if n == 0 then 0 else 0x7f + 256 * Mask7f(n - 1)
  }

  function Halves(b: seq<nat>): (r: seq<nat>)
    ensures |r| == |b|
  {
    seq(|b|, i requires 0 <= i < |b| => b[i] / 2)
  }

  // The word step of try_increase_info.
  function HalveWord(w: nat): nat {
    And(w / 2, 0x7f7f7f7f7f7f7f7f)
  }

  // One bit at a time.
  lemma {:induction false} AndBit(x: nat, y: nat, a: nat, b: nat, x': nat, y': nat)
    requires x == 2 * x' + a && y == 2 * y' + b && a < 2 && b < 2
    ensures And(x, y) == (if b == 1 then a else 0) + 2 * And(x', y')
  {
    assert x / 2 == x' && y / 2 == y' && x % 2 == a && y % 2 == b;
  }

  lemma {:induction false} AndTwoBits(x: nat, y: nat, a: nat, b: nat, d: nat, x': nat, y': nat)
    requires x == 4 * x' + 2 * b + a && y == 4 * y' + 2 * d + 1 && a < 2 && b < 2 && d < 2
    ensures And(x, y) == a + (if d == 1 then 2 * b else 0) + 4 * And(x', y')
  {
    var x1, y1 := 2 * x' + b, 2 * y' + d;
    AndBit(x, y, a, 1, x1, y1);
    AndBit(x1, y1, b, d, x', y');
  }

  // A word whose low byte has bits c0..c7, masked with 0x7f in that byte.
  lemma {:induction false} AndLowBits(x: nat, y: nat, hi: nat, m: nat, c0: nat, c1: nat, c2: nat, c3: nat, c4: nat,
                                      c5: nat, c6: nat, c7: nat)
    requires c0 < 2 && c1 < 2 && c2 < 2 && c3 < 2 && c4 < 2 && c5 < 2 && c6 < 2 && c7 < 2
    requires x == 256 * hi + 128 * c7 + 64 * c6 + 32 * c5 + 16 * c4 + 8 * c3 + 4 * c2 + 2 * c1 + c0
    requires y == 256 * m + 0x7f
    ensures And(x, y) == 256 * And(hi, m) + 64 * c6 + 32 * c5 + 16 * c4 + 8 * c3 + 4 * c2 + 2 * c1 + c0
  {
    var x1, y1 := 64 * hi + 32 * c7 + 16 * c6 + 8 * c5 + 4 * c4 + 2 * c3 + c2, 64 * m + 0x1f;
    var x2, y2 := 16 * hi + 8 * c7 + 4 * c6 + 2 * c5 + c4, 16 * m + 7;
    var x3, y3 := 4 * hi + 2 * c7 + c6, 4 * m + 1;
    AndTwoBits(x, y, c0, c1, 1, x1, y1);
    AndTwoBits(x1, y1, c2, c3, 1, x2, y2);
    AndTwoBits(x2, y2, c4, c5, 1, x3, y3);
    AndTwoBits(x3, y3, c6, c7, 0, hi, m);
  }

  lemma BitsOf(x: nat) returns (c0: nat, c1: nat, c2: nat, c3: nat, c4: nat, c5: nat, c6: nat, c7: nat)
    requires x < 256
    ensures c0 < 2 && c1 < 2 && c2 < 2 && c3 < 2 && c4 < 2 && c5 < 2 && c6 < 2 && c7 < 2
    ensures x == 128 * c7 + 64 * c6 + 32 * c5 + 16 * c4 + 8 * c3 + 4 * c2 + 2 * c1 + c0
  {
    c0 := x % 2; var r := x / 2;
    c1 := r % 2; r := r / 2;
    c2 := r % 2; r := r / 2;
    c3 := r % 2; r := r / 2;
    c4 := r % 2; r := r / 2;
    c5 := r % 2; r := r / 2;
    c6 := r % 2; c7 := r / 2;
  }

  lemma {:induction false} AndLowByte(x: nat, y: nat, lo: nat, hi: nat, m: nat)
    requires x == 256 * hi + lo && y == 256 * m + 0x7f && lo < 256
    ensures And(x, y) == lo % 128 + 256 * And(hi, m)
  {
    var c0, c1, c2, c3, c4, c5, c6, c7 := BitsOf(lo);
    AndLowBits(x, y, hi, m, c0, c1, c2, c3, c4, c5, c6, c7);
    LowSeven(lo, c7, 64 * c6 + 32 * c5 + 16 * c4 + 8 * c3 + 4 * c2 + 2 * c1 + c0);
  }

  lemma LowSeven(lo: nat, c7: nat, low: nat)
    requires lo == 128 * c7 + low && low < 128
    ensures lo % 128 == low
  {
  }

  // The masked shift halves every byte of the word on its own.
  lemma {:induction false} MaskedShiftHalves(b: seq<nat>)
    requires Bytes(b)
    ensures And(Load(b) / 2, Mask7f(|b|)) == Load(Halves(b))
  {
    if b != [] {
      var rest := Load(b[1..]);
      var lo := b[0] / 2 + 128 * (rest % 2);
      assert Load(b) / 2 == 256 * (rest / 2) + lo by { assert Load(b) == b[0] + 256 * rest; }
      assert lo % 128 == b[0] / 2;
      AndLowByte(Load(b) / 2, Mask7f(|b|), lo, rest / 2, Mask7f(|b| - 1));
      MaskedShiftHalves(b[1..]);
      assert Halves(b)[1..] == Halves(b[1..]);
    }
  }

  lemma {:induction false} StoreLoad(b: seq<nat>)
    requires Bytes(b)
    ensures Store(Load(b), |b|) == b
  {
    if b != [] {
      StoreLoad(b[1..]);
      assert Load(b) % 256 == b[0] && Load(b) / 256 == Load(b[1..]);
    }
  }

  // Loading eight info bytes, the masked shift, and storing them back.
  lemma {:induction false} HalveEight(b: seq<nat>)
    requires |b| == 8 && Bytes(b)
    ensures Store(HalveWord(Load(b)), 8) == Halves(b)
  {
    assert Mask7f(8) == 0x7f7f7f7f7f7f7f7f by {
      assert Mask7f(2) == 0x7f7f;
      assert Mask7f(4) == 0x7f7f7f7f;
      assert Mask7f(6) == 0x7f7f7f7f7f7f;
    }
    MaskedShiftHalves(b);
    StoreLoad(Halves(b));
  }
}
