// Crc32 of inner_com.h: the table-driven CRC-32, most significant bit first, against the bit-serial
// definition, and the errors it detects. A uint32_t is its 32 bits, most significant first.
module Crc32 {

  type Bits = seq<bool>

  const WIDTH := 32

  // 0x04c11db7
  const POLY: Bits :=
    [false, false, false, false, false, true, false, false, true, true, false, false, false, false, false, true,
     false, false, false, true, true, true, false, true, true, false, true, true, false, true, true, true]

  function Zero(n: nat): (z: Bits)
    ensures |z| == n && forall i | 0 <= i < n :: !z[i]
  {
    seq(n, _ => false)
  }

  function Ones(n: nat): (z: Bits)
    ensures |z| == n
  {
    seq(n, _ => true)
  }

  function Xor(a: Bits, b: Bits): (r: Bits)
    requires |a| == |b|
    ensures |r| == |a| && forall i | 0 <= i < |a| :: r[i] == (a[i] != b[i])
  {
    seq(|a|, i requires 0 <= i < |a| => a[i] != b[i])
  }

  // x << n
  function Left(x: Bits, n: nat): (r: Bits)
    requires n <= |x|
    ensures |r| == |x|
  {
    x[n..] + Zero(n)
  }

  // ---- the definition: one message bit after the other ----

  function BitStep(reg: Bits, bit: bool): (r: Bits)
    requires |reg| == WIDTH
    ensures |r| == WIDTH
  {
    if reg[0] != bit then Xor(Left(reg, 1), POLY) else Left(reg, 1)
  }

  function Serial(reg: Bits, bits: Bits): (r: Bits)
    requires |reg| == WIDTH
    ensures |r| == WIDTH
    decreases |bits|
  {
    if bits == [] then reg else Serial(BitStep(reg, bits[0]), bits[1..])
  }

  // The bits of a byte, most significant first.
  function BitsOf(b: bv8): (r: Bits)
    ensures |r| == 8
  {
    [b & 0x80 != 0, b & 0x40 != 0, b & 0x20 != 0, b & 0x10 != 0,
     b & 0x08 != 0, b & 0x04 != 0, b & 0x02 != 0, b & 0x01 != 0]
  }

  function ByteOf(x: Bits): bv8
    requires |x| == 8
  {
    (if x[0] then 0x80 else 0) | (if x[1] then 0x40 else 0) | (if x[2] then 0x20 else 0) | (if x[3] then 0x10 else 0)
    | (if x[4] then 0x08 else 0) | (if x[5] then 0x04 else 0) | (if x[6] then 0x02 else 0) | (if x[7] then 0x01 else 0)
  }

  lemma ByteRoundTrip(x: Bits)
    requires |x| == 8
    ensures BitsOf(ByteOf(x)) == x
  {
  }

  lemma BitsRoundTrip(b: bv8)
    ensures ByteOf(BitsOf(b)) == b
  {
  }

  function Message(bytes: seq<bv8>): (r: Bits)
    ensures |r| == 8 * |bytes|
  {
    if bytes == [] then [] else Message(bytes[..|bytes| - 1]) + BitsOf(bytes[|bytes| - 1])
  }

  // The CRC of the bytes followed by so many zero bytes.
  function Crc(bytes: seq<bv8>, zeros: nat): (r: Bits)
    ensures |r| == WIDTH
  {
    Serial(Ones(WIDTH), Message(bytes) + Zero(8 * zeros))
  }

  // ---- laws of the register ----

  lemma {:induction false} SerialSplits(reg: Bits, a: Bits, b: Bits)
    requires |reg| == WIDTH
    ensures Serial(reg, a + b) == Serial(Serial(reg, a), b)
    decreases |a|
  {
    if a == [] {
      assert a + b == b;
    } else {
      assert (a + b)[0] == a[0] && (a + b)[1..] == a[1..] + b;
      SerialSplits(BitStep(reg, a[0]), a[1..], b);
    }
  }

  lemma StepIsLinear(x: Bits, y: Bits, a: bool, b: bool)
    requires |x| == |y| == WIDTH
    ensures BitStep(Xor(x, y), a != b) == Xor(BitStep(x, a), BitStep(y, b))
  {
  }

  lemma {:induction false} SerialIsLinear(x: Bits, y: Bits, v: Bits, w: Bits)
    requires |x| == |y| == WIDTH && |v| == |w|
    ensures Serial(Xor(x, y), Xor(v, w)) == Xor(Serial(x, v), Serial(y, w))
    decreases |v|
  {
    if v != [] {
      StepIsLinear(x, y, v[0], w[0]);
      assert Xor(v, w)[1..] == Xor(v[1..], w[1..]);
      SerialIsLinear(BitStep(x, v[0]), BitStep(y, w[0]), v[1..], w[1..]);
    }
  }

  lemma StepIsInjective(x: Bits, y: Bits, bit: bool)
    requires |x| == |y| == WIDTH && BitStep(x, bit) == BitStep(y, bit)
    ensures x == y
  {
    var x', y' := BitStep(x, bit), BitStep(y, bit);
    assert x'[WIDTH - 1] == (x[0] != bit) && y'[WIDTH - 1] == (y[0] != bit);
    forall i | 1 <= i < WIDTH ensures x[i] == y[i] {
      assert x'[i - 1] == y'[i - 1];
      assert Left(x, 1)[i - 1] == x[i] && Left(y, 1)[i - 1] == y[i];
    }
  }

  // Each message makes a bijection of the register.
  lemma {:induction false} SerialIsInjective(x: Bits, y: Bits, bits: Bits)
    requires |x| == |y| == WIDTH && Serial(x, bits) == Serial(y, bits)
    ensures x == y
    decreases |bits|
  {
    if bits != [] {
      SerialIsInjective(BitStep(x, bits[0]), BitStep(y, bits[0]), bits[1..]);
      StepIsInjective(x, y, bits[0]);
    }
  }

  // w at the top of an otherwise empty register
  function OnTop(w: Bits): (r: Bits)
    requires |w| <= WIDTH
    ensures |r| == WIDTH
  {
    w + Zero(WIDTH - |w|)
  }

  lemma StepOfSum(r: Bits, w: Bits, bit: bool)
    requires |r| == WIDTH && 0 < |w| <= WIDTH
    ensures BitStep(Xor(r, OnTop(w)), bit) == Xor(BitStep(r, w[0] != bit), OnTop(w[1..]))
  {
    assert Left(OnTop(w), 1) == OnTop(w[1..]);
    assert Left(Xor(r, OnTop(w)), 1) == Xor(Left(r, 1), Left(OnTop(w), 1));
  }

  // Bits at the top of the register act like message bits.
  lemma {:induction false} TopBitsEnter(r: Bits, w: Bits, v: Bits)
    requires |r| == WIDTH && |w| == |v| <= WIDTH
    ensures Serial(Xor(r, OnTop(w)), v) == Serial(r, Xor(w, v))
    decreases |w|
  {
    if w == [] {
      assert Xor(r, OnTop(w)) == r;
    } else {
      StepOfSum(r, w, v[0]);
      assert Xor(w, v)[1..] == Xor(w[1..], v[1..]);
      TopBitsEnter(BitStep(r, w[0] != v[0]), w[1..], v[1..]);
    }
  }

  // Without bits at the top the register only shifts.
  lemma {:induction false} QuietSteps(low: Bits, n: nat, m: nat)
    requires n + |low| == WIDTH && m <= n
    ensures Serial(Zero(m) + low + Zero(n - m), Zero(m)) == low + Zero(n)
    decreases m
  {
    var x := Zero(m) + low + Zero(n - m);
    if m == 0 {
      assert x == low + Zero(n);
    } else {
      assert Left(x, 1) == Zero(m - 1) + low + Zero(n - (m - 1));
      assert Zero(m)[1..] == Zero(m - 1);
      QuietSteps(low, n, m - 1);
    }
  }

  // ---- the table-driven form ----

  // (reg << 8) ^ entry is the register after a byte, if entry is the table's for the top byte of
  // the register plus the byte.
  lemma {:induction false} FastStep(reg: Bits, b: Bits)
    requires |reg| == WIDTH && |b| == 8
    ensures Serial(reg, b) == Xor(Left(reg, 8), Serial(Zero(WIDTH), Xor(reg[..8], b)))
  {
    var top, low := reg[..8], Zero(8) + reg[8..];
    var e := Xor(top, b);
    assert reg == Xor(low, OnTop(top));
    TopBitsEnter(low, top, b);
    assert Xor(low, Zero(WIDTH)) == low && Xor(Zero(8), e) == e;
    SerialIsLinear(low, Zero(WIDTH), Zero(8), e);
    QuietSteps(reg[8..], 8, 8);
    assert Zero(8) + reg[8..] + Zero(0) == low;
  }

  const TABLE := 256

  function TableEntry(i: bv8): Bits {
    Serial(Zero(WIDTH), BitsOf(i))
  }

  lemma {:induction false} ByteStep(reg: Bits, b: bv8)
    requires |reg| == WIDTH
    ensures Serial(reg, BitsOf(b)) == Xor(Left(reg, 8), TableEntry(ByteOf(Xor(reg[..8], BitsOf(b)))))
  {
    FastStep(reg, BitsOf(b));
    ByteRoundTrip(Xor(reg[..8], BitsOf(b)));
  }

  // j after t steps: what is left of the byte, and the marker bit that follows it.
  function Marked(b: Bits, t: nat): (j: Bits)
    requires |b| == 8 && t <= 8
    ensures |j| == WIDTH
  {
    b[t..] + [true] + Zero(23 + t)
  }

  lemma MarkedStep(b: Bits, t: nat)
    requires |b| == 8 && t < 8
    ensures Marked(b, t)[0] == b[t] && Left(Marked(b, t), 1) == Marked(b, t + 1)
    ensures Marked(b, t) != [true] + Zero(31)
  {
    assert Marked(b, t)[8 - t] && !([true] + Zero(31))[8 - t];
    assert Marked(b, t)[1..] + [false] == Marked(b, t + 1);
  }

  method MakeEntry(i: bv8) returns (k: Bits)
    ensures k == TableEntry(i)
  {
    k := Zero(WIDTH);
    ghost var t: nat, b := 0, BitsOf(i);
    var j := BitsOf(i) + [true] + Zero(23);
    assert b[0..] == b;
    assert Marked(b, 8) == [true] + Zero(31);
    while j != [true] + Zero(31)
      invariant t <= 8 && |k| == WIDTH && j == Marked(b, t)
      invariant Serial(k, b[t..]) == TableEntry(i)
      decreases 8 - t
    {
      MarkedStep(b, t);
      k := BitStep(k, j[0]);
      assert b[t..][1..] == b[t + 1..];
      j := Left(j, 1);
      t := t + 1;
    }
    if t < 8 { MarkedStep(b, t); }
    assert t == 8;
  }

  ghost predicate IsTable(t: seq<Bits>) {
    |t| == TABLE && forall i: bv8 :: t[i as int] == TableEntry(i)
  }

  ghost function Entries(): (es: seq<Bits>)
    ensures |es| == TABLE && IsTable(es)
  {
    seq(TABLE, i requires 0 <= i < TABLE => TableEntry(i as bv8))
  }

  method MakeTable() returns (crc_table: array<Bits>)
    ensures fresh(crc_table) && IsTable(crc_table[..])
  {
    crc_table := new Bits[TABLE];
    ghost var es := Entries();
    for i := 0 to TABLE
      invariant crc_table[..i] == es[..i]
    {
      crc_table[i] := EntryFor(i, es);
    }
    assert crc_table[..] == es;
  }

  method EntryFor(i: nat, ghost es: seq<Bits>) returns (k: Bits)
    requires i < TABLE && es == Entries()
    ensures k == es[i]
  {
    k := MakeEntry(i as bv8);
  }

  lemma MessageGrows(bytes: seq<bv8>, i: nat)
    requires i < |bytes|
    ensures Message(bytes[..i + 1]) == Message(bytes[..i]) + BitsOf(bytes[i])
  {
    assert bytes[..i + 1][..i] == bytes[..i];
  }

  lemma ZerosGrow(m: Bits, n: nat)
    ensures m + Zero(8 * (n + 1)) == m + Zero(8 * n) + BitsOf(0)
  {
  }

  method NextCrc(crc_table: array<Bits>, reg: Bits, b: bv8) returns (i_crc: Bits)
    requires |reg| == WIDTH && IsTable(crc_table[..])
    ensures i_crc == Serial(reg, BitsOf(b))
  {
    ByteStep(reg, b);
    var index := ByteOf(Xor(reg[..8], BitsOf(b)));
    assert crc_table[..][index as int] == TableEntry(index);
    i_crc := Xor(Left(reg, 8), crc_table[index as int]);
  }

  method CRCCalc(bytes: seq<bv8>, zeros_num: nat) returns (i_crc: Bits)
    ensures i_crc == Crc(bytes, zeros_num)
  {
    var crc_table := MakeTable();
    i_crc := Ones(WIDTH);
    ghost var start := i_crc;
    for i := 0 to |bytes|
      invariant IsTable(crc_table[..])
      invariant |i_crc| == WIDTH && i_crc == Serial(start, Message(bytes[..i]))
    {
      MessageGrows(bytes, i);
      SerialSplits(start, Message(bytes[..i]), BitsOf(bytes[i]));
      i_crc := NextCrc(crc_table, i_crc, bytes[i]);
    }
    ghost var m := Message(bytes);
    assert bytes[..|bytes|] == bytes && m + Zero(0) == m;
    for i := 0 to zeros_num
      invariant IsTable(crc_table[..])
      invariant |i_crc| == WIDTH && i_crc == Serial(start, m + Zero(8 * i))
    {
      ZerosGrow(m, i);
      SerialSplits(start, m + Zero(8 * i), BitsOf(0));
      i_crc := NextCrc(crc_table, i_crc, 0);
    }
  }

  // ---- the errors it detects ----

  lemma {:induction false} BurstOnTop(s: Bits, v: Bits)
    requires |s| == WIDTH && |v| <= WIDTH
    ensures Serial(s, v) == Serial(Xor(s, OnTop(v)), Zero(|v|))
  {
    TopBitsEnter(Xor(s, OnTop(v)), v, v);
    assert Xor(Xor(s, OnTop(v)), OnTop(v)) == s;
    assert Xor(v, v) == Zero(|v|);
    TopBitsEnter(s, v, Zero(|v|));
    assert Xor(v, Zero(|v|)) == v;
  }

  // Two messages that differ only within 32 successive bits have different CRCs.
  lemma {:induction false} BurstsAreDetected(reg: Bits, before: Bits, v: Bits, w: Bits, after: Bits)
    requires |reg| == WIDTH && |v| == |w| <= WIDTH && v != w
    ensures Serial(reg, before + v + after) != Serial(reg, before + w + after)
  {
    SerialSplits(reg, before + v, after);
    SerialSplits(reg, before + w, after);
    SerialSplits(reg, before, v);
    SerialSplits(reg, before, w);
    var s := Serial(reg, before);
    if Serial(Serial(s, v), after) == Serial(Serial(s, w), after) {
      SerialIsInjective(Serial(s, v), Serial(s, w), after);
      BurstOnTop(s, v);
      BurstOnTop(s, w);
      SerialIsInjective(Xor(s, OnTop(v)), Xor(s, OnTop(w)), Zero(|v|));
      SameOnTop(s, v, w);
    }
  }

  lemma SameOnTop(s: Bits, v: Bits, w: Bits)
    requires |s| == WIDTH && |v| == |w| <= WIDTH && Xor(s, OnTop(v)) == Xor(s, OnTop(w))
    ensures v == w
  {
    forall i | 0 <= i < |v| ensures v[i] == w[i] {
      assert Xor(s, OnTop(v))[i] == Xor(s, OnTop(w))[i];
    }
  }
}
