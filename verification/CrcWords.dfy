// Registers as words: the CRCs of given messages, and two flipped bits.
module CrcWords {
  import opened Crc32
  import opened CrcPolynomial

  // The bits of w, most significant first.
  ghost predicate Shows(w: bv32, r: Bits) {
    && |r| == WIDTH
    && r[0] == (w & 0x8000_0000 != 0) && r[1] == (w & 0x4000_0000 != 0)
    && r[2] == (w & 0x2000_0000 != 0) && r[3] == (w & 0x1000_0000 != 0)
    && r[4] == (w & 0x0800_0000 != 0) && r[5] == (w & 0x0400_0000 != 0)
    && r[6] == (w & 0x0200_0000 != 0) && r[7] == (w & 0x0100_0000 != 0)
    && r[8] == (w & 0x0080_0000 != 0) && r[9] == (w & 0x0040_0000 != 0)
    && r[10] == (w & 0x0020_0000 != 0) && r[11] == (w & 0x0010_0000 != 0)
    && r[12] == (w & 0x0008_0000 != 0) && r[13] == (w & 0x0004_0000 != 0)
    && r[14] == (w & 0x0002_0000 != 0) && r[15] == (w & 0x0001_0000 != 0)
    && r[16] == (w & 0x0000_8000 != 0) && r[17] == (w & 0x0000_4000 != 0)
    && r[18] == (w & 0x0000_2000 != 0) && r[19] == (w & 0x0000_1000 != 0)
    && r[20] == (w & 0x0000_0800 != 0) && r[21] == (w & 0x0000_0400 != 0)
    && r[22] == (w & 0x0000_0200 != 0) && r[23] == (w & 0x0000_0100 != 0)
    && r[24] == (w & 0x0000_0080 != 0) && r[25] == (w & 0x0000_0040 != 0)
    && r[26] == (w & 0x0000_0020 != 0) && r[27] == (w & 0x0000_0010 != 0)
    && r[28] == (w & 0x0000_0008 != 0) && r[29] == (w & 0x0000_0004 != 0)
    && r[30] == (w & 0x0000_0002 != 0) && r[31] == (w & 0x0000_0001 != 0)
  }

  function Feed(w: bv32, bit: bool): bv32 {
    if (w & 0x8000_0000 != 0) != bit then (w + w) ^ 0x04c1_1db7 else w + w
  }

  lemma FeedShows(w: bv32, r: Bits, bit: bool)
    requires Shows(w, r)
    ensures Shows(Feed(w, bit), BitStep(r, bit))
  {
    if r[0] != bit { FeedAdds(w, r, bit, Feed(w, bit)); } else { FeedShifts(w, r, bit, Feed(w, bit)); }
  }

  lemma FeedAdds(w: bv32, r: Bits, bit: bool, v: bv32)
    requires Shows(w, r) && r[0] != bit && v == (w + w) ^ 0x04c1_1db7
    ensures Shows(v, BitStep(r, bit))
  {
    var x := w + w;
    ShiftShows(w, r, x);
    AddShows(x, Left(r, 1), v);
  }

  lemma FeedShifts(w: bv32, r: Bits, bit: bool, v: bv32)
    requires Shows(w, r) && r[0] == bit && v == w + w
    ensures Shows(v, BitStep(r, bit))
  {
    ShiftShows(w, r, v);
  }

  lemma ShiftShows(w: bv32, r: Bits, v: bv32)
    requires Shows(w, r) && v == w + w
    ensures Shows(v, Left(r, 1))
  {
  }

  lemma AddShows(w: bv32, r: Bits, v: bv32)
    requires Shows(w, r) && v == w ^ 0x04c1_1db7
    ensures Shows(v, Xor(r, POLY))
  {
  }

  // ---- given messages ----

  function FeedAll(w: bv32, bits: Bits): bv32
    decreases |bits|
  {
    if bits == [] then w else FeedAll(Feed(w, bits[0]), bits[1..])
  }

  lemma {:induction false} FeedAllShows(w: bv32, r: Bits, bits: Bits)
    requires Shows(w, r)
    ensures Shows(FeedAll(w, bits), Serial(r, bits))
    decreases |bits|
  {
    if bits != [] {
      FeedShows(w, r, bits[0]);
      FeedAllShows(Feed(w, bits[0]), BitStep(r, bits[0]), bits[1..]);
    }
  }

  function FeedByte(w: bv32, b: bv8): bv32 {
    FeedFour(FeedFour(w, b & 0x80 != 0, b & 0x40 != 0, b & 0x20 != 0, b & 0x10 != 0),
             b & 0x08 != 0, b & 0x04 != 0, b & 0x02 != 0, b & 0x01 != 0)
  }

  function FeedFour(w: bv32, a: bool, b: bool, c: bool, d: bool): bv32 {
    Feed(Feed(Feed(Feed(w, a), b), c), d)
  }

  lemma {:induction false} FeedByteIs(w: bv32, b: bv8)
    ensures FeedAll(w, BitsOf(b)) == FeedByte(w, b)
  {
    var s := BitsOf(b);
    var v := FeedFour(w, s[0], s[1], s[2], s[3]);
    FourFed(w, s, v);
    LastFourFed(v, s[4..], FeedByte(w, b));
  }

  lemma {:induction false} LastFourFed(w: bv32, s: Bits, v: bv32)
    requires |s| == 4 && v == FeedFour(w, s[0], s[1], s[2], s[3])
    ensures FeedAll(w, s) == v
  {
    FourFed(w, s, v);
  }

  lemma {:induction false} FourFed(w: bv32, s: Bits, v: bv32)
    requires |s| >= 4 && v == FeedFour(w, s[0], s[1], s[2], s[3])
    ensures FeedAll(w, s) == FeedAll(v, s[4..])
  {
    var x := Feed(w, s[0]);
    var y := Feed(x, s[1]);
    var z := Feed(y, s[2]);
    OneFed(w, s, 0, x);
    OneFed(x, s, 1, y);
    OneFed(y, s, 2, z);
    OneFed(z, s, 3, v);
    assert s[0..] == s;
  }

  lemma {:induction false} OneFed(w: bv32, s: Bits, i: nat, v: bv32)
    requires i < |s| && v == Feed(w, s[i])
    ensures FeedAll(w, s[i..]) == FeedAll(v, s[i + 1..])
  {
    assert s[i..][1..] == s[i + 1..];
  }

  function FeedBytes(w: bv32, bytes: seq<bv8>): bv32 {
    if bytes == [] then w else FeedByte(FeedBytes(w, bytes[..|bytes| - 1]), bytes[|bytes| - 1])
  }

  lemma {:induction false} FeedBytesShows(bytes: seq<bv8>)
    ensures Shows(FeedBytes(0xffff_ffff, bytes), Serial(Ones(WIDTH), Message(bytes)))
  {
    if bytes != [] {
      var front, b := bytes[..|bytes| - 1], bytes[|bytes| - 1];
      FeedBytesShows(front);
      FeedByteShows(FeedBytes(0xffff_ffff, front), Serial(Ones(WIDTH), Message(front)), b);
      SerialSplits(Ones(WIDTH), Message(front), BitsOf(b));
    }
  }

  lemma {:induction false} FeedByteShows(w: bv32, r: Bits, b: bv8)
    requires Shows(w, r)
    ensures Shows(FeedByte(w, b), Serial(r, BitsOf(b)))
  {
    FeedAllShows(w, r, BitsOf(b));
    FeedByteIs(w, b);
  }

  // The CRC of the bytes is w.
  lemma {:induction false} CrcIs(bytes: seq<bv8>, w: bv32)
    requires FeedBytes(0xffff_ffff, bytes) == w
    ensures Shows(w, Crc(bytes, 0))
  {
    FeedBytesShows(bytes);
    assert Message(bytes) + Zero(0) == Message(bytes);
  }

  lemma OneMoreByte(bytes: seq<bv8>, b: bv8, w: bv32, v: bv32) returns (more: seq<bv8>)
    requires FeedBytes(0xffff_ffff, bytes) == w && FeedByte(w, b) == v
    ensures more == bytes + [b] && FeedBytes(0xffff_ffff, more) == v
  {
    more := bytes + [b];
    assert more[..|bytes|] == bytes;
  }

  // The CRC of one zero byte.
  lemma CrcOfZero()
    ensures Shows(0x4e08_bfb4, Crc([0], 0))
  {
    var m := OneMoreByte([], 0, 0xffff_ffff, 0x4e08_bfb4);
    CrcIs(m, 0x4e08_bfb4);
  }

  lemma FedDigits() returns (m: seq<bv8>)
    ensures m == [0x31, 0x32, 0x33, 0x34, 0x35, 0x36, 0x37, 0x38, 0x39]
    ensures FeedBytes(0xffff_ffff, m) == 0x0376_e6e7
  {
    m := OneMoreByte([], 0x31, 0xffff_ffff, 0x9efb_cf93);
    m := OneMoreByte(m, 0x32, 0x9efb_cf93, 0x3fec_5e6a);
    m := OneMoreByte(m, 0x33, 0x3fec_5e6a, 0xd952_f164);
    m := OneMoreByte(m, 0x34, 0xd952_f164, 0xa695_c4aa);
    m := OneMoreByte(m, 0x35, 0xa695_c4aa, 0xbd9a_b747);
    m := OneMoreByte(m, 0x36, 0xbd9a_b747, 0xd8f0_6c8f);
    m := OneMoreByte(m, 0x37, 0xd8f0_6c8f, 0x0d8a_14c4);
    m := OneMoreByte(m, 0x38, 0x0d8a_14c4, 0x49e3_c2fb);
    m := OneMoreByte(m, 0x39, 0x49e3_c2fb, 0x0376_e6e7);
  }

  // The CRC of the nine characters 123456789.
  lemma CheckValue()
    ensures Shows(0x0376_e6e7, Crc([0x31, 0x32, 0x33, 0x34, 0x35, 0x36, 0x37, 0x38, 0x39], 0))
  {
    var m := FedDigits();
    CrcIs(m, 0x0376_e6e7);
  }

  // ---- two flipped bits ----

  function Top(): (r: Bits)
    ensures |r| == WIDTH
  {
    [true] + Zero(WIDTH - 1)
  }

  // In n steps without message bits the register goes from w to v, and is not just the top bit before.
  predicate Walks(w: bv32, n: nat, v: bv32)
    decreases n
  {
    if n == 0 then w == v
    else if w == 0x8000_0000 then false
    else if w & 0x8000_0000 != 0 then Walks((w + w) ^ 0x04c1_1db7, n - 1, v)
    else Walks(w + w, n - 1, v)
  }

  ghost predicate Avoids(r: Bits, n: nat)
    requires |r| == WIDTH
  {
    forall k: nat | k < n :: Serial(r, Zero(k)) != Top()
  }

  lemma {:induction false} WalkShows(w: bv32, n: nat, v: bv32, r: Bits)
    requires Shows(w, r) && Walks(w, n, v)
    ensures Shows(v, Serial(r, Zero(n))) && Avoids(r, n)
    decreases n
  {
    if n > 0 {
      FeedShows(w, r, false);
      WalkShows(Feed(w, false), n - 1, v, BitStep(r, false));
      assert Zero(n)[1..] == Zero(n - 1);
      AvoidsOneMore(r, n, w);
    }
  }

  lemma AvoidsOneMore(r: Bits, n: nat, w: bv32)
    requires n > 0 && Shows(w, r) && w != 0x8000_0000 && Avoids(BitStep(r, false), n - 1)
    ensures Avoids(r, n)
  {
    if r == Top() {
      assert false;
    }
    forall k: nat | k < n
      ensures Serial(r, Zero(k)) != Top()
    {
      if k > 0 { assert Zero(k)[1..] == Zero(k - 1); }
    }
  }

  lemma {:induction false} WalksAdd(w: bv32, n: nat, v: bv32, m: nat, u: bv32)
    requires Walks(w, n, v) && Walks(v, m, u)
    ensures Walks(w, n + m, u)
    decreases n
  {
    if n > 0 { WalksAdd(if w & 0x8000_0000 != 0 then (w + w) ^ 0x04c1_1db7 else w + w, n - 1, v, m, u); }
  }

  // So many steps lead from each word to the next.
  ghost predicate WalksOn(ws: seq<bv32>, stride: nat) {
    forall i: nat | i + 1 < |ws| :: Walks(ws[i], stride, ws[i + 1])
  }

  // Eight steps, none of them from the top bit alone: what it becomes in one to eight steps is not v.
  predicate Stride(w: bv32, v: bv32) {
    && v == FeedByte(w, 0)
    && v != 0x04c1_1db7 && v != 0x0982_3b6e && v != 0x1304_76dc && v != 0x2608_edb8
    && v != 0x4c11_db70 && v != 0x9823_b6e0 && v != 0x3486_7077 && v != 0x690c_e0ee
  }

  // The top bit alone after t steps.
  function FromTop(t: nat): bv32 {
    if t == 0 then 0x8000_0000 else Feed(FromTop(t - 1), false)
  }

  lemma {:induction false} EightFromTop()
    ensures FromTop(1) == 0x04c1_1db7 && FromTop(2) == 0x0982_3b6e && FromTop(3) == 0x1304_76dc
    ensures FromTop(4) == 0x2608_edb8
    ensures FromTop(5) == 0x4c11_db70 && FromTop(6) == 0x9823_b6e0 && FromTop(7) == 0x3486_7077
    ensures FromTop(8) == 0x690c_e0ee
  {
    assert FromTop(1) == 0x04c1_1db7;
    assert FromTop(2) == 0x0982_3b6e;
    assert FromTop(3) == 0x1304_76dc;
    assert FromTop(4) == 0x2608_edb8;
    assert FromTop(5) == 0x4c11_db70;
    assert FromTop(6) == 0x9823_b6e0;
    assert FromTop(7) == 0x3486_7077;
  }

  // v is not what the top bit becomes in up to n steps.
  ghost predicate Clear(v: bv32, n: nat) {
    forall t: nat | 1 <= t <= n :: v != FromTop(t)
  }

  lemma {:induction false} ClearBefore(w: bv32, u: bv32, v: bv32, n: nat, m: nat)
    requires u == Feed(w, false) && Clear(u, n + 1) && Walks(u, m, v)
    ensures Clear(w, n) && Walks(w, m + 1, v)
  {
    assert u != FromTop(1) && FromTop(0) == 0x8000_0000;
    StepWalks(w, u, v, m);
    forall t: nat | 1 <= t <= n
      ensures w != FromTop(t)
    {
      assert FromTop(t + 1) == Feed(FromTop(t), false);
    }
  }

  lemma StrideIsClear(w: bv32, v: bv32)
    requires Stride(w, v)
    ensures Clear(v, 8)
  {
    EightFromTop();
  }

  lemma {:induction false} StrideWalks(w: bv32, v: bv32, n: nat)
    requires Stride(w, v) && n == 8
    ensures Walks(w, n, v)
  {
    StrideIsClear(w, v);
    var a := Feed(w, false);
    var b := Feed(a, false);
    var c := Feed(b, false);
    var d := Feed(c, false);
    var e := Feed(d, false);
    var f := Feed(e, false);
    var g := Feed(f, false);
    ClearBefore(g, v, v, n - 1, n - 8);
    ClearBefore(f, g, v, n - 2, n - 7);
    ClearBefore(e, f, v, n - 3, n - 6);
    ClearBefore(d, e, v, n - 4, n - 5);
    ClearBefore(c, d, v, n - 5, n - 4);
    ClearBefore(b, c, v, n - 6, n - 3);
    ClearBefore(a, b, v, n - 7, n - 2);
    ClearBefore(w, a, v, n - 8, n - 1);
  }

  lemma {:induction false} StepWalks(w: bv32, u: bv32, v: bv32, n: nat)
    requires w != 0x8000_0000 && u == Feed(w, false) && Walks(u, n, v)
    ensures Walks(w, n + 1, v)
  {
  }

  lemma OneMoreWalk(ws: seq<bv32>, stride: nat, w: bv32, v: bv32) returns (more: seq<bv32>)
    requires ws != [] && ws[|ws| - 1] == w && WalksOn(ws, stride) && Stride(w, v) && stride == 8
    ensures more == ws + [v] && WalksOn(more, stride)
  {
    StrideWalks(w, v, stride);
    more := ws + [v];
  }

  lemma {:induction false} AllOfIt(ws: seq<bv32>, stride: nat, n: nat)
    requires n < |ws| && WalksOn(ws, stride)
    ensures Walks(ws[0], n * stride, ws[n])
  {
    if n > 0 {
      AllOfIt(ws, stride, n - 1);
      assert Walks(ws[n - 1], stride, ws[n - 1 + 1]);
      WalksAdd(ws[0], (n - 1) * stride, ws[n - 1], stride, ws[n]);
    }
  }

  lemma Walk88() returns (ws: seq<bv32>)
    ensures |ws| == 12 && ws[0] == 0x04c1_1db7 && ws[11] == 0x07f6_e306 && WalksOn(ws, 8)
  {
    ws := [0x04c1_1db7];
    ws := OneMoreWalk(ws, 8, 0x04c1_1db7, 0xd219_c1dc);
    ws := OneMoreWalk(ws, 8, 0xd219_c1dc, 0x01d8_ac87);
    ws := OneMoreWalk(ws, 8, 0x01d8_ac87, 0xdc6d_9ab7);
    ws := OneMoreWalk(ws, 8, 0xdc6d_9ab7, 0x490d_678d);
    ws := OneMoreWalk(ws, 8, 0x490d_678d, 0x1b28_0d78);
    ws := OneMoreWalk(ws, 8, 0x1b28_0d78, 0x4f57_6811);
    ws := OneMoreWalk(ws, 8, 0x4f57_6811, 0x5ba1_dcca);
    ws := OneMoreWalk(ws, 8, 0x5ba1_dcca, 0xf200_aa66);
    ws := OneMoreWalk(ws, 8, 0xf200_aa66, 0x8090_a067);
    ws := OneMoreWalk(ws, 8, 0x8090_a067, 0xf9ac_87ee);
    ws := OneMoreWalk(ws, 8, 0xf9ac_87ee, 0x07f6_e306);
  }

  lemma Walk176() returns (ws: seq<bv32>)
    ensures |ws| == 23 && ws[0] == 0x04c1_1db7 && ws[22] == 0x064c_29d0 && WalksOn(ws, 8)
  {
    ws := Walk88();
    ws := OneMoreWalk(ws, 8, 0x07f6_e306, 0xe8a4_5605);
    ws := OneMoreWalk(ws, 8, 0xe8a4_5605, 0x47f7_cec1);
    ws := OneMoreWalk(ws, 8, 0x47f7_cec1, 0xdd0f_e172);
    ws := OneMoreWalk(ws, 8, 0xdd0f_e172, 0x2fb7_bf3a);
    ws := OneMoreWalk(ws, 8, 0x2fb7_bf3a, 0x17d3_315d);
    ws := OneMoreWalk(ws, 8, 0x17d3_315d, 0x8167_d675);
    ws := OneMoreWalk(ws, 8, 0x8167_d675, 0x0a1b_8859);
    ws := OneMoreWalk(ws, 8, 0x0a1b_8859, 0x3402_8fd6);
    ws := OneMoreWalk(ws, 8, 0x3402_8fd6, 0xc5b9_cd4c);
    ws := OneMoreWalk(ws, 8, 0xc5b9_cd4c, 0xf382_b7f2);
    ws := OneMoreWalk(ws, 8, 0xf382_b7f2, 0x064c_29d0);
  }

  lemma Walk264() returns (ws: seq<bv32>)
    ensures |ws| == 34 && ws[0] == 0x04c1_1db7 && ws[33] == 0x9ad3_836f && WalksOn(ws, 8)
  {
    ws := Walk176();
    ws := OneMoreWalk(ws, 8, 0x064c_29d0, 0x56af_9db2);
    ws := OneMoreWalk(ws, 8, 0x56af_9db2, 0xcd8c_54b5);
    ws := OneMoreWalk(ws, 8, 0xcd8c_54b5, 0xe013_a34a);
    ws := OneMoreWalk(ws, 8, 0xe013_a34a, 0xd60a_6c79);
    ws := OneMoreWalk(ws, 8, 0xd60a_6c79, 0x0171_7f5b);
    ws := OneMoreWalk(ws, 8, 0x0171_7f5b, 0x75be_46b7);
    ws := OneMoreWalk(ws, 8, 0x75be_46b7, 0x4937_c18c);
    ws := OneMoreWalk(ws, 8, 0x4937_c18c, 0x218e_0c78);
    ws := OneMoreWalk(ws, 8, 0x218e_0c78, 0x12ee_d357);
    ws := OneMoreWalk(ws, 8, 0x12ee_d357, 0xab40_b71e);
    ws := OneMoreWalk(ws, 8, 0xab40_b71e, 0x9ad3_836f);
  }

  // In 264 steps the register that was POLY is never just the top bit.
  lemma PolyAvoidsTop(n: nat)
    requires n == 264
    ensures Avoids(POLY, n)
  {
    var ws := Walk264();
    AllOfIt(ws, 8, 33);
    assert Xor(Zero(WIDTH), POLY) == POLY;
    AddShows(0, Zero(WIDTH), ws[0]);
    WalkShows(ws[0], n, ws[33], POLY);
  }

  lemma {:induction false} FlipsStayApart(reg: Bits, a: bool, mid: Bits)
    requires |reg| == WIDTH && |mid| < 264
    ensures Xor(Serial(BitStep(reg, a), mid), Serial(BitStep(reg, !a), mid)) != Top()
  {
    var x, y := BitStep(reg, a), BitStep(reg, !a);
    assert Xor(x, y) == POLY;
    assert Xor(mid, mid) == Zero(|mid|);
    SerialIsLinear(x, y, mid, mid);
    PolyAvoidsTop(264);
  }

  // Two flipped bits up to 264 places apart make a different CRC.
  lemma {:induction false} TwoFlipsAreDetected(reg: Bits, before: Bits, a: bool, mid: Bits, b: bool, after: Bits)
    requires |reg| == WIDTH && |mid| < 264
    ensures Serial(reg, before + [a] + mid + [b] + after) != Serial(reg, before + [!a] + mid + [!b] + after)
  {
    var s := Serial(reg, before);
    Flipped(reg, before, a, mid, b, after);
    Flipped(reg, before, !a, mid, !b, after);
    FlipsStayApart(s, a, mid);
    var x, y := Serial(BitStep(s, a), mid), Serial(BitStep(s, !a), mid);
    if Serial(BitStep(x, b), after) == Serial(BitStep(y, !b), after) {
      SerialIsInjective(BitStep(x, b), BitStep(y, !b), after);
      OnlyTop(x, y, b);
    }
  }

  lemma {:induction false} Flipped(reg: Bits, before: Bits, a: bool, mid: Bits, b: bool, after: Bits)
    requires |reg| == WIDTH
    ensures Serial(reg, before + [a] + mid + [b] + after)
            == Serial(BitStep(Serial(BitStep(Serial(reg, before), a), mid), b), after)
  {
    var s := Serial(reg, before);
    SerialSplits(reg, before + [a] + mid + [b], after);
    SerialSplits(reg, before + [a] + mid, [b]);
    SerialSplits(reg, before + [a], mid);
    SerialSplits(reg, before, [a]);
    OneBit(s, a);
    OneBit(Serial(BitStep(s, a), mid), b);
  }

  lemma {:induction false} OneBit(reg: Bits, bit: bool)
    requires |reg| == WIDTH
    ensures Serial(reg, [bit]) == BitStep(reg, bit)
  {
    assert [bit][1..] == [];
  }

  lemma OnlyTop(x: Bits, y: Bits, b: bool)
    requires |x| == |y| == WIDTH && BitStep(x, b) == BitStep(y, !b)
    ensures Xor(x, y) == Top()
  {
    StepIsLinear(x, y, b, !b);
    XorItself(BitStep(x, b));
    StepOfTop();
    StepIsInjective(Xor(x, y), Top(), true);
  }

  lemma StepOfTop()
    ensures BitStep(Top(), true) == Zero(WIDTH)
  {
  }
}
