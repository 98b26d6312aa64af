// The frames of serial_parser.h: a header, a body, for commands four random bytes, the CRC of all
// after the header, and two end bytes.
module SerialFrame {
  import opened Crc32
  import CrcWords

  datatype SerialCmdType = kCmd | kOta

  const kSerialReturnMinLen := 19
  const kCrcBegin := 7

  const CMD: seq<bv8> := [0x24, 0x4C, 0x44, 0x43, 0x4D, 0x44, 0x2C]
  const OTA: seq<bv8> := [0x24, 0x4C, 0x44, 0x4F, 0x54, 0x41, 0x2C]

  function Header(t: SerialCmdType): (h: seq<bv8>)
    ensures |h| == kCrcBegin
  {
    if t == kCmd then CMD else OTA
  }

  // The length the CRC is padded to: the next multiple of four, 32 for 30.
  function PaddedLen(n: nat): (m: nat)
    ensures n <= m < n + 4 && m % 4 == 0
  {
    if n % 4 != 0 && n == 30 then 32 else if n % 4 != 0 && n != 30 then 4 * (n / 4 + 1) else n
  }

  function Padded(bytes: seq<bv8>): (r: Bits)
    ensures |r| == WIDTH
  {
    Crc(bytes, PaddedLen(|bytes|) - |bytes|)
  }

  // The bytes of a CRC, the least significant first for commands.
  function CrcBytes(t: SerialCmdType, crc: Bits): (r: seq<bv8>)
    requires |crc| == WIDTH
    ensures |r| == 4
  {
    var a, b, c, d := ByteOf(crc[..8]), ByteOf(crc[8..16]), ByteOf(crc[16..24]), ByteOf(crc[24..]);
    if t == kCmd then [d, c, b, a] else [a, b, c, d]
  }

  function CrcOf(t: SerialCmdType, s: seq<bv8>): (r: Bits)
    requires |s| == 4
    ensures |r| == WIDTH
  {
    if t == kCmd then BitsOf(s[3]) + BitsOf(s[2]) + BitsOf(s[1]) + BitsOf(s[0])
    else BitsOf(s[0]) + BitsOf(s[1]) + BitsOf(s[2]) + BitsOf(s[3])
  }

  lemma CrcBytesRoundTrip(t: SerialCmdType, crc: Bits)
    requires |crc| == WIDTH
    ensures CrcOf(t, CrcBytes(t, crc)) == crc
  {
    ByteRoundTrip(crc[..8]);
    ByteRoundTrip(crc[8..16]);
    ByteRoundTrip(crc[16..24]);
    ByteRoundTrip(crc[24..]);
    assert crc == crc[..8] + crc[8..16] + crc[16..24] + crc[24..];
  }

  lemma CrcOfIsInjective(t: SerialCmdType, a: seq<bv8>, b: seq<bv8>)
    requires |a| == |b| == 4 && CrcOf(t, a) == CrcOf(t, b)
    ensures a == b
  {
    if t == kCmd {
      FourBytes(a[3], a[2], a[1], a[0], b[3], b[2], b[1], b[0]);
    } else {
      FourBytes(a[0], a[1], a[2], a[3], b[0], b[1], b[2], b[3]);
    }
  }

  lemma FourBytes(a: bv8, b: bv8, c: bv8, d: bv8, a': bv8, b': bv8, c': bv8, d': bv8)
    requires BitsOf(a) + BitsOf(b) + BitsOf(c) + BitsOf(d) == BitsOf(a') + BitsOf(b') + BitsOf(c') + BitsOf(d')
    ensures a == a' && b == b' && c == c' && d == d'
  {
    FourParts(BitsOf(a), BitsOf(b), BitsOf(c), BitsOf(d), BitsOf(a'), BitsOf(b'), BitsOf(c'), BitsOf(d'));
    SameBytes(a, a');
    SameBytes(b, b');
    SameBytes(c, c');
    SameBytes(d, d');
  }

  lemma FourParts(a: Bits, b: Bits, c: Bits, d: Bits, a': Bits, b': Bits, c': Bits, d': Bits)
    requires |a| == |b| == |c| == |d| == |a'| == |b'| == |c'| == |d'| == 8
    requires a + b + c + d == a' + b' + c' + d'
    ensures a == a' && b == b' && c == c' && d == d'
  {
    var x, y := a + b + c + d, a' + b' + c' + d';
    assert a == x[..8] && b == x[8..16] && c == x[16..24] && d == x[24..];
    assert a' == y[..8] && b' == y[8..16] && c' == y[16..24] && d' == y[24..];
  }

  lemma SameBytes(a: bv8, b: bv8)
    ensures BitsOf(a) == BitsOf(b) ==> a == b
  {
    BitsRoundTrip(a);
    BitsRoundTrip(b);
  }

  // The CRC of 123456789 as it is sent: the least significant byte first in commands, last in upgrades.
  lemma CheckBytes()
    ensures var crc := Crc([0x31, 0x32, 0x33, 0x34, 0x35, 0x36, 0x37, 0x38, 0x39], 0);
      && CrcBytes(kCmd, crc) == [0xE7, 0xE6, 0x76, 0x03]
      && CrcBytes(kOta, crc) == [0x03, 0x76, 0xE6, 0xE7]
  {
    CrcWords.CheckValue();
    BytesOf(0x0376_e6e7, Crc([0x31, 0x32, 0x33, 0x34, 0x35, 0x36, 0x37, 0x38, 0x39], 0));
  }

  lemma BytesOf(w: bv32, crc: Bits)
    requires CrcWords.Shows(w, crc) && w == 0x0376_e6e7
    ensures ByteOf(crc[..8]) == 0x03 && ByteOf(crc[8..16]) == 0x76
    ensures ByteOf(crc[16..24]) == 0xE6 && ByteOf(crc[24..]) == 0xE7
  {
  }

  // ---- frames as values ----

  // What follows the header: the body, for commands the random bytes, the CRC and the end.
  function Covered(t: SerialCmdType, body: seq<bv8>, rand: seq<bv8>): seq<bv8> {
    if t == kCmd then body + rand else body
  }

  function Encoded(t: SerialCmdType, body: seq<bv8>, rand: seq<bv8>): seq<bv8> {
    var covered := Covered(t, body, rand);
    Header(t) + covered + CrcBytes(t, Padded(covered)) + [0xEE, 0xFF]
  }

  // A frame begins with $LDCMD, or $LDOTA, and its kind can be read off its fourth byte.
  lemma KindCanBeRead(t: SerialCmdType, body: seq<bv8>, rand: seq<bv8>)
    ensures var s := Encoded(t, body, rand);
      && |s| >= 7
      && (t == kCmd ==> s[..7] == [0x24, 0x4C, 0x44, 0x43, 0x4D, 0x44, 0x2C] && s[3] == 0x43)
      && (t == kOta ==> s[..7] == [0x24, 0x4C, 0x44, 0x4F, 0x54, 0x41, 0x2C] && s[3] == 0x4F)
  {
    BeginsWithHeader(t, body, rand, Encoded(t, body, rand));
  }

  lemma BeginsWithHeader(t: SerialCmdType, body: seq<bv8>, rand: seq<bv8>, s: seq<bv8>)
    requires s == Encoded(t, body, rand)
    ensures |s| >= 7 && s[..7] == Header(t) && s[3] == Header(t)[3]
  {
    var c := Covered(t, body, rand);
    Begins(Header(t), c, CrcBytes(t, Padded(c)), s);
  }

  lemma Begins(h: seq<bv8>, c: seq<bv8>, crc: seq<bv8>, s: seq<bv8>)
    requires |h| == kCrcBegin && s == h + c + crc + [0xEE, 0xFF]
    ensures |s| >= 7 && s[..7] == h && s[3] == h[3]
  {
    assert forall i | 0 <= i < 7 :: s[i] == h[i];
  }

  lemma KindsDiffer(body: seq<bv8>, rand: seq<bv8>, body': seq<bv8>, rand': seq<bv8>)
    ensures Encoded(kCmd, body, rand) != Encoded(kOta, body', rand')
  {
    KindCanBeRead(kCmd, body, rand);
    KindCanBeRead(kOta, body', rand');
  }

  // The checks of the decoder before it looks at the length byte.
  predicate Ends(s: seq<bv8>) {
    |s| >= kSerialReturnMinLen && s[|s| - 2] == 0xEE && s[|s| - 1] == 0xFF
  }

  predicate CrcFits(t: SerialCmdType, covered: seq<bv8>, crc: seq<bv8>)
    requires |crc| == 4
  {
    CrcOf(t, crc) == Padded(covered)
  }

  predicate Accepted(t: SerialCmdType, s: seq<bv8>) {
    Ends(s) && CrcFits(t, s[kCrcBegin..|s| - 6], s[|s| - 6..|s| - 2])
  }

  function Body(s: seq<bv8>): seq<bv8>
    requires |s| >= kSerialReturnMinLen
  {
    s[kCrcBegin..|s| - 10]
  }

  predicate Decodes(t: SerialCmdType, s: seq<bv8>) {
    Accepted(t, s) && Body(s)[0] as int + 2 == |Body(s)|
  }

  lemma Parts(h: seq<bv8>, c: seq<bv8>, crc: seq<bv8>, end: seq<bv8>)
    requires |h| == kCrcBegin && |crc| == 4 && |end| == 2
    ensures var s, n := h + c + crc + end, |c| + 13;
      && |s| == n && s[kCrcBegin..n - 6] == c && s[n - 6..n - 2] == crc && s[n - 2..] == end
  {
  }

  lemma FitsItself(t: SerialCmdType, c: seq<bv8>)
    ensures CrcFits(t, c, CrcBytes(t, Padded(c)))
  {
    CrcBytesRoundTrip(t, Padded(c));
  }

  // An encoded frame passes all checks but that of its length byte if it is long enough; its body
  // is all that the CRC covers, but for the last four bytes.
  lemma EncodedIsAccepted(t: SerialCmdType, body: seq<bv8>, rand: seq<bv8>)
    requires |rand| == 4
    ensures var s, c := Encoded(t, body, rand), Covered(t, body, rand);
      && (Accepted(t, s) <==> |c| >= 6)
      && (|c| >= 6 ==> Body(s) == c[..|c| - 4])
  {
    var c := Covered(t, body, rand);
    FitsItself(t, c);
    FrameParts(Header(t), c, CrcBytes(t, Padded(c)), Encoded(t, body, rand));
  }

  lemma FrameParts(h: seq<bv8>, c: seq<bv8>, crc: seq<bv8>, s: seq<bv8>)
    requires |h| == kCrcBegin && |crc| == 4 && s == h + c + crc + [0xEE, 0xFF]
    ensures |s| == |c| + 13 && s[kCrcBegin..|s| - 6] == c && s[|s| - 6..|s| - 2] == crc
    ensures (Ends(s) <==> |c| >= 6) && (|c| >= 6 ==> Body(s) == c[..|c| - 4])
  {
    var n := |c| + 13;
    Parts(h, c, crc, [0xEE, 0xFF]);
    assert s[n - 2] == s[n - 2..][0] && s[n - 1] == s[n - 2..][1];
    if |c| >= 6 {
      assert s[kCrcBegin..n - 10] == s[kCrcBegin..n - 6][..|c| - 4];
    }
  }

  // The decoder gives a command back if and only if its first byte is its length less two, and the
  // body has at least those two bytes.
  lemma CommandRoundTrip(body: seq<bv8>, rand: seq<bv8>)
    requires |rand| == 4
    ensures Decodes(kCmd, Encoded(kCmd, body, rand)) <==> |body| >= 2 && body[0] as int + 2 == |body|
    ensures |body| >= 2 ==> Body(Encoded(kCmd, body, rand)) == body
  {
    EncodedIsAccepted(kCmd, body, rand);
    assert (body + rand)[..|body|] == body;
  }

  // An upgrade frame has no random bytes, but the decoder leaves out four all the same.
  lemma OtaLosesFourBytes(body: seq<bv8>, rand: seq<bv8>)
    requires |rand| == 4
    ensures Decodes(kOta, Encoded(kOta, body, rand)) <==> |body| >= 6 && body[0] as int + 2 == |body| - 4
    ensures |body| >= 6 ==> Body(Encoded(kOta, body, rand)) == body[..|body| - 4]
  {
    EncodedIsAccepted(kOta, body, rand);
  }

  // ---- errors ----

  lemma {:induction false} MessageSplits(a: seq<bv8>, b: seq<bv8>)
    ensures Message(a + b) == Message(a) + Message(b)
    decreases |b|
  {
    if b == [] {
      assert a + b == a;
    } else {
      var n := |b| - 1;
      MessageSplits(a, b[..n]);
      LastApart(a, b);
      MessageEnds(a + b[..n], b[n]);
      Associates(Message(a), Message(b[..n]), BitsOf(b[n]));
    }
  }

  lemma LastApart(a: seq<bv8>, b: seq<bv8>)
    requires b != []
    ensures a + b == a + b[..|b| - 1] + [b[|b| - 1]]
  {
  }

  lemma Associates(a: Bits, b: Bits, c: Bits)
    ensures a + b + c == a + (b + c)
  {
  }

  lemma {:induction false} MessageEnds(m: seq<bv8>, x: bv8)
    ensures Message(m + [x]) == Message(m) + BitsOf(x)
  {
    assert (m + [x])[..|m|] == m;
  }

  lemma {:induction false} MessageIsInjective(a: seq<bv8>, b: seq<bv8>)
    requires |a| == |b| && Message(a) == Message(b)
    ensures a == b
    decreases |a|
  {
    if a != [] {
      var n := |a| - 1;
      assert Message(a)[..8 * n] == Message(a[..n]) && Message(b)[..8 * n] == Message(b[..n]);
      assert Message(a)[8 * n..] == BitsOf(a[n]) && Message(b)[8 * n..] == BitsOf(b[n]);
      MessageIsInjective(a[..n], b[..n]);
      SameBytes(a[n], b[n]);
    }
  }

  // Up to four successive bytes that have changed make a different CRC.
  lemma ChangeShows(before: seq<bv8>, v: seq<bv8>, w: seq<bv8>, after: seq<bv8>, zeros: nat)
    requires |v| == |w| <= 4 && v != w
    ensures Crc(before + v + after, zeros) != Crc(before + w + after, zeros)
  {
    MessageSplits(before + v, after);
    MessageSplits(before, v);
    MessageSplits(before + w, after);
    MessageSplits(before, w);
    if Message(v) == Message(w) { MessageIsInjective(v, w); }
    var rest := Message(after) + Zero(8 * zeros);
    assert Message(before + v + after) + Zero(8 * zeros) == Message(before) + Message(v) + rest;
    assert Message(before + w + after) + Zero(8 * zeros) == Message(before) + Message(w) + rest;
    BurstsAreDetected(Ones(WIDTH), Message(before), Message(v), Message(w), rest);
  }

  // A frame that passed is refused once up to four successive bytes between the header and the CRC
  // have changed,
  lemma ChangedBodyIsRefused(t: SerialCmdType, before: seq<bv8>, v: seq<bv8>, w: seq<bv8>, after: seq<bv8>)
    requires |v| == |w| <= 4 && v != w && kCrcBegin <= |before| && |after| >= 6
    requires Accepted(t, before + v + after)
    ensures !Accepted(t, before + w + after)
  {
    var c, d := before[kCrcBegin..], after[..|after| - 6];
    Cuts(before, v, after);
    Cuts(before, w, after);
    PaddedChange(t, c, v, w, d, after[|after| - 6..|after| - 2]);
  }

  lemma PaddedChange(t: SerialCmdType, c: seq<bv8>, v: seq<bv8>, w: seq<bv8>, d: seq<bv8>, crc: seq<bv8>)
    requires |v| == |w| <= 4 && v != w && |crc| == 4
    ensures CrcFits(t, c + v + d, crc) ==> !CrcFits(t, c + w + d, crc)
  {
    var x, y := c + v + d, c + w + d;
    var zeros := PaddedLen(|x|) - |x|;
    ChangeShows(c, v, w, d, zeros);
    FitsOne(t, x, y, crc, zeros);
  }

  lemma Cuts(before: seq<bv8>, v: seq<bv8>, after: seq<bv8>)
    requires kCrcBegin <= |before| && |after| >= 6
    ensures var s, n := before + v + after, |before| + |v| + |after|;
      && s[kCrcBegin..n - 6] == before[kCrcBegin..] + v + after[..|after| - 6]
      && s[n - 6..n - 2] == after[|after| - 6..|after| - 2]
  {
  }

  lemma FitsOne(t: SerialCmdType, x: seq<bv8>, y: seq<bv8>, crc: seq<bv8>, zeros: nat)
    requires |crc| == 4 && |x| == |y| && zeros == PaddedLen(|x|) - |x| && Crc(x, zeros) != Crc(y, zeros)
    ensures !CrcFits(t, x, crc) || !CrcFits(t, y, crc)
  {
    PaddedIs(x, zeros);
    PaddedIs(y, zeros);
    OnlyOne(t, x, y, crc);
  }

  lemma PaddedIs(x: seq<bv8>, zeros: nat)
    requires zeros == PaddedLen(|x|) - |x|
    ensures Padded(x) == Crc(x, zeros)
  {
  }

  lemma OnlyOne(t: SerialCmdType, x: seq<bv8>, y: seq<bv8>, crc: seq<bv8>)
    requires |crc| == 4 && Padded(x) != Padded(y)
    ensures !CrcFits(t, x, crc) || !CrcFits(t, y, crc)
  {
  }

  // or once two bits have been flipped that are at most 264 places apart,
  lemma {:induction false} TwoFlippedBitsAreRefused(t: SerialCmdType, covered: seq<bv8>, covered': seq<bv8>,
                                                    crc: seq<bv8>, before: Bits, a: bool, mid: Bits, b: bool,
                                                    after: Bits)
    requires |covered| == |covered'| && |crc| == 4 && CrcFits(t, covered, crc) && |mid| < 264
    requires Message(covered) == before + [a] + mid + [b] + after
    requires Message(covered') == before + [!a] + mid + [!b] + after
    ensures !CrcFits(t, covered', crc)
  {
    var zeros := PaddedLen(|covered|) - |covered|;
    var rest := after + Zero(8 * zeros);
    CrcWords.TwoFlipsAreDetected(Ones(WIDTH), before, a, mid, b, rest);
    Associates(before + [a] + mid + [b], after, Zero(8 * zeros));
    Associates(before + [!a] + mid + [!b], after, Zero(8 * zeros));
    FitsOne(t, covered, covered', crc, zeros);
  }

  // or once its CRC has.
  lemma ChangedCrcIsRefused(t: SerialCmdType, s: seq<bv8>, crc: seq<bv8>)
    requires Accepted(t, s) && |crc| == 4 && crc != s[|s| - 6..|s| - 2]
    ensures !Accepted(t, s[..|s| - 6] + crc + s[|s| - 2..])
  {
    OtherCrc(s, crc, s[..|s| - 6] + crc + s[|s| - 2..]);
    OneCrc(t, s[kCrcBegin..|s| - 6], s[|s| - 6..|s| - 2], crc);
  }

  lemma OtherCrc(s: seq<bv8>, crc: seq<bv8>, s': seq<bv8>)
    requires |s| >= kSerialReturnMinLen && |crc| == 4 && s' == s[..|s| - 6] + crc + s[|s| - 2..]
    ensures |s'| == |s| && s'[|s| - 6..|s| - 2] == crc && s'[kCrcBegin..|s| - 6] == s[kCrcBegin..|s| - 6]
  {
  }

  lemma OneCrc(t: SerialCmdType, covered: seq<bv8>, a: seq<bv8>, b: seq<bv8>)
    requires |a| == |b| == 4 && a != b
    ensures !CrcFits(t, covered, a) || !CrcFits(t, covered, b)
  {
    if CrcOf(t, a) == CrcOf(t, b) { CrcOfIsInjective(t, a, b); }
  }

  // ---- the encoder and the decoder ----

  class ByteVector {
    var data: seq<bv8>

    constructor (s: seq<bv8>)
      ensures data == s
    {
      data := s;
    }

    method push_back(b: bv8)
      modifies this
      ensures data == old(data) + [b]
    {
      data := data + [b];
    }
  }

  // The two-argument encoder: the stream begins with room for the header.
  method SerialStreamEncode(t: SerialCmdType, byteStream: ByteVector, rand: seq<bv8>)
    requires |byteStream.data| >= kCrcBegin && |rand| == 4
    modifies byteStream
    ensures byteStream.data == Encoded(t, old(byteStream.data)[kCrcBegin..], rand)
  {
    if t == kCmd {
      byteStream.data := CMD + byteStream.data[kCrcBegin..];
    } else {
      byteStream.data := OTA + byteStream.data[kCrcBegin..];
    }
    AddEndStreamEncode(byteStream, t, rand);
  }

  method PushFour(stream: ByteVector, bytes: seq<bv8>)
    requires |bytes| == 4
    modifies stream
    ensures stream.data == old(stream.data) + bytes
  {
    stream.push_back(bytes[0]);
    stream.push_back(bytes[1]);
    stream.push_back(bytes[2]);
    stream.push_back(bytes[3]);
  }

  method AddEndStreamEncode(byteStreamOut: ByteVector, t: SerialCmdType, rand: seq<bv8>)
    requires |byteStreamOut.data| >= kCrcBegin && |rand| == 4
    modifies byteStreamOut
    ensures var s := old(byteStreamOut.data);
            var covered := Covered(t, s[kCrcBegin..], rand);
            byteStreamOut.data == s[..kCrcBegin] + covered + CrcBytes(t, Padded(covered)) + [0xEE, 0xFF]
  {
    ghost var s := byteStreamOut.data;
    if t == kCmd {
      PushFour(byteStreamOut, rand);
    }
    ghost var covered := Covered(t, s[kCrcBegin..], rand);
    assert byteStreamOut.data == s[..kCrcBegin] + covered;
    assert byteStreamOut.data[kCrcBegin..] == covered;
    var crc := PaddedCrc(byteStreamOut.data[kCrcBegin..]);
    PushFour(byteStreamOut, CrcBytes(t, crc));
    byteStreamOut.push_back(0xEE);
    byteStreamOut.push_back(0xFF);
    Appended(s[..kCrcBegin] + covered, CrcBytes(t, crc), byteStreamOut.data);
  }

  lemma Appended(s: seq<bv8>, crc: seq<bv8>, all: seq<bv8>)
    requires all == s + crc + [0xEE] + [0xFF]
    ensures all == s + crc + [0xEE, 0xFF]
  {
  }

  method PaddedCrc(bytes: seq<bv8>) returns (crc: Bits)
    ensures crc == Padded(bytes)
  {
    var crc_in_len := |bytes|;
    var crc_in_len_true := PaddedLen(crc_in_len);
    crc := CRCCalc(bytes, crc_in_len_true - crc_in_len);
  }

  method SerialStreamDecode(t: SerialCmdType, byteStreamIn: seq<bv8>, byteStreamOut: ByteVector) returns (ok: bool)
    modifies byteStreamOut
    ensures ok == Decodes(t, byteStreamIn)
    ensures byteStreamOut.data == if Accepted(t, byteStreamIn) then Body(byteStreamIn) else old(byteStreamOut.data)
  {
    ok := CheckFrame(t, byteStreamIn);
    if !ok { return false; }
    var len := |byteStreamIn|;
    var body := byteStreamIn[kCrcBegin..kCrcBegin + len - 17];
    byteStreamOut.data := body;
    return body[0] as int + 2 == |body|;
  }

  method CheckFrame(t: SerialCmdType, byteStreamIn: seq<bv8>) returns (ok: bool)
    ensures ok == Accepted(t, byteStreamIn)
  {
    var len := |byteStreamIn|;
    ok := CheckEnds(byteStreamIn);
    if !ok { return; }
    var crc_in_len := len - 13;
    assert kCrcBegin + crc_in_len == len - 6;
    ok := CheckCrc(t, byteStreamIn[kCrcBegin..kCrcBegin + crc_in_len], byteStreamIn[len - 6..len - 2]);
  }

  method CheckEnds(byteStreamIn: seq<bv8>) returns (ok: bool)
    ensures ok == Ends(byteStreamIn)
  {
    var len := |byteStreamIn|;
    if len < kSerialReturnMinLen { return false; }
    if byteStreamIn[len - 2] != 0xEE || byteStreamIn[len - 1] != 0xFF { return false; }
    return true;
  }

  method CheckCrc(t: SerialCmdType, covered: seq<bv8>, bytes: seq<bv8>) returns (ok: bool)
    requires |bytes| == 4
    ensures ok == CrcFits(t, covered, bytes)
  {
    var crc := CrcOf(t, bytes);
    var check_crc := PaddedCrc(covered);
    return crc == check_crc;
  }
}
