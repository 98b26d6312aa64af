// What the CRC is: the remainder of the message by one polynomial over two elements, and what that
// polynomial detects beyond bursts.
module CrcPolynomial {
  import opened Crc32

  // ---- division ----

  // x^32 + x^26 + x^23 + x^22 + x^16 + x^12 + x^11 + x^10 + x^8 + x^7 + x^5 + x^4 + x^2 + x + 1
  const EXPONENTS: set<int> := {32, 26, 23, 22, 16, 12, 11, 10, 8, 7, 5, 4, 2, 1, 0}

  // Its coefficients, the highest first.
  function Generator(): (g: Bits)
    ensures |g| == WIDTH + 1 && forall i | 0 <= i <= WIDTH :: g[i] <==> WIDTH - i in EXPONENTS
  {
    seq(WIDTH + 1, i requires 0 <= i <= WIDTH => WIDTH - i in EXPONENTS)
  }

  lemma GeneratorIs()
    ensures Generator() == [true] + POLY
  {
  }

  // The product of q and the generator.
  function Product(q: Bits): (p: Bits)
    ensures |p| == |q| + WIDTH
  {
    if q == [] then Zero(WIDTH)
    else Xor(if q[0] then Generator() + Zero(|q| - 1) else Zero(|q| + WIDTH), [false] + Product(q[1..]))
  }

  // A message m and what the register held before it, both followed by zeros.
  function Dividend(reg: Bits, m: Bits): (d: Bits)
    requires |reg| == WIDTH
    ensures |d| == |m| + WIDTH
  {
    Xor(reg + Zero(|m|), m + Zero(WIDTH))
  }

  ghost predicate Leaves(reg: Bits, m: Bits, q: Bits, r: Bits)
    requires |reg| == |r| == WIDTH && |q| == |m|
  {
    Dividend(reg, m) == Xor(Product(q), Zero(|m|) + r)
  }

  // r is left when that is divided by the generator.
  ghost predicate IsRemainder(reg: Bits, m: Bits, r: Bits)
    requires |reg| == |r| == WIDTH
  {
    exists q :: |q| == |m| && Leaves(reg, m, q, r)
  }

  // One step of the register is one step of the division.
  lemma DivisionStep(reg: Bits, m: Bits)
    requires |reg| == WIDTH && m != []
    ensures var f := reg[0] != m[0];
            var step := if f then Generator() + Zero(|m| - 1) else Zero(|m| + WIDTH);
            Dividend(reg, m) == Xor(step, [false] + Dividend(BitStep(reg, m[0]), m[1..]))
  {
    GeneratorIs();
    var f, next := reg[0] != m[0], BitStep(reg, m[0]);
    var step := if f then Generator() + Zero(|m| - 1) else Zero(|m| + WIDTH);
    assert step == (if f then [true] + POLY + Zero(|m| - 1) else Zero(|m| + WIDTH));
    NextIs(reg, m[0], next, POLY);
    StepDivides(reg, m, f, next, step, POLY);
  }

  lemma NextIs(reg: Bits, bit: bool, next: Bits, g: Bits)
    requires |reg| == WIDTH && next == BitStep(reg, bit) && g == POLY
    ensures NextAt(reg, reg[0] != bit, next, g)
  {
    assert forall i | 0 < i < WIDTH :: Left(reg, 1)[i - 1] == reg[i];
  }

  // next is reg shifted, and g added to it if f.
  ghost predicate NextAt(reg: Bits, f: bool, next: Bits, g: Bits)
    requires |reg| == |next| == |g| == WIDTH
  {
    forall i | 0 <= i < WIDTH :: next[i] == ((i + 1 < WIDTH && reg[i + 1]) != (f && g[i]))
  }

  lemma StepDivides(reg: Bits, m: Bits, f: bool, next: Bits, step: Bits, g: Bits)
    requires |reg| == |next| == |g| == WIDTH && m != [] && f == (reg[0] != m[0]) && NextAt(reg, f, next, g)
    requires step == if f then [true] + g + Zero(|m| - 1) else Zero(|m| + WIDTH)
    ensures Dividend(reg, m) == Xor(step, [false] + Dividend(next, m[1..]))
  {
    var rest := [false] + Dividend(next, m[1..]);
    forall i | 0 <= i < |m| + WIDTH
      ensures Dividend(reg, m)[i] == (step[i] != rest[i])
    {
      StepAt(f, |m|, step, g, i);
      DigitIs(reg, m, f, next, g, rest, i);
    }
  }

  lemma DigitIs(reg: Bits, m: Bits, f: bool, next: Bits, g: Bits, rest: Bits, i: nat)
    requires |reg| == |next| == |g| == WIDTH && m != [] && f == (reg[0] != m[0]) && NextAt(reg, f, next, g)
    requires rest == [false] + Dividend(next, m[1..]) && i < |m| + WIDTH
    ensures Dividend(reg, m)[i] == ((f && (i == 0 || (i <= WIDTH && g[i - 1]))) != rest[i])
  {
    DividendAt(reg, m, i);
    if i > 0 { DividendAt(next, m[1..], i - 1); }
  }

  lemma DividendAt(reg: Bits, m: Bits, i: nat)
    requires |reg| == WIDTH && i < |m| + WIDTH
    ensures Dividend(reg, m)[i] == ((i < WIDTH && reg[i]) != (i < |m| && m[i]))
  {
  }

  lemma StepAt(f: bool, n: nat, step: Bits, g: Bits, i: nat)
    requires n > 0 && i < n + WIDTH && |g| == WIDTH
    requires step == if f then [true] + g + Zero(n - 1) else Zero(n + WIDTH)
    ensures step[i] == (f && (i == 0 || (i <= WIDTH && g[i - 1])))
  {
  }

  lemma {:induction false} SerialLeaves(reg: Bits, m: Bits) returns (q: Bits)
    requires |reg| == WIDTH
    ensures |q| == |m| && Leaves(reg, m, q, Serial(reg, m))
    decreases |m|
  {
    if m == [] {
      q := [];
    } else {
      var rest := SerialLeaves(BitStep(reg, m[0]), m[1..]);
      q := [reg[0] != m[0]] + rest;
      assert q[1..] == rest;
      LeavesMore(reg, m, q, Serial(reg, m));
    }
  }

  lemma LeavesMore(reg: Bits, m: Bits, q: Bits, r: Bits)
    requires |reg| == |r| == WIDTH && |q| == |m| && m != [] && q[0] == (reg[0] != m[0])
    requires Leaves(BitStep(reg, m[0]), m[1..], q[1..], r)
    ensures Leaves(reg, m, q, r)
  {
    DivisionStep(reg, m);
    ZerosGrow(|m|, r);
    var step := if q[0] then Generator() + Zero(|m| - 1) else Zero(|m| + WIDTH);
    var d, p, s := Dividend(BitStep(reg, m[0]), m[1..]), Product(q[1..]), Zero(|m[1..]|) + r;
    StepsMeet(step, d, p, s, Zero(|m|) + r, Dividend(reg, m), Product(q));
  }

  // Both can have the same in front.
  lemma StepsMeet(step: Bits, d: Bits, p: Bits, s: Bits, s': Bits, all: Bits, product: Bits)
    requires |d| == |p| == |s| && |step| == |all| == |product| == |s'| == |d| + 1 && s' == [false] + s
    requires all == Xor(step, [false] + d) && product == Xor(step, [false] + p) && d == Xor(p, s)
    ensures all == Xor(product, s')
  {
    forall i | 0 <= i < |all|
      ensures all[i] == Xor(product, s')[i]
    {
      if i > 0 { assert d[i - 1] == Xor(p, s)[i - 1]; }
    }
  }

  lemma {:induction false} OnlySerialLeaves(reg: Bits, m: Bits, q: Bits, r: Bits)
    requires |reg| == |r| == WIDTH && |q| == |m| && Leaves(reg, m, q, r)
    ensures r == Serial(reg, m)
    decreases |m|
  {
    if m == [] {
      assert forall i | 0 <= i < WIDTH :: Dividend(reg, m)[i] == reg[i];
    } else {
      DivisionStep(reg, m);
      GeneratorIs();
      assert Dividend(reg, m)[0] == Xor(Product(q), Zero(|m|) + r)[0];
      assert q[0] == (reg[0] != m[0]);
      LeavesRest(reg, m, q, r);
      OnlySerialLeaves(BitStep(reg, m[0]), m[1..], q[1..], r);
    }
  }

  lemma LeavesRest(reg: Bits, m: Bits, q: Bits, r: Bits)
    requires |reg| == |r| == WIDTH && |q| == |m| && m != [] && Leaves(reg, m, q, r) && q[0] == (reg[0] != m[0])
    ensures Leaves(BitStep(reg, m[0]), m[1..], q[1..], r)
  {
    DivisionStep(reg, m);
    ZerosGrow(|m|, r);
    var step := if q[0] then Generator() + Zero(|m| - 1) else Zero(|m| + WIDTH);
    var d, p, s := Dividend(BitStep(reg, m[0]), m[1..]), Product(q[1..]), Zero(|m[1..]|) + r;
    StepsCancel(step, d, p, s, Zero(|m|) + r, Dividend(reg, m), Product(q));
  }

  lemma ZerosGrow(n: nat, r: Bits)
    requires n > 0
    ensures Zero(n) + r == [false] + (Zero(n - 1) + r)
  {
  }

  // What both have in front can be left out.
  lemma StepsCancel(step: Bits, d: Bits, p: Bits, s: Bits, s': Bits, all: Bits, product: Bits)
    requires |d| == |p| == |s| && |step| == |all| == |product| == |s'| == |d| + 1 && s' == [false] + s
    requires all == Xor(step, [false] + d) && product == Xor(step, [false] + p) && all == Xor(product, s')
    ensures d == Xor(p, s)
  {
    forall i | 0 <= i < |d|
      ensures d[i] == Xor(p, s)[i]
    {
      assert all[i + 1] == (step[i + 1] != d[i]);
      assert product[i + 1] == (step[i + 1] != p[i]);
    }
  }

  // The register after a message is the remainder, and nothing else is.
  lemma {:induction false} RegisterIsRemainder(reg: Bits, m: Bits, r: Bits)
    requires |reg| == |r| == WIDTH
    ensures IsRemainder(reg, m, r) <==> r == Serial(reg, m)
  {
    var q := SerialLeaves(reg, m);
    if IsRemainder(reg, m, r) {
      var p :| |p| == |m| && Leaves(reg, m, p, r);
      OnlySerialLeaves(reg, m, p, r);
    }
  }

  // A message followed by its own CRC, and by nothing else, leaves the register empty.
  lemma {:induction false} OwnCrcLeavesNothing(reg: Bits, m: Bits, r: Bits)
    requires |reg| == |r| == WIDTH
    ensures Serial(reg, m + r) == Zero(WIDTH) <==> r == Serial(reg, m)
  {
    SerialSplits(reg, m, r);
    Cancels(Serial(reg, m), r);
  }

  lemma {:induction false} Cancels(s: Bits, r: Bits)
    requires |s| == |r| == WIDTH
    ensures Serial(s, r) == Zero(WIDTH) <==> r == s
  {
    BurstOnTop(s, r);
    assert OnTop(r) == r;
    ZerosStay(WIDTH);
    if Serial(s, r) == Zero(WIDTH) {
      SerialIsInjective(Xor(s, r), Zero(WIDTH), Zero(WIDTH));
      OnlyItself(s, r);
    }
    XorItself(s);
  }

  lemma XorItself(s: Bits)
    ensures Xor(s, s) == Zero(|s|)
  {
  }

  lemma OnlyItself(s: Bits, r: Bits)
    requires |s| == |r| && Xor(s, r) == Zero(|s|)
    ensures r == s
  {
    forall i | 0 <= i < |s|
      ensures r[i] == s[i]
    {
      assert Xor(s, r)[i] == Zero(|s|)[i];
    }
  }

  lemma {:induction false} ZerosStay(n: nat)
    ensures Serial(Zero(WIDTH), Zero(n)) == Zero(WIDTH)
  {
    if n > 0 {
      assert BitStep(Zero(WIDTH), false) == Zero(WIDTH);
      assert Zero(n)[1..] == Zero(n - 1);
      ZerosStay(n - 1);
    }
  }
}
