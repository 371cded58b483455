/** How many flipped bits it takes to fool the checksum: never an odd number,
    never two or three in a frame of up to 4095 bytes; and both bounds are exact. */
module CrcDistance {
  import opened Crc

  // ----- odd numbers of flipped bits

  function LowBit(x: bv16): nat { if x & 1 == 1 then 1 else 0 }

  function Half(x: bv16): bv16 { x >> 1 }

  /** The number of one bits of `x`. */
  function Ones(x: bv16): nat {
    if x == 0 then 0 else LowBit(x) + Ones(Half(x))
  }

  /** The number of one bits of a frame. */
  function OnesIn(s: Frame): nat
    decreases |s|
  {
    if s == [] then 0 else OnesIn(s[..|s| - 1]) + Ones(s[|s| - 1] as bv16)
  }

  lemma OnesInSnoc(s: Frame)
    requires s != []
    ensures OnesIn(s) == OnesIn(s[..|s| - 1]) + Ones(s[|s| - 1] as bv16)
  {}

  lemma LowBitOfXor(a: bv16, b: bv16)
    ensures (LowBit(Xor(a, b)) + LowBit(a) + LowBit(b)) % 2 == 0
    ensures Half(Xor(a, b)) == Xor(Half(a), Half(b))
  {
    XorLowBit(a, b);
  }

  lemma {:induction false} OnesXor(a: bv16, b: bv16)
    ensures (Ones(Xor(a, b)) + Ones(a) + Ones(b)) % 2 == 0
    decreases a, b
  {
    hide LowBit, Half, Xor, Ones;
    if a == 0 && b == 0 {
      XorLaws(a, b);
      OnesZero(0);
    } else {
      HalfDecreases(a);
      HalfDecreases(b);
      LowBitOfXor(a, b);
      OnesStep(a);
      OnesStep(b);
      OnesStep(Xor(a, b));
      OnesXor(Half(a), Half(b));
      EvenSum(LowBit(Xor(a, b)) + LowBit(a) + LowBit(b), Ones(Half(Xor(a, b))) + Ones(Half(a)) + Ones(Half(b)));
    }
  }

  lemma HalfDecreases(a: bv16)
    ensures Half(a) <= a && (a != 0 ==> Half(a) < a)
    ensures Half(0) == 0 && LowBit(0) == 0
  {}

  lemma OnesOfPolynomial()
    ensures Ones(0xA001) == 3
  {
    assert Ones(0xA001) == 1 + Ones(0x5000);
    assert Ones(0x5000) == Ones(0x2800) == Ones(0x1400) == Ones(0xA00) == Ones(0x500);
    assert Ones(0x500) == Ones(0x280) == Ones(0x140) == Ones(0xA0) == Ones(0x50);
    assert Ones(0x50) == Ones(0x28) == Ones(0x14) == Ones(0xA) == Ones(5);
    assert Ones(5) == 1 + Ones(2) == 1 + Ones(1) == 2;
  }

  lemma EvenSum(x: int, y: int)
    requires x % 2 == 0 && y % 2 == 0
    ensures (x + y) % 2 == 0
  {}

  /** Three links of a parity chain. */
  lemma EvenChain(a: int, b: int, c: int, d: int, e: int, f: int)
    requires (a + b) % 2 == 0 && (b + c + d) % 2 == 0 && (c + e + f) % 2 == 0
    ensures (a + e + (f + d)) % 2 == 0
  {}

  lemma OnesStep(c: bv16)
    ensures Ones(c) == LowBit(c) + Ones(Half(c)) && LowBit(c) <= 1
  {
    HalfDecreases(0);
  }

  /** A turn of the register keeps the parity of its bits. */
  lemma ShiftKeepsParity(c: bv16)
    ensures (Ones(Shift(c)) + Ones(c)) % 2 == 0
  {
    hide Xor, Ones, Half, LowBit, Shift;
    OnesOfPolynomial();
    OnesXor(Half(c), 0xA001);
    OnesStep(c);
    ShiftAsXor(c);
  }

  lemma ShiftAsXor(c: bv16)
    ensures Shift(c) == if LowBit(c) == 1 then Xor(Half(c), 0xA001) else Half(c)
  {}

  lemma Shift8KeepsParity(c: bv16)
    ensures (Ones(Shift8(c)) + Ones(c)) % 2 == 0
  {
    hide Shift, Ones;
    var c4 := Shift(Shift(Shift(Shift(c))));
    Shift4KeepsParity(c);
    Shift4KeepsParity(c4);
  }

  lemma Shift4KeepsParity(c: bv16)
    ensures (Ones(Shift(Shift(Shift(Shift(c))))) + Ones(c)) % 2 == 0
  {
    hide Shift, Ones;
    ShiftKeepsParity(c);
    ShiftKeepsParity(Shift(c));
    ShiftKeepsParity(Shift(Shift(c)));
    ShiftKeepsParity(Shift(Shift(Shift(c))));
  }

  /** The register carries the parity of everything fed into it. */
  lemma {:induction false} RunParity(c: bv16, s: Frame)
    ensures (Ones(Run(c, s)) + Ones(c) + OnesIn(s)) % 2 == 0
    decreases |s|
  {
    hide Shift8, Ones, Xor, OnesIn, Run;
    if s == [] {
      EmptyRun(c);
      NoneInEmpty();
    } else {
      var n := |s| - 1;
      var r, w := Run(c, s[..n]), s[n] as bv16;
      RunParity(c, s[..n]);
      OnesXor(r, w);
      Shift8KeepsParity(Xor(r, w));
      RunLast(c, s);
      OnesInSnoc(s);
      EvenChain(Ones(Run(c, s)), Ones(Xor(r, w)), Ones(r), Ones(w), Ones(c), OnesIn(s[..n]));
    }
  }

  lemma RunLast(c: bv16, s: Frame)
    requires s != []
    ensures Run(c, s) == Shift8(Xor(Run(c, s[..|s| - 1]), s[|s| - 1] as bv16))
  {
    hide Shift8, Xor;
  }

  lemma EmptyRun(c: bv16)
    ensures Run(c, []) == c
  {}

  /** Flipping an odd number of bits of a valid frame, anywhere in a frame of any
      length, is always rejected. */
  lemma OddFlipsRejected(f: Frame, e: Frame)
    requires CrcOk(f) && |f| == |e| && OnesIn(e) % 2 == 1
    ensures !CrcOk(Flip(f, e))
  {
    hide Run, CrcOk, Flip, OnesIn;
    FlipUndetectedIff(f, e);
    RunParity(0, e);
  }

  // ----- the period of the register

  const TOP: bv16 := 0x8000

  /** The register after `n` turns from its top bit. */
  ghost function Orbit(n: nat): bv16 { ShiftBy(n, TOP) }

  lemma {:induction false} ShiftByAdd(m: nat, n: nat, c: bv16)
    ensures ShiftBy(m + n, c) == ShiftBy(n, ShiftBy(m, c))
    decreases m
  {
    hide Shift;
    if m > 0 {
      ShiftByAdd(m - 1, n, Shift(c));
    }
  }

  lemma {:induction false} ShiftByLinear(n: nat, a: bv16, b: bv16)
    ensures ShiftBy(n, Xor(a, b)) == Xor(ShiftBy(n, a), ShiftBy(n, b))
    decreases n
  {
    hide Shift, Xor;
    if n > 0 {
      ShiftLinear(a, b);
      ShiftByLinear(n - 1, Shift(a), Shift(b));
    }
  }

  lemma ShiftKernel(a: bv16)
    ensures Shift(a) == 0 <==> a == 0
  {}

  lemma {:induction false} ShiftByKernel(n: nat, a: bv16)
    ensures ShiftBy(n, a) == 0 <==> a == 0
    decreases n
  {
    hide Shift;
    if n > 0 {
      ShiftKernel(a);
      ShiftByKernel(n - 1, Shift(a));
    }
  }

  lemma ShiftByOneToOne(n: nat, a: bv16, b: bv16)
    requires ShiftBy(n, a) == ShiftBy(n, b)
    ensures a == b
  {
    hide ShiftBy, Xor;
    ShiftByLinear(n, a, b);
    XorLaws(ShiftBy(n, a), ShiftBy(n, b));
    ShiftByKernel(n, Xor(a, b));
    XorLaws(a, b);
  }

  function Pick(v: bv16, w: bv16): bv16 { if v & 0x8000 != 0 then w else 0 }

  /** Multiplication in the ring the register turns in, with the top bit as unit. */
  function Mul(k: nat, v: bv16, w: bv16): bv16 {
    if k == 0 then 0 else Xor(Pick(v, w), Shift(Mul(k - 1, v << 1, w)))
  }

  ghost predicate Fits(k: nat, v: bv16) {
    if k == 0 then v == 0 else Fits(k - 1, v << 1)
  }

  function Up4(v: bv16): bv16 { (((v << 1) << 1) << 1) << 1 }

  lemma SixteenFits(v: bv16)
    ensures Fits(16, v)
  {
    hide Up4;
    FitsFour(12, v);
    FitsFour(8, Up4(v));
    FitsFour(4, Up4(Up4(v)));
    FitsFour(0, Up4(Up4(Up4(v))));
    UpSixteen(v);
  }

  lemma UpSixteen(v: bv16)
    ensures Up4(Up4(Up4(Up4(v)))) == 0
  {}

  lemma FitsFour(k: nat, v: bv16)
    ensures Fits(k + 4, v) <==> Fits(k, Up4(v))
  {
    assert Fits(k + 4, v) <==> Fits(k + 3, v << 1);
    assert Fits(k + 3, v << 1) <==> Fits(k + 2, (v << 1) << 1);
    assert Fits(k + 2, (v << 1) << 1) <==> Fits(k + 1, ((v << 1) << 1) << 1);
  }

  /** Four steps of the multiplication written out. */
  function Mul4(v: bv16, w: bv16, tail: bv16): bv16 {
    Xor(Pick(v, w), Shift(Xor(Pick(v << 1, w), Shift(
    Xor(Pick((v << 1) << 1, w), Shift(Xor(Pick(((v << 1) << 1) << 1, w), Shift(tail))))))))
  }

  function Square(q: bv16): bv16 {
    var q1 := Up4(q);
    var q2 := Up4(q1);
    Mul4(q, q, Mul4(q1, q, Mul4(q2, q, Mul4(Up4(q2), q, 0))))
  }

  lemma MulFour(k: nat, v: bv16, w: bv16)
    ensures Mul(k + 4, v, w) == Mul4(v, w, Mul(k, Up4(v), w))
  {
    hide Xor, Shift, Pick;
    assert Mul(k + 4, v, w) == Xor(Pick(v, w), Shift(Mul(k + 3, v << 1, w)));
    assert Mul(k + 3, v << 1, w) == Xor(Pick(v << 1, w), Shift(Mul(k + 2, (v << 1) << 1, w)));
  }

  lemma MulSquare(q: bv16)
    ensures Mul(16, q, q) == Square(q)
  {
    hide Mul4, Up4;
    MulFour(12, q, q);
    MulFour(8, Up4(q), q);
    MulFour(4, Up4(Up4(q)), q);
    MulFour(0, Up4(Up4(Up4(q))), q);
  }

  lemma TopBitSplit(v: bv16)
    ensures v == Xor(Pick(v, TOP), Shift(v << 1))
  {
    hide Xor;
    DoubledLowBit(v);
    WithoutTopBit(v);
  }

  lemma DoubledLowBit(v: bv16)
    ensures (v << 1) & 1 == 0
    ensures (v << 1) >> 1 == v & 0x7FFF
  {}

  lemma WithoutTopBit(v: bv16)
    ensures v & 0x8000 != 0 ==> v == Xor(TOP, v & 0x7FFF)
    ensures v & 0x8000 == 0 ==> v == Xor(0, v & 0x7FFF)
  {}

  lemma {:induction false} MulIsShiftBy(k: nat, n: nat, v: bv16)
    requires Fits(k, v)
    ensures ShiftBy(n, v) == Mul(k, v, Orbit(n))
    decreases k
  {
    hide Shift, Xor, ShiftBy;
    ShiftByKernel(n, 0);
    if k > 0 {
      var t := Pick(v, TOP);
      TopBitSplit(v);
      ShiftByLinear(n, t, Shift(v << 1));
      MulIsShiftBy(k - 1, n, v << 1);
      ShiftCommutes(n, v << 1);
    }
  }

  lemma ShiftCommutes(n: nat, v: bv16)
    ensures ShiftBy(n, Shift(v)) == Shift(ShiftBy(n, v))
  {
    hide Shift;
    ShiftByAdd(1, n, v);
    ShiftByAdd(n, 1, v);
    assert ShiftBy(1, v) == ShiftBy(0, Shift(v));
    assert ShiftBy(1, ShiftBy(n, v)) == ShiftBy(0, Shift(ShiftBy(n, v)));
  }

  lemma OrbitDouble(n: nat, q: bv16)
    requires Orbit(n) == q
    ensures Orbit(2 * n) == Square(q)
    ensures Orbit(2 * n + 1) == Shift(Square(q))
  {
    hide Shift, Mul, Square;
    ShiftByAdd(n, n, TOP);
    SixteenFits(q);
    MulIsShiftBy(16, n, q);
    MulSquare(q);
    ShiftByAdd(2 * n, 1, TOP);
    assert ShiftBy(1, Orbit(2 * n)) == ShiftBy(0, Shift(Orbit(2 * n)));
  }

  lemma Orbit217()
    ensures Orbit(217) == 0x3e55
  {
    assert Orbit(1) == 0x4000;
    OrbitDouble(1, 0x4000);
    OrbitDouble(3, 0x1000);
    OrbitDouble(6, 0x200);
    OrbitDouble(13, 0x4);
    OrbitDouble(27, 0xc00d);
    OrbitDouble(54, 0xc079);
    OrbitDouble(108, 0xdfe1);
  }

  lemma Orbit1057()
    ensures Orbit(1057) == 0xce41
  {
    assert Orbit(1) == 0x4000;
    OrbitDouble(1, 0x4000);
    OrbitDouble(2, 0x2000);
    OrbitDouble(4, 0x800);
    OrbitDouble(8, 0x80);
    OrbitDouble(16, 0xa001);
    OrbitDouble(33, 0xd401);
    OrbitDouble(66, 0xc221);
    OrbitDouble(132, 0x608);
    OrbitDouble(264, 0xc049);
    OrbitDouble(528, 0xd861);
  }

  lemma Orbit4681()
    ensures Orbit(4681) == 0x8c69
  {
    assert Orbit(1) == 0x4000;
    OrbitDouble(1, 0x4000);
    OrbitDouble(2, 0x2000);
    OrbitDouble(4, 0x800);
    OrbitDouble(9, 0x40);
    OrbitDouble(18, 0xd801);
    OrbitDouble(36, 0xc281);
    OrbitDouble(73, 0x3004);
    OrbitDouble(146, 0xca19);
    OrbitDouble(292, 0xc169);
    OrbitDouble(585, 0xf31);
    OrbitDouble(1170, 0x672b);
    OrbitDouble(2340, 0x8e4c);
  }

  lemma Orbit32767()
    ensures Orbit(32767) == 0x8000
  {
    assert Orbit(1) == 0x4000;
    OrbitDouble(1, 0x4000);
    OrbitDouble(3, 0x1000);
    OrbitDouble(7, 0x100);
    OrbitDouble(15, 0x1);
    OrbitDouble(31, 0x9001);
    OrbitDouble(63, 0xd101);
    OrbitDouble(127, 0xc100);
    OrbitDouble(255, 0x5001);
    OrbitDouble(511, 0x8101);
    OrbitDouble(1023, 0xd000);
    OrbitDouble(2047, 0x5100);
    OrbitDouble(4095, 0x1101);
    OrbitDouble(8191, 0x9100);
    OrbitDouble(16383, 0x4101);
  }

  ghost predicate Returns(k: nat) { Orbit(k) == TOP }

  lemma ReturnsDifference(a: nat, b: nat)
    requires Returns(a) && Returns(b) && b <= a
    ensures Returns(a - b)
  {
    hide ShiftBy;
    ShiftByAdd(a - b, b, TOP);
    ShiftByOneToOne(b, Orbit(a - b), TOP);
  }

  lemma {:induction false} ReturnsTimes(m: nat, k: nat)
    requires Returns(k)
    ensures Returns(m * k)
    decreases m
  {
    hide ShiftBy;
    if m == 0 {
      assert Orbit(0) == TOP by { NoTurn(TOP); }
    } else {
      ReturnsTimes(m - 1, k);
      ShiftByAdd((m - 1) * k, k, TOP);
      assert (m - 1) * k + k == m * k;
    }
  }

  /** 32767 = 7 * 31 * 151. */
  lemma KnownDivisor(q: nat, k: nat)
    requires 2 <= q <= 181 && q * k == 32767
    ensures q == 7 || q == 31 || q == 151
  {}

  /** A proper divisor of 32767 divides 32767 over one of its primes. */
  lemma ProperDivisor(k: nat, q: nat) returns (m: nat)
    requires 0 < k < 32767 && q * k == 32767
    ensures m * k == 4681 || m * k == 1057 || m * k == 217
  {
    if q <= 181 {
      assert q != 0 && q != 1;
      KnownDivisor(q, k);
      m := 1;
    } else {
      if k > 181 {
        ProductBound(q, k);
      }
      if k > 1 {
        assert k * q == 32767;
        KnownDivisor(k, q);
      }
      m := if k == 1 then 217 else if k == 7 then 31 else 7;
    }
  }

  lemma ProductBound(q: nat, k: nat)
    requires q >= 182 && k >= 182
    ensures q * k >= 182 * 182
  {
    assert q * k >= 182 * k;
  }

  lemma Turn32767Returns()
    ensures Returns(32767) && !Returns(217) && !Returns(1057) && !Returns(4681)
  {
    hide ShiftBy;
    Orbit217();
    Orbit1057();
    Orbit4681();
    Orbit32767();
  }

  /** The register comes back to its top bit for the first time after 32767 turns. */
  lemma {:induction false} PeriodIs32767(k: nat)
    requires 0 < k < 32767
    ensures !Returns(k) && Returns(32767)
  {
    hide Returns;
    Turn32767Returns();
    if Returns(k) {
      var q, r := 32767 / k, 32767 % k;
      assert q * k + r == 32767;
      ReturnsTimes(q, k);
      ReturnsDifference(32767, q * k);
      if r > 0 {
        PeriodIs32767(r);
      } else {
        var m := ProperDivisor(k, q);
        ReturnsTimes(m, k);
      }
    }
  }

  // ----- frames with one or two flipped bits

  /** `x` has no bit at or above position `n`. */
  ghost predicate Narrow(n: nat, x: bv16) {
    if n == 0 then x == 0 else Narrow(n - 1, Half(x))
  }

  function Down4(x: bv16): bv16 { Half(Half(Half(Half(x)))) }

  lemma NarrowFour(n: nat, x: bv16)
    ensures Narrow(n + 4, x) <==> Narrow(n, Down4(x))
  {
    hide Half;
    assert Narrow(n + 4, x) == Narrow(n + 3, Half(x));
    assert Narrow(n + 3, Half(x)) == Narrow(n + 2, Half(Half(x)));
    assert Narrow(n + 2, Half(Half(x))) == Narrow(n + 1, Half(Half(Half(x))));
  }

  lemma ByteDown(b: Byte)
    ensures Down4(Down4(b as bv16)) == 0
  {}

  lemma ByteIsNarrow(b: Byte)
    ensures Narrow(8, b as bv16)
  {
    hide Down4;
    NarrowFour(4, b as bv16);
    NarrowFour(0, Down4(b as bv16));
    ByteDown(b);
  }

  lemma {:induction false} OnesZero(x: bv16)
    ensures Ones(x) == 0 <==> x == 0
    decreases x
  {
    if x != 0 {
      OnesZero(Half(x));
      NonzeroHalf(x);
    }
  }

  lemma NonzeroHalf(x: bv16)
    requires x != 0
    ensures LowBit(x) == 1 || Half(x) != 0
  {}

  /** A single bit, turned `n` times, is the low bit turned between 1 and `n` times. */
  lemma {:induction false} OneBit(n: nat, x: bv16) returns (k: nat)
    requires Narrow(n, x) && Ones(x) == 1
    ensures 1 <= k <= n && ShiftBy(n, x) == ShiftBy(k, 1)
    ensures LowBit(x) == 0 ==> k < n
    decreases n
  {
    hide Half, LowBit, Shift;
    if LowBit(x) == 1 {
      OnesZero(Half(x));
      OddWithoutHalf(x);
      k := n;
    } else {
      EvenShift(x);
      HalfDecreases(x);
      k := OneBit(n - 1, Half(x));
    }
  }

  lemma OddWithoutHalf(x: bv16)
    requires LowBit(x) == 1 && Half(x) == 0
    ensures x == 1
  {}

  lemma EvenShift(x: bv16)
    ensures LowBit(x) == 0 || LowBit(x) == 1
    ensures LowBit(x) == 0 ==> Shift(x) == Half(x)
  {}

  /** Two bits, turned `n` times, are the low bit turned two different numbers of times. */
  lemma {:induction false} TwoBits(n: nat, x: bv16) returns (j: nat, k: nat)
    requires Narrow(n, x) && Ones(x) == 2
    ensures 1 <= j < k <= n && ShiftBy(n, x) == Xor(ShiftBy(j, 1), ShiftBy(k, 1))
    decreases n
  {
    hide Half, LowBit, Shift, Xor;
    EvenShift(x);
    HalfDecreases(x);
    if LowBit(x) == 1 {
      var y := Xor(x, 1);
      ClearLowBit(x);
      assert Narrow(n, y);
      assert Ones(y) == 1;
      j := OneBit(n, y);
      k := n;
      ShiftByLinear(n, y, 1);
    } else {
      j, k := TwoBits(n - 1, Half(x));
    }
  }

  lemma ClearLowBit(x: bv16)
    requires LowBit(x) == 1
    ensures LowBit(Xor(x, 1)) == 0 && Half(Xor(x, 1)) == Half(x)
    ensures Xor(Xor(x, 1), 1) == x
    ensures Half(x) != 0 ==> Xor(x, 1) != 0
  {
    hide Xor, Half, LowBit;
    LowBitOfXor(x, 1);
    EvenShift(Xor(x, 1));
    OneIsOdd();
    XorLaws(Half(x), 0);
    XorMoves(x, 1, 1);
    XorLaws(1, 1);
    XorLaws(x, 0);
    HalfDecreases(0);
  }

  lemma OneIsOdd()
    ensures LowBit(1) == 1 && Half(1) == 0
  {}

  /** One more byte: the old register turns eight times and the byte joins it. */
  lemma RunByte(s: Frame)
    requires s != []
    ensures Run(0, s) == Xor(ShiftBy(8, Run(0, s[..|s| - 1])), ShiftBy(8, s[|s| - 1] as bv16))
  {
    hide Shift8, Xor, ShiftBy;
    var r, w := Run(0, s[..|s| - 1]), s[|s| - 1] as bv16;
    Shift8Linear(r, w);
    ShiftByEight(r);
    ShiftByEight(w);
  }

  lemma RunQuietByte(s: Frame)
    requires s != [] && Ones(s[|s| - 1] as bv16) == 0
    ensures Run(0, s) == ShiftBy(8, Run(0, s[..|s| - 1]))
  {
    hide ShiftBy, Run, Ones, Xor;
    RunByte(s);
    OnesZero(s[|s| - 1] as bv16);
    ShiftByKernel(8, 0);
    XorLaws(ShiftBy(8, Run(0, s[..|s| - 1])), 0);
  }

  lemma {:induction false} NoBitRun(s: Frame)
    requires OnesIn(s) == 0
    ensures Run(0, s) == 0
    decreases |s|
  {
    hide ShiftBy, Ones;
    if s != [] {
      RunQuietByte(s);
      NoBitRun(s[..|s| - 1]);
      ShiftByKernel(8, 0);
    }
  }

  lemma NoneInEmpty()
    ensures OnesIn([]) == 0
  {}

  lemma RunQuietFront(s: Frame)
    requires s != [] && OnesIn(s[..|s| - 1]) == 0
    ensures Run(0, s) == ShiftBy(8, s[|s| - 1] as bv16)
  {
    hide ShiftBy, Run, Ones, OnesIn, Xor;
    var w := s[|s| - 1] as bv16;
    RunByte(s);
    NoBitRun(s[..|s| - 1]);
    ShiftByKernel(8, 0);
    XorMoves(0, ShiftBy(8, w), 0);
    XorLaws(ShiftBy(8, w), 0);
  }

  lemma {:induction false} OneBitRun(s: Frame) returns (k: nat)
    requires OnesIn(s) == 1
    ensures 1 <= k <= 8 * |s| && Run(0, s) == ShiftBy(k, 1)
    decreases |s|
  {
    hide ShiftBy, Run, Ones, Narrow, OnesIn;
    NoneInEmpty();
    OnesInSnoc(s);
    var n := |s| - 1;
    if Ones(s[n] as bv16) == 0 {
      k := OneBitRun(s[..n]);
      RunQuietByte(s);
      ShiftByAdd(k, 8, 1);
      k := k + 8;
    } else {
      RunQuietFront(s);
      ByteIsNarrow(s[n]);
      k := OneBit(8, s[n] as bv16);
    }
  }

  lemma {:induction false} TwoBitRun(s: Frame) returns (j: nat, k: nat)
    requires OnesIn(s) == 2
    ensures 1 <= j < k <= 8 * |s| && Run(0, s) == Xor(ShiftBy(j, 1), ShiftBy(k, 1))
    decreases |s|
  {
    hide ShiftBy, Run, Ones, Xor, Narrow, OnesIn;
    NoneInEmpty();
    OnesInSnoc(s);
    var n := |s| - 1;
    ByteIsNarrow(s[n]);
    if Ones(s[n] as bv16) == 0 {
      j, k := TwoBitRun(s[..n]);
      RunQuietByte(s);
      ShiftByLinear(8, ShiftBy(j, 1), ShiftBy(k, 1));
      ShiftByAdd(j, 8, 1);
      ShiftByAdd(k, 8, 1);
      j, k := j + 8, k + 8;
    } else if Ones(s[n] as bv16) == 1 {
      j, k := OneBitEach(s);
    } else {
      RunQuietFront(s);
      j, k := TwoBits(8, s[n] as bv16);
    }
  }

  lemma OneBitEach(s: Frame) returns (j: nat, k: nat)
    requires s != [] && OnesIn(s[..|s| - 1]) == 1 && Ones(s[|s| - 1] as bv16) == 1
    ensures 1 <= j < k <= 8 * |s| && Run(0, s) == Xor(ShiftBy(j, 1), ShiftBy(k, 1))
  {
    hide ShiftBy, Run, Ones, OnesIn, Xor, Narrow;
    var n := |s| - 1;
    var w := s[n] as bv16;
    RunByte(s);
    ByteIsNarrow(s[n]);
    var i := OneBitRun(s[..n]);
    j := OneBit(8, w);
    ShiftByAdd(i, 8, 1);
    k := i + 8;
    XorMoves(ShiftBy(k, 1), ShiftBy(j, 1), 0);
  }

  lemma OneIsOrbit15()
    ensures Orbit(15) == 1
  {
    assert Orbit(15) == ShiftBy(8, 0x100) by {
      assert Orbit(15) == ShiftBy(14, 0x4000) == ShiftBy(13, 0x2000) == ShiftBy(12, 0x1000);
      assert ShiftBy(12, 0x1000) == ShiftBy(11, 0x800) == ShiftBy(10, 0x400) == ShiftBy(9, 0x200);
    }
    assert ShiftBy(8, 0x100) == ShiftBy(7, 0x80) == ShiftBy(6, 0x40) == ShiftBy(5, 0x20);
    assert ShiftBy(5, 0x20) == ShiftBy(4, 0x10) == ShiftBy(3, 8) == ShiftBy(2, 4) == ShiftBy(1, 2);
  }

  /** The low bit does not come back within 32766 turns. */
  lemma LowBitApart(j: nat, k: nat)
    requires j < k < j + 32767
    ensures ShiftBy(j, 1) != ShiftBy(k, 1)
  {
    hide ShiftBy;
    var d := k - j;
    OneIsOrbit15();
    PeriodIs32767(d);
    ShiftByAdd(d, j, 1);
    if ShiftBy(j, 1) == ShiftBy(k, 1) {
      ShiftByOneToOne(j, 1, ShiftBy(d, 1));
      ShiftByAdd(15, d, TOP);
      ShiftByAdd(d, 15, TOP);
      ShiftByOneToOne(15, TOP, Orbit(d));
    }
  }

  /** A valid frame of up to 4095 bytes with one, two or three bits flipped is
      rejected, wherever the bits are. */
  lemma UpToThreeFlipsRejected(f: Frame, e: Frame)
    requires CrcOk(f) && |f| == |e| && |f| <= 4095
    requires 1 <= OnesIn(e) <= 3
    ensures !CrcOk(Flip(f, e))
  {
    hide Run, CrcOk, Flip, OnesIn, ShiftBy, Xor;
    if OnesIn(e) == 2 {
      FlipUndetectedIff(f, e);
      var j, k := TwoBitRun(e);
      LowBitApart(j, k);
      XorLaws(ShiftBy(j, 1), ShiftBy(k, 1));
    } else {
      OddFlipsRejected(f, e);
    }
  }

  lemma {:induction false} RunQuietTail(e: Frame, n: nat)
    ensures Run(0, e) == 0 ==> Run(0, e + Quiet(n)) == 0
    ensures OnesIn(e + Quiet(n)) == OnesIn(e)
    decreases n
  {
    hide Run, OnesIn;
    if n == 0 {
      assert e + Quiet(0) == e;
    } else {
      RunQuietTail(e, n - 1);
      QuietByte(e + Quiet(n - 1));
      assert e + Quiet(n) == e + Quiet(n - 1) + [0 as Byte];
    }
  }

  lemma QuietByte(t: Frame)
    ensures Run(0, t) == 0 ==> Run(0, t + [0]) == 0
    ensures OnesIn(t + [0]) == OnesIn(t)
  {
    hide Run, Feed, Ones;
    RunSnoc(0, t, 0);
    FeedZero(Run(0, t));
    OnesZero(0);
    var s := t + [0 as Byte];
    assert (0 as Byte) as bv16 == 0 && s[..|t|] == t && s[|t|] == 0;
  }

  /** No flipped bit outside the first seventeen of the wire. */
  predicate InSeventeen(e: Frame) {
    (|e| > 2 ==> e[2] & 0xFE == 0) && forall i | 3 <= i < |e| :: e[i] == 0
  }

  /** Three flips, and sixteen bits of a burst, are the best possible: these four flips
      within seventeen bits pass in every valid frame, of any length. */
  lemma FourFlipsCanPass(f: Frame)
    requires CrcOk(f)
    ensures
      |f| >= 3 && var e := [3 as Byte, 0x40, 1] + Quiet(|f| - 3);
      OnesIn(e) == 4 && InSeventeen(e) && |e| == |f| && CrcOk(Flip(f, e))
  {
    var e: Frame := [3, 0x40, 1];
    assert Run(0, e) == 0 by {
      hide Feed;
      RunSnoc(0, [], 3);
      RunSnoc(0, [3], 0x40);
      RunSnoc(0, [3, 0x40], 1);
      assert [] + [3 as Byte] == [3];
      assert [3 as Byte] + [0x40] == [3, 0x40];
      assert [3 as Byte, 0x40] + [1] == e;
      FourFlipsKernel();
    }
    assert |f| >= 3;
    hide Run, CrcOk, Flip, OnesIn;
    FourFlipsWeight();
    RunQuietTail(e, |f| - 3);
    FlipUndetectedIff(f, e + Quiet(|f| - 3));
  }

  /** The two ends of 4096 bytes. */
  function Ends(): Frame { [1] + Quiet(4094) + [0x80] }

  lemma OneFlipByte(b: Byte)
    requires b == 1 || b == 0x80
    ensures Ones(b as bv16) == 1
  {
    assert Ones(1) == 1 + Ones(0);
    if b == 0x80 {
      assert (b as bv16) == 0x80;
      assert Ones(0x80) == Ones(0x40) == Ones(0x20) == Ones(0x10) == Ones(8) == Ones(4) == Ones(2) == Ones(1);
    } else {
      assert (b as bv16) == 1;
    }
  }

  lemma {:induction false} RunManyQuiet(e: Frame, n: nat)
    ensures Run(0, e + Quiet(n)) == ShiftBy(8 * n, Run(0, e))
    decreases n
  {
    hide Run, Shift8, Xor, Feed, ShiftBy;
    if n == 0 {
      assert e + Quiet(0) == e;
      NoTurn(Run(0, e));
    } else {
      RunManyQuiet(e, n - 1);
      var t := e + Quiet(n - 1);
      assert e + Quiet(n) == t + [0 as Byte];
      RunSnoc(0, t, 0);
      FeedZero(Run(0, t));
      ShiftByEight(Run(0, t));
      ShiftByAdd(8 * (n - 1), 8, Run(0, e));
    }
  }

  lemma NoTurn(c: bv16)
    ensures ShiftBy(0, c) == c
  {}

  lemma HighBitTurnsDown()
    ensures ShiftBy(8, 0x80) == ShiftBy(1, 1)
  {
    assert ShiftBy(8, 0x80) == ShiftBy(7, 0x40) == ShiftBy(6, 0x20) == ShiftBy(5, 0x10);
    assert ShiftBy(5, 0x10) == ShiftBy(4, 8) == ShiftBy(3, 4) == ShiftBy(2, 2) == ShiftBy(1, 1);
  }

  /** A full turn brings the low bit back as well. */
  lemma LowBitReturns()
    ensures ShiftBy(32767, 1) == 1
  {
    hide ShiftBy, Returns;
    OneIsOrbit15();
    Turn32767Returns();
    ShiftByAdd(15, 32767, TOP);
    ShiftByAdd(32767, 15, TOP);
    assert Orbit(32767) == TOP by { Orbit32767(); }
  }

  lemma EndsParts()
    ensures |Ends()| == 4096 && Ends()[..4095] == [1] + Quiet(4094) && Ends()[4095] == 0x80
    ensures ([1 as Byte])[..0] == [] && (1 as Byte) as bv16 == 1 && (0x80 as Byte) as bv16 == 0x80
  {
    assert Ends()[..4095] == [1] + Quiet(4094);
  }

  lemma EndsWeight()
    ensures OnesIn(Ends()) == 2
  {
    hide Run, Ones, OnesIn, Ends;
    EndsParts();
    OneFlipByte(1);
    OneFlipByte(0x80);
    NoneInEmpty();
    OnesInSnoc([1]);
    RunQuietTail([1], 4094);
    OnesInSnoc(Ends());
  }

  lemma EndsUndetected()
    ensures Run(0, Ends()) == 0
  {
    hide Run, Ones, OnesIn, ShiftBy, Xor, Ends;
    EndsParts();
    NoneInEmpty();
    RunQuietFront([1]);
    RunManyQuiet([1], 4094);
    ShiftByAdd(8, 8 * 4094, 1);
    ShiftByAdd(8 * 4095, 8, 1);
    LowBitReturns();
    ShiftByAdd(32767, 1, 1);
    HighBitTurnsDown();
    RunByte(Ends());
    XorLaws(ShiftBy(1, 1), ShiftBy(1, 1));
  }

  /** And 4095 bytes is exact: in every longer valid frame two flips pass. */
  lemma TwoFlipsPassBeyond(f: Frame)
    requires CrcOk(f) && |f| >= 4096
    ensures
      var e := Ends() + Quiet(|f| - 4096);
      OnesIn(e) == 2 && |e| == |f| && CrcOk(Flip(f, e))
  {
    hide Run, CrcOk, Flip, OnesIn, Ends;
    EndsParts();
    EndsWeight();
    EndsUndetected();
    RunQuietTail(Ends(), |f| - 4096);
    FlipUndetectedIff(f, Ends() + Quiet(|f| - 4096));
  }

  lemma FourFlipsKernel()
    ensures Feed(Feed(Feed(0, 3), 0x40), 1) == 0
  {}

  lemma FourFlipsWeight()
    ensures OnesIn([3, 0x40, 1]) == 4
  {
    var e: Frame := [3, 0x40, 1];
    assert e[..2] == [3, 0x40] && e[..2][..1] == [3] && e[..2][..1][..0] == [];
    assert (3 as Byte) as bv16 == 3 && (0x40 as Byte) as bv16 == 0x40 && (1 as Byte) as bv16 == 1;
    assert Ones(3) == 1 + Ones(1);
    assert Ones(1) == 1 + Ones(0);
    assert Ones(0x40) == Ones(0x20) == Ones(0x10) == Ones(8) == Ones(4) == Ones(2) == Ones(1);
    hide Ones;
    assert OnesIn(e) == OnesIn(e[..2]) + 1;
    assert OnesIn(e[..2]) == OnesIn(e[..2][..1]) + 1;
    assert OnesIn(e[..2][..1]) == OnesIn([]) + 2;
  }
}
