/** How registers and coils travel: two bytes a register, high byte first, and
    eight coils a byte, low bit first. */
module BitPacking {
  import opened Crc

  // ----- registers

  function Word(hi: Byte, lo: Byte): bv16 { (hi as bv16 << 8) | lo as bv16 }

  /** A register pair of bytes read as an address or a count. */
  function Index(hi: Byte, lo: Byte): (n: nat)
    ensures n < 0x1_0000
  {
    Word(hi, lo) as nat
  }

  /** A byte read as a count, and a count written as a byte. */
  function Num(b: Byte): (n: nat)
    ensures n < 256
  {
    b as nat
  }

  function ByteOf(n: nat): Byte
    requires n < 256
  {
    n as Byte
  }

  lemma NumBack(b: Byte)
    ensures ByteOf(Num(b)) == b
  {}

  lemma WordHalvesBack(hi: Byte, lo: Byte)
    ensures HighByte(Word(hi, lo)) == hi && LowByte(Word(hi, lo)) == lo
  {}

  lemma HalvesMakeWord(w: bv16)
    ensures Word(HighByte(w), LowByte(w)) == w
  {}

  function RegBytes(regs: seq<bv16>): (b: Frame) {
    seq(2 * |regs|, i requires 0 <= i < 2 * |regs| =>
      if i % 2 == 0 then HighByte(regs[i / 2]) else LowByte(regs[i / 2]))
  }

  function BytesRegs(b: Frame): (regs: seq<bv16>) {
    seq(|b| / 2, i requires 0 <= i < |b| / 2 => Word(b[2 * i], b[2 * i + 1]))
  }

  lemma RegBytesRoundTrip(b: Frame)
    requires |b| % 2 == 0
    ensures RegBytes(BytesRegs(b)) == b
  {
    hide Word, HighByte, LowByte;
    var regs := BytesRegs(b);
    assert |RegBytes(regs)| == |b|;
    forall i | 0 <= i < |b| ensures RegBytes(regs)[i] == b[i] {
      WordHalvesBack(b[2 * (i / 2)], b[2 * (i / 2) + 1]);
    }
  }

  lemma RegBytesSnoc(regs: seq<bv16>, r: bv16)
    ensures RegBytes(regs + [r]) == RegBytes(regs) + [HighByte(r), LowByte(r)]
  {}

  // ----- coils

  /** `1 << j` as a byte. */
  function Mask(j: nat): Byte
    requires j < 8
  {
    match j
    case 0 => 1
    case 1 => 2
    case 2 => 4
    case 3 => 8
    case 4 => 16
    case 5 => 32
    case 6 => 64
    case _ => 128
  }

  /** Bit `j` of a byte is worth `2^j`: the low bit comes first. */
  lemma LowBitFirst(x: Byte, j: nat)
    requires j < 8
    ensures x & Mask(j) != 0 <==> (x >> (j as bv4)) & 1 == 1
  {
    match j {
      case 0 =>
      case 1 =>
      case 2 =>
      case 3 =>
      case 4 =>
      case 5 =>
      case 6 =>
      case _ =>
    }
  }

  predicate BitAt(b: Frame, i: nat)
    requires i / 8 < |b|
  {
    b[i / 8] & Mask(i % 8) != 0
  }

  function Room(count: nat): nat { (count + 7) / 8 }

  function Or(x: Byte, y: Byte): Byte { x | y }

  /** The first `n` coils from `from` on, as the low bits of a byte; coils past
      the end count as clear. */
  function OrBits(bits: seq<bool>, from: nat, n: nat): Byte
    requires n <= 8
  {
    if n == 0 then 0
    else Or(OrBits(bits, from, n - 1), if from + n - 1 < |bits| && bits[from + n - 1] then Mask(n - 1) else 0)
  }

  function PackBits(bits: seq<bool>): Frame {
    seq(Room(|bits|), k requires 0 <= k < Room(|bits|) => OrBits(bits, 8 * k, 8))
  }

  function UnpackBits(b: Frame, count: nat): seq<bool>
    requires Room(count) <= |b|
  {
    seq(count, i requires 0 <= i < count => BitAt(b, i))
  }

  lemma MaskOfOr(x: Byte, m: nat, j: nat)
    requires m < 8 && j < 8
    ensures Or(x, Mask(m)) & Mask(j) == if m == j then Mask(j) else x & Mask(j)
    ensures Mask(j) != 0 && 0 & Mask(j) == 0
    ensures Or(x, 0) == x
  {}

  lemma {:induction false} OrBitsAt(bits: seq<bool>, from: nat, n: nat, j: nat)
    requires n <= 8 && j < 8
    ensures OrBits(bits, from, n) & Mask(j) != 0 <==> j < n && from + j < |bits| && bits[from + j]
    decreases n
  {
    hide Mask, Or;
    MaskOfOr(0, 0, j);
    if n > 0 {
      OrBitsAt(bits, from, n - 1, j);
      MaskOfOr(OrBits(bits, from, n - 1), n - 1, j);
    }
  }

  lemma PackedBit(bits: seq<bool>, i: nat)
    requires i / 8 < Room(|bits|)
    ensures BitAt(PackBits(bits), i) <==> i < |bits| && bits[i]
  {
    hide Mask, OrBits;
    OrBitsAt(bits, 8 * (i / 8), 8, i % 8);
  }

  lemma UnpackOfPack(bits: seq<bool>)
    ensures UnpackBits(PackBits(bits), |bits|) == bits
  {
    hide PackBits, BitAt;
    PackSize(bits);
    forall i | 0 <= i < |bits| ensures UnpackBits(PackBits(bits), |bits|)[i] == bits[i] {
      PackedBit(bits, i);
    }
  }

  lemma PackSize(bits: seq<bool>)
    ensures |PackBits(bits)| == Room(|bits|)
  {}

  /** Packing what was unpacked gives the payload back with the bits past
      `count` cleared. */
  lemma PackOfUnpack(b: Frame, count: nat)
    requires |b| == Room(count)
    ensures
      var r := PackBits(UnpackBits(b, count));
      |r| == |b| && forall i | 0 <= i < 8 * |b| :: BitAt(r, i) <==> i < count && BitAt(b, i)
  {
    hide BitAt;
    var bits := UnpackBits(b, count);
    forall i | 0 <= i < 8 * |b| ensures BitAt(PackBits(bits), i) <==> i < count && BitAt(b, i) {
      PackedBit(bits, i);
    }
  }

  lemma ByteFromBits(x: Byte, y: Byte)
    requires forall j: nat | j < 8 :: x & Mask(j) != 0 <==> y & Mask(j) != 0
    ensures x == y
  {
    assert x & Mask(0) != 0 <==> y & Mask(0) != 0;
    assert x & Mask(1) != 0 <==> y & Mask(1) != 0;
    assert x & Mask(2) != 0 <==> y & Mask(2) != 0;
    assert x & Mask(3) != 0 <==> y & Mask(3) != 0;
    assert x & Mask(4) != 0 <==> y & Mask(4) != 0;
    assert x & Mask(5) != 0 <==> y & Mask(5) != 0;
    assert x & Mask(6) != 0 <==> y & Mask(6) != 0;
    assert x & Mask(7) != 0 <==> y & Mask(7) != 0;
  }

  /** Frames are decided by their bits, so the previous lemma fixes the bytes. */
  lemma FrameFromBits(b: Frame, c: Frame)
    requires |b| == |c| && forall i | 0 <= i < 8 * |b| :: BitAt(b, i) == BitAt(c, i)
    ensures b == c
  {
    hide Mask;
    forall k | 0 <= k < |b| ensures b[k] == c[k] {
      forall j: nat | j < 8 ensures b[k] & Mask(j) != 0 <==> c[k] & Mask(j) != 0 {
        assert BitAt(b, 8 * k + j) == BitAt(c, 8 * k + j);
      }
      ByteFromBits(b[k], c[k]);
    }
  }

  /** What a coil at index `at` adds to the byte that starts at `from`. */
  function Added(bit: bool, at: nat, from: nat, n: nat): Byte
    requires n <= 8
  {
    if bit && from <= at < from + n then Mask(at - from) else 0
  }

  lemma OrBitsStep(bits: seq<bool>, from: nat, n: nat)
    requires 0 < n <= 8
    ensures OrBits(bits, from, n) ==
            Or(OrBits(bits, from, n - 1), if from + n - 1 < |bits| && bits[from + n - 1] then Mask(n - 1) else 0)
  {}

  lemma {:induction false} OrBitsSnoc(bits: seq<bool>, bit: bool, from: nat, n: nat)
    requires n <= 8
    ensures OrBits(bits + [bit], from, n) == Or(OrBits(bits, from, n), Added(bit, |bits|, from, n))
    decreases n
  {
    hide Mask, OrBits, Or;
    if n == 0 {
      OrBitsNil(bits, from);
      OrBitsNil(bits + [bit], from);
      OrMoves(0, 0, 0);
    } else {
      OrBitsSnoc(bits, bit, from, n - 1);
      OrBitsStep(bits, from, n);
      OrBitsStep(bits + [bit], from, n);
      var x, last := OrBits(bits, from, n - 1), from + n - 1;
      if last < |bits| {
        OrMoves(x, if bits[last] then Mask(n - 1) else 0, 0);
      } else if last == |bits| {
        OrMoves(x, 0, 0);
      } else {
        OrMoves(x, 0, Added(bit, |bits|, from, n));
        OrMoves(Or(x, Added(bit, |bits|, from, n)), 0, 0);
      }
    }
  }

  lemma OrBitsNil(bits: seq<bool>, from: nat)
    ensures OrBits(bits, from, 0) == 0
  {}

  lemma OrMoves(x: Byte, p: Byte, q: Byte)
    ensures Or(Or(x, p), q) == Or(Or(x, q), p)
    ensures Or(x, 0) == x
  {}
}
