/** The Modbus RTU checksum (reflected polynomial 0xA001) and what it detects.
    The register is a bv16 and a frame is a sequence of bytes, so the shift
    register is the source's own bit arithmetic. */
module Crc {

  type Byte = bv8
  type Frame = seq<Byte>

  const INITIAL: bv16 := 0xFFFF

  /** Exclusive or, named so that proofs can treat it as an operation with laws. */
  function Xor(a: bv16, b: bv16): bv16 { a ^ b }

  /** One turn of the shift register. */
  function Shift(c: bv16): bv16 {
    if c & 1 != 0 then (c >> 1) ^ 0xA001 else c >> 1
  }

  function Shift8(c: bv16): bv16 {
    Shift(Shift(Shift(Shift(Shift(Shift(Shift(Shift(c))))))))
  }

  /** The register after one byte. */
  function Feed(c: bv16, b: Byte): bv16 {
    Shift8(Xor(c, b as bv16))
  }

  /** The register after a whole sequence of bytes, started from `c`. */
  function Run(c: bv16, s: Frame): bv16
    decreases |s|
  {
    if s == [] then c else Feed(Run(c, s[..|s| - 1]), s[|s| - 1])
  }

  function LowByte(c: bv16): Byte { (c & 0xFF) as Byte }

  function HighByte(c: bv16): Byte { (c >> 8) as Byte }

  ghost function ShiftBy(n: nat, c: bv16): bv16 {
    if n == 0 then c else ShiftBy(n - 1, Shift(c))
  }

  lemma ShiftByEight(c: bv16)
    ensures ShiftBy(8, c) == Shift8(c)
  {
    hide Shift;
    var c4 := Shift(Shift(Shift(Shift(c))));
    assert ShiftBy(8, c) == ShiftBy(4, c4) by {
      assert ShiftBy(8, c) == ShiftBy(7, Shift(c));
      assert ShiftBy(7, Shift(c)) == ShiftBy(6, Shift(Shift(c)));
      assert ShiftBy(6, Shift(Shift(c))) == ShiftBy(5, Shift(Shift(Shift(c))));
    }
    var c6 := Shift(Shift(c4));
    assert ShiftBy(4, c4) == ShiftBy(3, Shift(c4)) == ShiftBy(2, c6);
    assert ShiftBy(2, c6) == ShiftBy(1, Shift(c6)) == ShiftBy(0, Shift(Shift(c6)));
  }

  /** The loops of `crc16`. */
  method Crc16(bytes: Frame) returns (crc: bv16)
    ensures crc == Run(INITIAL, bytes)
  {
    crc := INITIAL;
    for i := 0 to |bytes|
      invariant crc == Run(INITIAL, bytes[..i])
    {
      assert bytes[..i + 1][..i] == bytes[..i];
      crc := crc ^ bytes[i] as bv16;
      ghost var folded := crc;
      ShiftByEight(folded);
      for k := 0 to 8
        invariant ShiftBy(8 - k, crc) == Shift8(folded)
      {
        crc := if crc & 1 != 0 then (crc >> 1) ^ 0xA001 else crc >> 1;
      }
    }
    assert bytes[..|bytes|] == bytes;
  }

  /** `append_crc`: low byte first on the wire. */
  function Sealed(body: Frame): Frame {
    body + [LowByte(Run(INITIAL, body)), HighByte(Run(INITIAL, body))]
  }

  method AppendCrc(frame: Frame) returns (r: Frame)
    ensures r == Sealed(frame)
  {
    var c := Crc16(frame);
    r := frame + [LowByte(c)];
    r := r + [HighByte(c)];
  }

  /** `crc_ok`: the last two bytes are the checksum of the rest. */
  predicate CrcOk(frame: Frame) {
    && |frame| >= 3
    && frame[|frame| - 2..] == [LowByte(Run(INITIAL, frame[..|frame| - 2])),
                                HighByte(Run(INITIAL, frame[..|frame| - 2]))]
  }

  method CheckCrc(frame: Frame) returns (ok: bool)
    ensures ok == CrcOk(frame)
  {
    if |frame| < 3 {
      return false;
    }
    var body, crc := frame[..|frame| - 2], frame[|frame| - 2..];
    var c := Crc16(body);
    ok := crc == [LowByte(c), HighByte(c)];
  }

  // ----- exclusive or

  lemma XorLaws(a: bv16, b: bv16)
    ensures Xor(a, 0) == a
    ensures Xor(a, Xor(a, b)) == b
    ensures Xor(a, b) == 0 <==> a == b
  {}

  lemma XorExchange(a: bv16, b: bv16, c: bv16, d: bv16)
    ensures Xor(Xor(a, b), Xor(c, d)) == Xor(Xor(a, c), Xor(b, d))
  {
    hide Xor;
    XorMoves(a, b, Xor(c, d));
    XorMoves(b, c, d);
    XorMoves(c, b, d);
    XorMoves(a, c, Xor(b, d));
  }

  lemma XorMoves(a: bv16, b: bv16, c: bv16)
    ensures Xor(Xor(a, b), c) == Xor(a, Xor(b, c))
    ensures Xor(a, b) == Xor(b, a)
  {}

  lemma XorRegroup(u: bv16, v: bv16, p: bv16)
    ensures (u ^ p) ^ (v ^ p) == u ^ v
    ensures (u ^ p) ^ v == (u ^ v) ^ p == u ^ (v ^ p)
  {}

  lemma XorLowBit(a: bv16, b: bv16)
    ensures (a ^ b) & 1 == (a & 1) ^ (b & 1)
    ensures (a ^ b) >> 1 == (a >> 1) ^ (b >> 1)
    ensures a & 1 == 0 || a & 1 == 1
    ensures b & 1 == 0 || b & 1 == 1
  {}

  lemma WidenXor(a: Byte, b: Byte)
    ensures (a ^ b) as bv16 == Xor(a as bv16, b as bv16)
  {}

  // ----- the register is linear over GF(2) and one to one

  lemma ShiftLinear(a: bv16, b: bv16)
    ensures Shift(Xor(a, b)) == Xor(Shift(a), Shift(b))
  {
    XorLowBit(a, b);
    XorRegroup(a >> 1, b >> 1, 0xA001);
  }

  lemma Shift4Linear(a: bv16, b: bv16)
    ensures Shift(Shift(Shift(Shift(Xor(a, b))))) ==
            Xor(Shift(Shift(Shift(Shift(a)))), Shift(Shift(Shift(Shift(b)))))
  {
    hide *;
    ShiftLinear(a, b);
    ShiftLinear(Shift(a), Shift(b));
    ShiftLinear(Shift(Shift(a)), Shift(Shift(b)));
    ShiftLinear(Shift(Shift(Shift(a))), Shift(Shift(Shift(b))));
  }

  lemma Shift8Linear(a: bv16, b: bv16)
    ensures Shift8(Xor(a, b)) == Xor(Shift8(a), Shift8(b))
  {
    hide Shift, Xor;
    Shift4Linear(a, b);
    Shift4Linear(Shift(Shift(Shift(Shift(a)))), Shift(Shift(Shift(Shift(b)))));
  }

  lemma Shift8Kernel(a: bv16)
    ensures Shift8(a) == 0 <==> a == 0
  {}

  lemma Shift8OneToOne(a: bv16, b: bv16)
    ensures Shift8(a) == Shift8(b) <==> a == b
  {
    hide *;
    Shift8Linear(a, b);
    Shift8Kernel(Xor(a, b));
    XorLaws(a, b);
    XorLaws(Shift8(a), Shift8(b));
  }

  lemma FeedLinear(c: bv16, d: bv16, a: Byte, b: Byte)
    ensures Feed(Xor(c, d), a ^ b) == Xor(Feed(c, a), Feed(d, b))
  {
    hide Shift8, Xor;
    WidenXor(a, b);
    XorExchange(c, d, a as bv16, b as bv16);
    Shift8Linear(Xor(c, a as bv16), Xor(d, b as bv16));
  }

  lemma FeedOneToOne(c: bv16, d: bv16, b: Byte)
    requires Feed(c, b) == Feed(d, b)
    ensures c == d
  {
    hide Shift8, Xor;
    var w := b as bv16;
    Shift8OneToOne(Xor(c, w), Xor(d, w));
    XorCancelRight(c, d, w);
  }

  lemma XorCancelRight(c: bv16, d: bv16, w: bv16)
    ensures Xor(c, w) == Xor(d, w) <==> c == d
  {}

  /** With the bytes fixed, different starting registers never meet again. */
  lemma {:induction false} RunOneToOne(c: bv16, d: bv16, s: Frame)
    requires Run(c, s) == Run(d, s)
    ensures c == d
    decreases |s|
  {
    hide Feed;
    if s != [] {
      FeedOneToOne(Run(c, s[..|s| - 1]), Run(d, s[..|s| - 1]), s[|s| - 1]);
      RunOneToOne(c, d, s[..|s| - 1]);
    }
  }

  lemma {:induction false} RunConcat(c: bv16, s: Frame, t: Frame)
    ensures Run(c, s + t) == Run(Run(c, s), t)
    decreases |t|
  {
    hide Feed;
    if t == [] {
      assert s + t == s;
    } else {
      assert (s + t)[..|s + t| - 1] == s + t[..|t| - 1];
      RunConcat(c, s, t[..|t| - 1]);
    }
  }

  // ----- the residue of a frame decides whether it is valid

  lemma Shift8OfHigh(h: bv16)
    requires h < 0x100
    ensures Shift8(h << 8) == h
  {}

  lemma WordHalves(c: bv16, l: bv16, h: bv16)
    requires l < 0x100 && h < 0x100
    ensures Xor(c, l) == h << 8 <==> l == c & 0xFF && h == c >> 8
  {}

  lemma NarrowHalves(c: bv16, lo: Byte, hi: Byte)
    ensures lo as bv16 < 0x100 && hi as bv16 < 0x100
    ensures lo == LowByte(c) <==> lo as bv16 == c & 0xFF
    ensures hi == HighByte(c) <==> hi as bv16 == c >> 8
  {}

  lemma FeedTwo(c: bv16, lo: Byte, hi: Byte)
    ensures Feed(Feed(c, lo), hi) == 0 <==> lo == LowByte(c) && hi == HighByte(c)
  {
    hide Shift8, Xor, LowByte, HighByte;
    var l, h := lo as bv16, hi as bv16;
    NarrowHalves(c, lo, hi);
    Shift8Kernel(Xor(Feed(c, lo), h));
    XorLaws(Feed(c, lo), h);
    Shift8OfHigh(h);
    Shift8OneToOne(Xor(c, l), h << 8);
    WordHalves(c, l, h);
  }

  lemma RunLastTwo(c: bv16, s: Frame)
    requires |s| >= 2
    ensures Run(c, s) == Feed(Feed(Run(c, s[..|s| - 2]), s[|s| - 2]), s[|s| - 1])
  {
    hide Feed;
    assert s[..|s| - 1][..|s| - 2] == s[..|s| - 2];
  }

  /** A frame of at least three bytes is valid exactly when the register, run
      over all of it including its own two checksum bytes, ends at zero. */
  lemma ValidIffResidueZero(frame: Frame)
    ensures CrcOk(frame) <==> |frame| >= 3 && Run(INITIAL, frame) == 0
  {
    hide Run, Feed, LowByte, HighByte;
    if |frame| >= 3 {
      var n := |frame|;
      var body := frame[..n - 2];
      RunLastTwo(INITIAL, frame);
      FeedTwo(Run(INITIAL, body), frame[n - 2], frame[n - 1]);
      assert frame[n - 2..] == [frame[n - 2], frame[n - 1]];
    }
  }

  /** What `append_crc` builds, `crc_ok` accepts, and the body comes back. */
  lemma SealedIsValid(body: Frame)
    requires body != []
    ensures CrcOk(Sealed(body))
    ensures |Sealed(body)| == |body| + 2 && Sealed(body)[..|body|] == body
  {
    hide Run, LowByte, HighByte;
    var f := Sealed(body);
    assert f[..|f| - 2] == body;
  }

  /** `append_crc` is the only way to complete a body to a valid frame. */
  lemma ValidIsSealed(frame: Frame)
    requires CrcOk(frame)
    ensures frame == Sealed(frame[..|frame| - 2])
  {
    hide Run, LowByte, HighByte;
    assert frame == frame[..|frame| - 2] + frame[|frame| - 2..];
  }

  // ----- framing slips

  /** Two valid frames read as one never pass. */
  lemma MergedFramesRejected(f: Frame, g: Frame)
    requires CrcOk(f) && CrcOk(g)
    ensures !CrcOk(f + g)
  {
    hide Run, CrcOk;
    ValidIffResidueZero(f);
    ValidIffResidueZero(g);
    ValidIffResidueZero(f + g);
    RunConcat(INITIAL, f, g);
    if Run(0, g) == 0 {
      RunOneToOne(0, INITIAL, g);
    }
  }

  /** A valid frame cut in two: the first part is valid exactly when the second
      leaves a cleared register clear, the second exactly when the first leaves a
      fresh register fresh; and never both. */
  lemma SplitFrameExactly(frame: Frame, cut: nat)
    requires CrcOk(frame) && cut <= |frame|
    ensures CrcOk(frame[..cut]) <==> cut >= 3 && Run(0, frame[cut..]) == 0
    ensures CrcOk(frame[cut..]) <==> |frame| - cut >= 3 && Run(INITIAL, frame[..cut]) == INITIAL
    ensures !(CrcOk(frame[..cut]) && CrcOk(frame[cut..]))
  {
    hide CrcOk, Run;
    var head, tail := frame[..cut], frame[cut..];
    assert head + tail == frame;
    ValidIffResidueZero(frame);
    ValidIffResidueZero(head);
    ValidIffResidueZero(tail);
    RunConcat(INITIAL, head, tail);
    if Run(0, tail) == 0 {
      RunOneToOne(0, Run(INITIAL, head), tail);
    }
    if Run(INITIAL, tail) == 0 {
      RunOneToOne(INITIAL, Run(INITIAL, head), tail);
    }
  }

  /** Two bytes that bring any register back to its starting value. */
  function Steer(c: bv16): Frame { [LowByte(c) ^ 0x57, HighByte(c) ^ 0x15] }

  lemma SteerStarts(s: Frame)
    ensures Run(INITIAL, s + Steer(Run(INITIAL, s))) == INITIAL
  {
    hide Run, Feed, LowByte, HighByte;
    var c := Run(INITIAL, s);
    var x, y := LowByte(c) ^ 0x57, HighByte(c) ^ 0x15;
    assert s + Steer(c) == s + [x] + [y];
    RunSnoc(INITIAL, s, x);
    RunSnoc(INITIAL, s + [x], y);
    SteerFeeds(c);
  }

  lemma SteerFeeds(c: bv16)
    ensures Feed(Feed(c, LowByte(c) ^ 0x57), HighByte(c) ^ 0x15) == INITIAL
  {
    hide Feed, LowByte, HighByte, Xor;
    var lo, hi := LowByte(c), HighByte(c);
    XorLaws(c, 0);
    FeedLinear(c, 0, lo, 0x57);
    FeedLinear(Feed(c, lo), Feed(0, 0x57), hi, 0x15);
    FeedTwo(c, lo, hi);
    SteerConstants();
    XorMoves(0, INITIAL, 0);
    XorLaws(INITIAL, 0);
  }

  lemma SteerConstants()
    ensures Feed(Feed(0, 0x57), 0x15) == INITIAL
  {}

  // ----- which corruptions pass

  /** Frame `f` with the bits of `e` flipped. */
  function Flip(f: Frame, e: Frame): (r: Frame)
    requires |f| == |e|
  {
    seq(|f|, i requires 0 <= i < |f| => f[i] ^ e[i])
  }

  lemma {:induction false} RunLinear(c: bv16, d: bv16, f: Frame, e: Frame)
    requires |f| == |e|
    ensures Run(Xor(c, d), Flip(f, e)) == Xor(Run(c, f), Run(d, e))
    decreases |f|
  {
    hide Feed, Xor;
    if f == [] {
      assert Flip(f, e) == [];
    } else {
      var n := |f| - 1;
      assert Flip(f, e)[..n] == Flip(f[..n], e[..n]);
      RunLinear(c, d, f[..n], e[..n]);
      FeedLinear(Run(c, f[..n]), Run(d, e[..n]), f[n], e[n]);
    }
  }

  /** `n` bytes without a set bit. */
  function Quiet(n: nat): Frame { seq(n, i => 0) }

  /** Any part of a valid frame, cut out by two gaps: it is valid exactly when the
      difference that the bytes before it made to the register, carried silently over
      its length, is undone by the bytes after it. Its own contents do not matter. */
  lemma PartValidIff(frame: Frame, i: nat, j: nat)
    requires CrcOk(frame) && i <= j <= |frame|
    ensures CrcOk(frame[i..j]) <==>
            j - i >= 3 && Run(Xor(Run(INITIAL, frame[..i]), INITIAL), Quiet(j - i) + frame[j..]) == 0
  {
    hide CrcOk, Run, Xor;
    var head, part, tail := frame[..i], frame[i..j], frame[j..];
    var c := Run(INITIAL, head);
    var diff := Xor(c, INITIAL);
    var carried := Run(diff, Quiet(j - i));
    assert frame == head + (part + tail);
    ValidIffResidueZero(frame);
    ValidIffResidueZero(part);
    RunConcat(INITIAL, head, part + tail);
    RunConcat(c, part, tail);
    RunConcat(diff, Quiet(j - i), tail);
    RunShifted(c, part);
    if Run(carried, tail) == 0 {
      RunOneToOne(carried, Run(c, part), tail);
    }
    XorMoves(Run(INITIAL, part), carried, 0);
    XorLaws(carried, Run(INITIAL, part));
    XorLaws(carried, 0);
  }

  lemma RunShifted(c: bv16, s: Frame)
    ensures Run(c, s) == Xor(Run(INITIAL, s), Run(Xor(c, INITIAL), Quiet(|s|)))
  {
    hide Run, Xor;
    FlipQuiet(s);
    XorMoves(c, INITIAL, 0);
    XorLaws(INITIAL, c);
    RunLinear(INITIAL, Xor(c, INITIAL), s, Quiet(|s|));
  }

  lemma FlipQuiet(s: Frame)
    ensures Flip(s, Quiet(|s|)) == s
  {}

  /** The error patterns that slip through a valid frame are exactly those whose
      own register, started at zero, ends at zero; the frame itself is irrelevant. */
  lemma FlipUndetectedIff(f: Frame, e: Frame)
    requires CrcOk(f) && |f| == |e|
    ensures CrcOk(Flip(f, e)) <==> Run(0, e) == 0
  {
    hide Run, CrcOk, Xor;
    ValidIffResidueZero(f);
    ValidIffResidueZero(Flip(f, e));
    RunLinear(INITIAL, 0, f, e);
    XorLaws(INITIAL, 0);
    XorLaws(0, Run(0, e));
  }

  /** Every two frames of one length differ by some pattern. */
  lemma FlipBetween(f: Frame, g: Frame)
    requires |f| == |g|
    ensures Flip(f, Flip(f, g)) == g
    ensures forall i | 0 <= i < |f| :: Flip(f, g)[i] == 0 <==> f[i] == g[i]
  {
    forall i | 0 <= i < |f|
      ensures Flip(f, Flip(f, g))[i] == g[i] && (Flip(f, g)[i] == 0 <==> f[i] == g[i])
    {
      ByteXorLaws(f[i], g[i]);
    }
  }

  lemma ByteXorLaws(a: Byte, b: Byte)
    ensures a ^ (a ^ b) == b
    ensures a ^ b == 0 <==> a == b
  {}

  predicate AllZero(s: Frame) { forall i | 0 <= i < |s| :: s[i] == 0 }

  lemma FeedZero(c: bv16)
    ensures Feed(c, 0) == Shift8(c)
    ensures Feed(c, 0) == 0 <==> c == 0
  {
    hide Shift8, Xor;
    assert (0 as Byte) as bv16 == 0;
    XorLaws(c, 0);
    Shift8Kernel(c);
  }

  lemma {:induction false} RunOverZeros(c: bv16, s: Frame)
    requires AllZero(s)
    ensures Run(c, s) == 0 <==> c == 0
    decreases |s|
  {
    hide Feed;
    if s != [] {
      RunOverZeros(c, s[..|s| - 1]);
      FeedZero(Run(c, s[..|s| - 1]));
    }
  }

  // ----- bursts of up to sixteen bits

  /** The masks with the `j` lowest bits set, for `j` from 0 to 8. */
  predicate LowMask(m: Byte) {
    m == 0 || m == 1 || m == 3 || m == 7 || m == 15 || m == 31 || m == 63 || m == 127 || m == 255
  }

  /** All flipped bits lie in sixteen consecutive bits of the wire, low bit of a
      byte first: the bits of byte `i` outside `m`, byte `i + 1`, and the bits of
      byte `i + 2` (if the frame has one) inside `m`. */
  predicate Burst(e: Frame, i: nat, m: Byte) {
    && LowMask(m)
    && i + 1 < |e|
    && AllZero(e[..i])
    && e[i] & m == 0
    && (i + 2 < |e| ==> e[i + 2] & !m == 0 && AllZero(e[i + 3..]))
  }

  lemma WindowKernel(a: bv16, b: bv16, d: bv16, m: bv16)
    requires m == 0 || m == 1 || m == 3 || m == 7 || m == 15 || m == 31 || m == 63 || m == 127 || m == 255
    requires a < 0x100 && b < 0x100 && d < 0x100
    requires a & m == 0 && d & (m ^ 0xFF) == 0
    requires Shift8(Xor(Shift8(Xor(Shift8(Xor(0, a)), b)), d)) == 0
    ensures a == 0 && b == 0 && d == 0
  {
    Shift8Kernel(Xor(Shift8(Xor(Shift8(Xor(0, a)), b)), d));
  }

  lemma WidenMask(a: Byte, b: Byte, d: Byte, m: Byte)
    requires LowMask(m) && a & m == 0 && d & !m == 0
    ensures
      var w := m as bv16;
      w == 0 || w == 1 || w == 3 || w == 7 || w == 15 || w == 31 || w == 63 || w == 127 || w == 255
    ensures (a as bv16) & (m as bv16) == 0 && (d as bv16) & ((m as bv16) ^ 0xFF) == 0
    ensures a as bv16 < 0x100 && b as bv16 < 0x100 && d as bv16 < 0x100
    ensures a as bv16 == 0 <==> a == 0
    ensures b as bv16 == 0 <==> b == 0
    ensures d as bv16 == 0 <==> d == 0
  {}

  lemma WindowDetected(a: Byte, b: Byte, d: Byte, m: Byte)
    requires LowMask(m) && a & m == 0 && d & !m == 0
    requires Feed(Feed(Feed(0, a), b), d) == 0
    ensures a == 0 && b == 0 && d == 0
  {
    hide Shift8, Xor, LowMask;
    WidenMask(a, b, d, m);
    WindowKernel(a as bv16, b as bv16, d as bv16, m as bv16);
  }

  /** A burst the checksum misses is no error at all. */
  lemma BurstMissedIsEmpty(e: Frame, i: nat, m: Byte)
    requires Burst(e, i, m) && Run(0, e) == 0
    ensures AllZero(e)
  {
    hide Run, Feed, LowMask, Burst, AllZero;
    var d := BurstRun(e, i, m);
    WindowDetected(e[i], e[i + 1], d, m);
    BurstGone(e, i, m);
  }

  lemma BurstGone(e: Frame, i: nat, m: Byte)
    requires Burst(e, i, m) && e[i] == 0 && e[i + 1] == 0 && (i + 2 < |e| ==> e[i + 2] == 0)
    ensures AllZero(e)
  {
    forall k | 0 <= k < |e| ensures e[k] == 0 {
      if k < i {
        assert e[k] == e[..i][k];
      } else if k > i + 2 {
        assert e[k] == e[i + 3..][k - i - 3];
      }
    }
  }

  /** Only the three bytes of the burst move the register. */
  lemma BurstRun(e: Frame, i: nat, m: Byte) returns (d: Byte)
    requires Burst(e, i, m) && Run(0, e) == 0
    ensures i + 1 < |e| && (i + 2 < |e| ==> d == e[i + 2])
    ensures LowMask(m) && e[i] & m == 0 && d & !m == 0 && Feed(Feed(Feed(0, e[i]), e[i + 1]), d) == 0
  {
    hide Run, Feed, LowMask;
    var a, b := e[i], e[i + 1];
    d := if i + 2 < |e| then e[i + 2] else 0;
    assert d & !m == 0 by {
      ZeroMask(m);
    }
    var head := e[..i] + [a, b];
    assert e[..i + 2] == head;
    RunOverZeros(0, e[..i]);
    RunLastTwo(0, head);
    assert head[..|head| - 2] == e[..i];
    var r := Feed(Feed(0, a), b);
    if i + 2 < |e| {
      var rest := e[i + 3..];
      assert e == (head + [d]) + rest;
      RunConcat(0, head + [d], rest);
      RunSnoc(0, head, d);
      RunOverZeros(Feed(r, d), rest);
    } else {
      assert e == head;
      FeedZero(r);
    }
  }

  lemma ZeroMask(m: Byte)
    ensures 0 & !m == 0
  {}

  lemma RunSnoc(c: bv16, s: Frame, b: Byte)
    ensures Run(c, s + [b]) == Feed(Run(c, s), b)
  {
    hide Feed;
    assert (s + [b])[..|s|] == s;
  }

  /** Any real corruption of a valid frame confined to sixteen consecutive wire
      bits, at any bit position of a frame of any length, is rejected. */
  lemma BurstRejected(f: Frame, e: Frame, i: nat, m: Byte)
    requires CrcOk(f) && |f| == |e| && Burst(e, i, m) && !AllZero(e)
    ensures !CrcOk(Flip(f, e))
  {
    hide Run, CrcOk, Burst, AllZero, Flip;
    FlipUndetectedIff(f, e);
    if Run(0, e) == 0 {
      BurstMissedIsEmpty(e, i, m);
    }
  }

  /** Two valid frames of one length that differ, differ outside any two
      adjacent bytes. */
  lemma TwoAdjacentBytesRejected(f: Frame, g: Frame, i: nat)
    requires CrcOk(f) && |g| == |f| && i + 1 < |f| && f != g
    requires forall k | 0 <= k < |f| && k != i && k != i + 1 :: g[k] == f[k]
    ensures !CrcOk(g)
  {
    hide Run, CrcOk;
    var e := Flip(f, g);
    FlipBetween(f, g);
    var k :| 0 <= k < |f| && f[k] != g[k];
    assert e[k] != 0;
    assert Burst(e, i, 0) by {
      assert e[i] & 0 == 0;
      if i + 2 < |e| {
        assert e[i + 2] == 0;
        ZeroMask(0);
      }
    }
    BurstRejected(f, e, i, 0);
  }
}
