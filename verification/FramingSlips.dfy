/** What a gap in the wrong place can do: two requests read as one, or one request
    read as two. */
module FramingSlips {
  import opened Basics
  import opened Crc
  import opened BitPacking
  import opened Modbus
  import opened ModbusTheorems
  import P = SerialPump

  predicate Answers(d: Device, req: Frame) { HandleFrame(d, req).1.Some? }

  lemma AnswersIff(d: Device, req: Frame)
    ensures Answers(d, req) <==> d.dropNext == 0 && |req| >= 4 && CrcOk(req) && req[0] == d.address
  {
    hide CrcOk, Dispatch, Sealed;
  }

  /** Two requests read as one are ignored. Of a request cut in two, the slave answers
      the first part exactly when the second leaves a cleared register clear, and the
      second part exactly when the first leaves a fresh register fresh; these two parts
      are never both answered, whichever devices listen. */
  lemma SlipsAnsweredIff(d: Device, e: Device, f: Frame, g: Frame, cut: nat)
    requires CrcOk(f) && CrcOk(g) && cut <= |f|
    ensures Ignores(d, f + g)
    ensures Answers(d, f[..cut]) <==>
            d.dropNext == 0 && cut >= 4 && f[0] == d.address && Run(0, f[cut..]) == 0
    ensures Answers(d, f[cut..]) <==>
            d.dropNext == 0 && |f| - cut >= 4 && f[cut] == d.address && Run(INITIAL, f[..cut]) == INITIAL
    ensures !(Answers(d, f[..cut]) && Answers(e, f[cut..]))
  {
    hide CrcOk, Ignores, Answers, Run;
    MergedFramesRejected(f, g);
    InvalidFrameIgnored(d, f + g);
    SplitFrameExactly(f, cut);
    AnswersIff(d, f[..cut]);
    AnswersIff(d, f[cut..]);
    AnswersIff(e, f[cut..]);
  }

  /** With two gaps: exactly when the slave answers what lies between them. */
  lemma PartAnsweredIff(d: Device, f: Frame, i: nat, j: nat)
    requires CrcOk(f) && i <= j <= |f|
    ensures Answers(d, f[i..j]) <==>
            && d.dropNext == 0 && j - i >= 4 && f[i] == d.address
            && Run(Xor(Run(INITIAL, f[..i]), INITIAL), Quiet(j - i) + f[j..]) == 0
  {
    hide CrcOk, Answers, Run, Xor;
    PartValidIff(f, i, j);
    AnswersIff(d, f[i..j]);
  }

  /** Then two parts can both be answered: any two requests, with the two bytes 0x57
      and 0x15 between them, are one valid frame. */
  lemma TwoRequestsInOne(a: Frame, c: Frame)
    requires CrcOk(a) && CrcOk(c)
    ensures
      var f := a + [0x57, 0x15] + c;
      CrcOk(f) && f[..|a|] == a && f[|a| + 2..] == c
  {
    hide CrcOk, Run, Feed;
    var mid: Frame := [0x57, 0x15];
    var f := a + mid + c;
    ValidIffResidueZero(a);
    ValidIffResidueZero(c);
    ValidIffResidueZero(f);
    RunConcat(INITIAL, a + mid, c);
    assert a + mid == a + [0x57] + [0x15];
    RunSnoc(INITIAL, a, 0x57);
    RunSnoc(INITIAL, a + [0x57], 0x15);
    SteerConstants();
    LongEnough(c);
    assert f[|a| + 2..] == c;
  }

  lemma LongEnough(f: Frame)
    requires CrcOk(f)
    ensures |f| >= 3
  {}

  // ----- the first part of a request

  /** A request the slave carries out. */
  predicate Accepts(d: Device, req: Frame) {
    && Answers(d, req)
    && var reply := HandleFrame(d, req).1.value;
    && |reply| > 1 && !IsException(reply)
  }

  lemma AcceptedIsNormal(d: Device, req: Frame)
    requires Accepts(d, req)
    ensures d.forced.None? && |req| >= 4 && Dispatch(d, req[1], req[2..|req| - 2]).1.Normal?
  {
    hide CrcOk, Dispatch, Run, LowByte, HighByte;
    HighBit(req[1]);
  }

  /** Each function takes one length of data only, which a multiple write announces
      in its fifth byte; so a shorter start of an accepted request is refused. */
  lemma ShorterIsRefused(d: Device, fc: Byte, pdu: Frame, k: nat)
    requires Dispatch(d, fc, pdu).1.Normal? && fc != 0x11 && k < |pdu|
    ensures Dispatch(d, fc, pdu[..k]).1.Exception?
  {
    hide Word, Num, ByteOf, Index, RegBytes, PackBits, BytesRegs, UnpackBits, Overwrite;
  }

  /** So the first part of a request the slave would carry out may be answered, but
      with an exception (or the slave's id, if that was asked): it writes nothing. */
  lemma CutHeadNeverWrites(d: Device, f: Frame, cut: nat)
    requires Accepts(d, f) && cut < |f|
    ensures
      var (d', reply) := HandleFrame(d, f[..cut]);
      && d'.banks == d.banks
      && (reply.Some? && f[1] != 0x11 ==> |reply.value| > 1 && IsException(reply.value))
  {
    hide CrcOk, Dispatch, Run, LowByte, HighByte, Accepts;
    AcceptedIsNormal(d, f);
    var head := f[..cut];
    if d.dropNext == 0 && |head| >= 4 && CrcOk(head) && head[0] == d.address {
      var pdu := f[2..|f| - 2];
      assert head[2..cut - 2] == pdu[..cut - 4];
      DispatchOutcome(d, f[1], head[2..cut - 2]);
      HighBit(f[1]);
      if f[1] != 0x11 {
        ShorterIsRefused(d, f[1], pdu, cut - 4);
      } else {
        IdWritesNothing(d, head[2..cut - 2]);
      }
    }
  }

  lemma IdWritesNothing(d: Device, pdu: Frame)
    ensures Dispatch(d, 0x11, pdu).0 == d.banks
  {}

  /** But answered it can be: for every start there is a well-formed write of two
      registers whose first nine bytes draw a reply of their own. */
  lemma CutHeadAnswered(d: Device, s1: Byte, s0: Byte)
    requires Healthy(d)
    ensures
      var f := Sealed([d.address, 0x10, s1, s0, 0, 2, 4]) + [0, 0, 0, 0];
      && |f| == 13
      && f == Request(d.address, [0x10, s1, s0, 0, 2, 4] + f[7..11])
      && HandleFrame(d, f[..9]) == (d, Some(Sealed([d.address, 0x90, ILLEGAL_DATA_VALUE])))
  {
    hide Run, LowByte, HighByte, CrcOk, Dispatch, HandleFrame;
    var body: Frame := [d.address, 0x10, s1, s0, 0, 2, 4];
    var a := Sealed(body);
    var zeros: Frame := [0, 0, 0, 0];
    var f := a + zeros;
    SealedIsValid(body);
    ValidIffResidueZero(a);
    ValidIffResidueZero(f);
    RunConcat(INITIAL, a, zeros);
    RunOverZeros(0, zeros);
    ValidIsSealed(f);
    assert f[..11] == [d.address] + ([0x10, s1, s0, 0, 2, 4] + f[7..11]);
    assert f[..9] == a;
    var pdu: Frame := [s1, s0, 0, 2, 4];
    assert body == [d.address] + ([0x10] + pdu);
    RequestAsPdu(d, 0x10, pdu);
    BareHeaderRefused(d, pdu);
  }

  lemma BareHeaderRefused(d: Device, pdu: Frame)
    requires |pdu| == 5 && pdu[4] == 4
    ensures Dispatch(d, 0x10, pdu) == (d.banks, Exception(ILLEGAL_DATA_VALUE))
    ensures Body(d.address, 0x10, Exception(ILLEGAL_DATA_VALUE)) == [d.address, 0x90, ILLEGAL_DATA_VALUE]
  {
    assert Num(4) == 4;
    assert (0x10 as Byte) | 0x80 == 0x90;
  }

  // ----- the second part of a request

  /** A write of four registers, the last six bytes of whose data and whose checksum
      are the request `w` to the same slave. */
  function Carrier(address: Byte, s1: Byte, s0: Byte, w: Frame): Frame {
    var head: Frame := [address, 0x10, s1, s0, 0, 4, 8];
    head + Steer(Run(INITIAL, head)) + Request(address, w)
  }

  /** The second part can do harm: for every start and every single-register write
      there is a well-formed write of four registers which, cut after nine bytes,
      makes the slave carry out the single write instead. */
  lemma CutTailWrites(d: Device, s1: Byte, s0: Byte, w: Frame)
    requires Healthy(d) && |w| == 5 && w[0] == 0x06 && Index(w[1], w[2]) < |d.banks.holding|
    ensures
      var f := Carrier(d.address, s1, s0, w);
      && |f| == 17
      && f == Request(d.address, [0x10, s1, s0, 0, 4, 8] + f[7..15])
      && Ignores(d, f[..9])
      && HandleFrame(d, f[9..]) ==
         (d.(banks := d.banks.(holding := d.banks.holding[Index(w[1], w[2]) := Word(w[3], w[4])])),
          Some(Request(d.address, w)))
  {
    hide Run, LowByte, HighByte, CrcOk, HandleFrame, Dispatch, Index, Word, Steer, Ignores;
    var g := Request(d.address, w);
    var f := Carrier(d.address, s1, s0, w);
    CarrierParts(d.address, s1, s0, w);
    RequestAccepted(d, w);
    SplitFrameExactly(f, 9);
    InvalidFrameIgnored(d, f[..9]);
    ValidIsSealed(f);
    assert f[..15] == [d.address] + ([0x10, s1, s0, 0, 4, 8] + f[7..15]);
    RequestHandled(d, w);
    SingleWrite(d, w);
  }

  /** On the bridge one spurious silence is enough. */
  lemma SpuriousGapWrites(d: Device, s1: Byte, s0: Byte, w: Frame)
    requires Healthy(d) && |w| == 5 && w[0] == 0x06 && Index(w[1], w[2]) < |d.banks.holding|
    ensures
      var f := Carrier(d.address, s1, s0, w);
      && |f| == 17
      && var q := P.Run(P.Start(d), [P.Data(f[..9]), P.Gap(true), P.Data(f[9..]), P.Eof(true)]);
      && q.written == [Request(d.address, w)]
      && q.device == d.(banks := d.banks.(holding := d.banks.holding[Index(w[1], w[2]) := Word(w[3], w[4])]))
  {
    hide HandleFrame, Carrier, Request, Index, Word;
    CutTailWrites(d, s1, s0, w);
    var f := Carrier(d.address, s1, s0, w);
    TwoRuns(d, f[..9], f[9..]);
  }

  lemma TwoRuns(d: Device, a: Frame, b: Frame)
    requires 0 < |a| <= P.MAX_PENDING && 0 < |b| <= P.MAX_PENDING
    ensures
      var q := P.Run(P.Start(d), [P.Data(a), P.Gap(true), P.Data(b), P.Eof(true)]);
      var (d1, r1) := HandleFrame(d, a);
      var (d2, r2) := HandleFrame(d1, b);
      && q.device == d2
      && q.written == (match r1 case Some(x) => [x] case None => []) + (match r2 case Some(x) => [x] case None => [])
  {
    hide HandleFrame;
    var es := [P.Data(a), P.Gap(true), P.Data(b), P.Eof(true)];
    assert es[1..] == [P.Gap(true), P.Data(b), P.Eof(true)];
    assert es[1..][1..] == [P.Data(b), P.Eof(true)];
    assert es[1..][1..][1..] == [P.Eof(true)];
    var q1 := P.Step(P.Start(d), es[0]);
    var q2 := P.Step(q1, es[1]);
    var q3 := P.Step(q2, es[2]);
    var q4 := P.Step(q3, es[3]);
    assert [] + a == a && [] + b == b;
    hide P.Step;
    assert P.Run(P.Start(d), es) == P.Run(q1, es[1..]);
    assert P.Run(q1, es[1..]) == P.Run(q2, es[1..][1..]);
    assert P.Run(q2, es[1..][1..]) == P.Run(q3, es[1..][1..][1..]);
    assert P.Run(q3, [P.Eof(true)]) == P.Run(q4, []);
  }

  lemma SingleWrite(d: Device, w: Frame)
    requires |w| == 5 && w[0] == 0x06 && Index(w[1], w[2]) < |d.banks.holding|
    ensures Dispatch(d, w[0], w[1..]) ==
            (d.banks.(holding := d.banks.holding[Index(w[1], w[2]) := Word(w[3], w[4])]), Normal(w[1..]))
    ensures Body(d.address, w[0], Normal(w[1..])) == [d.address] + w
  {
    hide Index, Word;
  }

  lemma CarrierParts(address: Byte, s1: Byte, s0: Byte, w: Frame)
    requires |w| == 5
    ensures
      var f := Carrier(address, s1, s0, w);
      && |f| == 17 && CrcOk(f) && f[9..] == Request(address, w) && CrcOk(f[9..])
      && f[0] == address && f[1] == 0x10 && f[2] == s1 && f[3] == s0 && f[4] == 0 && f[5] == 4 && f[6] == 8
  {
    hide Run, CrcOk, LowByte, HighByte;
    var head: Frame := [address, 0x10, s1, s0, 0, 4, 8];
    var prefix := head + Steer(Run(INITIAL, head));
    var g := Request(address, w);
    var f := Carrier(address, s1, s0, w);
    SteerStarts(head);
    SealedIsValid([address] + w);
    RunConcat(INITIAL, prefix, g);
    ValidIffResidueZero(g);
    ValidIffResidueZero(f);
    assert f[9..] == g;
  }
}
