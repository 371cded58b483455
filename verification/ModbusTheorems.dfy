/** What the slave guarantees for every device state and every frame. */
module ModbusTheorems {
  import opened Basics
  import opened Crc
  import opened BitPacking
  import opened Modbus
  import D = CrcDistance

  /** The reply carries an exception, as a master sees it on the wire. */
  predicate IsException(reply: Frame)
    requires |reply| > 1
  {
    reply[1] & 0x80 != 0
  }

  // ----- corrupted frames

  /** The slave stays silent and keeps everything but its drop counter. */
  predicate Ignores(d: Device, req: Frame) {
    HandleFrame(d, req) == (d.(dropNext := if d.dropNext > 0 then d.dropNext - 1 else 0), None)
  }

  lemma InvalidFrameIgnored(d: Device, req: Frame)
    requires !CrcOk(req)
    ensures Ignores(d, req)
  {
    hide CrcOk, Dispatch, Sealed;
  }

  /** A valid frame hit by a burst of at most sixteen wire bits, by an odd number
      of bit flips anywhere, or (up to 4095 bytes) by at most three flips, gets no
      reply and changes no bank, whatever the device. */
  lemma CorruptedFrameIgnored(d: Device, f: Frame, e: Frame, i: nat, m: Byte)
    requires CrcOk(f) && |f| == |e| && !AllZero(e)
    requires || Burst(e, i, m)
             || D.OnesIn(e) % 2 == 1
             || (|f| <= 4095 && 1 <= D.OnesIn(e) <= 3)
    ensures Ignores(d, Flip(f, e))
  {
    hide CrcOk, Burst, D.OnesIn, Flip, Ignores, AllZero;
    if Burst(e, i, m) {
      BurstRejected(f, e, i, m);
    } else if D.OnesIn(e) % 2 == 1 {
      D.OddFlipsRejected(f, e);
    } else {
      D.UpToThreeFlipsRejected(f, e);
    }
    InvalidFrameIgnored(d, Flip(f, e));
  }

  lemma HighBit(fc: Byte)
    ensures (fc | 0x80) & 0x80 != 0
    ensures fc < 0x80 ==> fc & 0x80 == 0
  {}

  /** An exception leaves the banks alone; a normal answer has a low function code. */
  lemma DispatchOutcome(d: Device, fc: Byte, pdu: Frame)
    ensures
      var (b, r) := Dispatch(d, fc, pdu);
      && (r.Exception? ==> b == d.banks)
      && (r.Normal? ==> fc < 0x80)
      && |b.holding| == |d.banks.holding| && |b.input| == |d.banks.input|
      && |b.coils| == |d.banks.coils| && |b.discrete| == |d.banks.discrete|
      && b.input == d.banks.input && b.discrete == d.banks.discrete
  {
    hide Word, Num, ByteOf, Index, ReadBits, ReadRegs, BytesRegs, UnpackBits;
    SizesKept(d, pdu);
  }

  lemma SizesKept(d: Device, pdu: Frame)
    ensures |WriteMultiRegs(d.banks, pdu).0.holding| == |d.banks.holding|
    ensures |WriteMultiCoils(d.banks, pdu).0.coils| == |d.banks.coils|
  {
    hide Word, Num, ByteOf, Index, Mask;
  }

  lemma DataFits(d: Device, fc: Byte, pdu: Frame)
    ensures
      var (_, r) := Dispatch(d, fc, pdu);
      r.Normal? ==> 1 <= |r.data| <= 251 || (fc == 0x11 && |r.data| == |d.slaveId| + 1)
  {
    hide Word, Num, ByteOf, Index, Mask, OrBits, HighByte, LowByte, BitAt, UnpackBits, BytesRegs;
  }

  /** Silence and exceptions change no bank; so whatever changes a bank is
      announced to the master by a normal reply. */
  lemma OnlyNormalRepliesWrite(d: Device, req: Frame)
    ensures
      var (d', reply) := HandleFrame(d, req);
      && (reply.None? ==> d'.banks == d.banks)
      && (reply.Some? ==> |reply.value| > 1 && (IsException(reply.value) ==> d'.banks == d.banks))
  {
    hide CrcOk, Dispatch, Run, LowByte, HighByte;
    if d.dropNext == 0 && |req| >= 4 && CrcOk(req) && req[0] == d.address {
      var fc, pdu := req[1], req[2..|req| - 2];
      DispatchOutcome(d, fc, pdu);
      HighBit(fc);
      var (b, r) := Dispatch(d, fc, pdu);
      if d.forced.None? && r.Normal? {
        assert Sealed(Body(d.address, fc, r))[1] == fc;
      }
    }
  }

  /** Every reply is a valid frame from this slave, answers the request's own
      function code (with 0x80 set for an exception), and fits the 256 bytes of
      section 2.5.1 of MODBUS over Serial Line when the slave id does. */
  lemma ReplyWellFormed(d: Device, req: Frame)
    ensures
      var (_, reply) := HandleFrame(d, req);
      reply.Some? ==>
        && |req| >= 4 && CrcOk(req) && req[0] == d.address
        && CrcOk(reply.value) && 5 <= |reply.value|
        && reply.value[0] == d.address
        && (reply.value[1] == req[1] || reply.value[1] == req[1] | 0x80)
        && (|d.slaveId| <= 251 ==> |reply.value| <= 256)
  {
    hide CrcOk, Dispatch, Run, LowByte, HighByte;
    if d.dropNext == 0 && |req| >= 4 && CrcOk(req) && req[0] == d.address {
      var fc, pdu := req[1], req[2..|req| - 2];
      DataFits(d, fc, pdu);
      var r := match d.forced case Some(code) => Exception(code) case None => Dispatch(d, fc, pdu).1;
      SealedIsValid(Body(d.address, fc, r));
    }
  }

  /** 251 is exact: the answer to function 0x11 is the slave id and five bytes. */
  lemma SlaveIdReplyLength(d: Device)
    requires d.dropNext == 0 && d.forced.None?
    ensures
      var (d', reply) := HandleFrame(d, Request(d.address, [0x11]));
      && d' == d && reply.Some? && |reply.value| == |d.slaveId| + 5
      && reply.value[2] == ByteOf(|d.slaveId| % 256) && reply.value[3..3 + |d.slaveId|] == d.slaveId
      && (|reply.value| <= 256 <==> |d.slaveId| <= 251)
  {
    hide CrcOk, Run, LowByte, HighByte;
    RequestAccepted(d, [0x11]);
    assert Request(d.address, [0x11])[2..2] == [];
  }

  // ----- whole runs

  function RunFrames(d: Device, reqs: seq<Frame>): Device
    decreases |reqs|
  {
    if reqs == [] then d else RunFrames(HandleFrame(d, reqs[0]).0, reqs[1..])
  }

  predicate SameShape(d: Device, e: Device) {
    && d.address == e.address && d.slaveId == e.slaveId && d.forced == e.forced
    && d.banks.input == e.banks.input && d.banks.discrete == e.banks.discrete
    && |d.banks.holding| == |e.banks.holding| && |d.banks.coils| == |e.banks.coils|
  }

  /** No sequence of frames resizes a bank or touches the read-only ones, so the
      bounds a bus is created with hold for its whole life. */
  lemma {:induction false} ShapeKept(d: Device, reqs: seq<Frame>)
    ensures SameShape(d, RunFrames(d, reqs))
    decreases |reqs|
  {
    hide CrcOk, Dispatch, Sealed;
    if reqs != [] {
      var req := reqs[0];
      if |req| >= 4 {
        DispatchOutcome(d, req[1], req[2..|req| - 2]);
      }
      ShapeKept(HandleFrame(d, req).0, reqs[1..]);
    }
  }

  // ----- write then read, through whole frames

  predicate Healthy(d: Device) { d.dropNext == 0 && d.forced.None? }

  lemma RequestAccepted(d: Device, pdu: Frame)
    requires pdu != []
    ensures
      var f := Request(d.address, pdu);
      && |f| == |pdu| + 3 && CrcOk(f) && f[0] == d.address && f[1] == pdu[0] && f[2..|f| - 2] == pdu[1..]
  {
    hide CrcOk, Run, LowByte, HighByte;
    SealedIsValid([d.address] + pdu);
    var f := Request(d.address, pdu);
    assert f[..|f| - 2] == [d.address] + pdu;
    assert f[2..|f| - 2] == f[..|f| - 2][2..];
  }

  lemma RequestHandled(d: Device, pdu: Frame)
    requires pdu != [] && Healthy(d)
    ensures
      var (b, r) := Dispatch(d, pdu[0], pdu[1..]);
      HandleFrame(d, Request(d.address, pdu)) == (d.(banks := b), Some(Sealed(Body(d.address, pdu[0], r))))
  {
    hide CrcOk, Dispatch, Sealed, Request;
    RequestAccepted(d, pdu);
  }

  lemma OverwriteSlice<T>(bank: seq<T>, start: nat, values: seq<T>)
    requires start + |values| <= |bank|
    ensures |Overwrite(bank, start, values)| == |bank|
    ensures Overwrite(bank, start, values)[start..start + |values|] == values
    ensures forall i | 0 <= i < |bank| && !(start <= i < start + |values|) ::
              Overwrite(bank, start, values)[i] == bank[i]
  {}

  /** Function 0x10 and then 0x03 over the same range gives the payload back byte
      for byte, and no other register or bank moved. `at` is the four bytes of
      start and count, `size` the byte count. */
  lemma WriteRegsThenRead(d: Device, at: Frame, size: Byte, payload: Frame)
    requires Healthy(d) && |at| == 4
    requires var start, count := Index(at[0], at[1]), Index(at[2], at[3]);
             1 <= count <= 123 && start + count <= |d.banks.holding| && |payload| == 2 * count == Num(size)
    ensures
      var start, count := Index(at[0], at[1]), Index(at[2], at[3]);
      var (d1, r1) := HandleFrame(d, Request(d.address, [0x10] + at + [size] + payload));
      var (d2, r2) := HandleFrame(d1, Request(d.address, [0x03] + at));
      && r1 == Some(Sealed([d.address, 0x10] + at))
      && r2 == Some(Sealed([d.address, 0x03, size] + payload))
      && d2 == d1 == d.(banks := d.banks.(holding := d1.banks.holding))
      && |d1.banks.holding| == |d.banks.holding|
      && forall i | 0 <= i < |d.banks.holding| && !(start <= i < start + count) ::
           d1.banks.holding[i] == d.banks.holding[i]
  {
    hide Dispatch, HandleFrame, Request, Sealed, Body, Num, ByteOf, Index, BytesRegs;
    var pdu := at + [size] + payload;
    var b1 := RegsWritten(d, at, size, payload);
    var d1 := d.(banks := b1);
    RequestAsPdu(d, 0x10, pdu);
    assert [0x10] + at + [size] + payload == [0x10] + pdu;
    RequestAsPdu(d1, 0x03, at);
    RegsReadBack(d1, at, size, payload);
    assert Body(d.address, 0x10, Normal(at)) == [d.address, 0x10] + at by { BodyOfNormal(d.address, 0x10, at); }
    BodyOfNormal(d.address, 0x03, [size] + payload);
    assert [d.address, 0x03] + ([size] + payload) == [d.address, 0x03, size] + payload;
  }

  lemma BodyOfNormal(address: Byte, fc: Byte, data: Frame)
    ensures Body(address, fc, Normal(data)) == [address, fc] + data
  {}

  lemma RequestAsPdu(d: Device, fc: Byte, pdu: Frame)
    requires Healthy(d)
    ensures
      var (b, r) := Dispatch(d, fc, pdu);
      HandleFrame(d, Request(d.address, [fc] + pdu)) == (d.(banks := b), Some(Sealed(Body(d.address, fc, r))))
  {
    hide Dispatch, HandleFrame, Request, Sealed, Body;
    RequestHandled(d, [fc] + pdu);
    assert ([fc] + pdu)[1..] == pdu;
  }

  /** The parts of a multiple write: start and count, byte count, payload. */
  lemma WriteParts(at: Frame, size: Byte, payload: Frame, pdu: Frame)
    requires |at| == 4 && |payload| == Num(size) && pdu == at + [size] + payload
    ensures |pdu| == 5 + |payload| && pdu[..4] == at && pdu[5..] == payload && Num(pdu[4]) == |payload|
    ensures pdu[0] == at[0] && pdu[1] == at[1] && pdu[2] == at[2] && pdu[3] == at[3]
  {}

  lemma RegsWritten(d: Device, at: Frame, size: Byte, payload: Frame) returns (b1: Banks)
    requires |at| == 4
    requires var start, count := Index(at[0], at[1]), Index(at[2], at[3]);
             1 <= count <= 123 && start + count <= |d.banks.holding| && |payload| == 2 * count == Num(size)
    ensures Dispatch(d, 0x10, at + [size] + payload) == (b1, Normal(at))
    ensures
      var start, count := Index(at[0], at[1]), Index(at[2], at[3]);
      && b1 == d.banks.(holding := b1.holding) && |b1.holding| == |d.banks.holding|
      && b1.holding[start..start + count] == BytesRegs(payload)
      && forall i | 0 <= i < |d.banks.holding| && !(start <= i < start + count) ::
           b1.holding[i] == d.banks.holding[i]
  {
    hide Num, ByteOf, Index, BytesRegs, Overwrite;
    var start, count := Index(at[0], at[1]), Index(at[2], at[3]);
    var pdu := at + [size] + payload;
    WriteParts(at, size, payload, pdu);
    BytesRegsSize(payload);
    OverwriteSlice(d.banks.holding, start, BytesRegs(payload));
    b1 := d.banks.(holding := Overwrite(d.banks.holding, start, BytesRegs(payload)));
    assert WriteMultiRegs(d.banks, pdu) == (b1, Normal(at));
  }

  lemma RegsReadBack(d: Device, at: Frame, size: Byte, payload: Frame)
    requires |at| == 4
    requires var start, count := Index(at[0], at[1]), Index(at[2], at[3]);
             && 1 <= count <= 123 && start + count <= |d.banks.holding| && |payload| == 2 * count == Num(size)
             && d.banks.holding[start..start + count] == BytesRegs(payload)
    ensures Dispatch(d, 0x03, at) == (d.banks, Normal([size] + payload))
  {
    hide Word, Num, ByteOf, Index, BytesRegs, RegBytes;
    RegBytesRoundTrip(payload);
    NumBack(size);
  }

  lemma BytesRegsSize(b: Frame)
    ensures |BytesRegs(b)| == |b| / 2
  {}

  /** Function 0x0F and then 0x01 over the same range gives the payload back with
      the unused high bits of its last byte cleared; nothing else moved. */
  lemma WriteCoilsThenRead(d: Device, at: Frame, size: Byte, payload: Frame) returns (cleared: Frame)
    requires Healthy(d) && |at| == 4
    requires var start, count := Index(at[0], at[1]), Index(at[2], at[3]);
             1 <= count <= 1968 && start + count <= |d.banks.coils| && |payload| == Room(count) == Num(size)
    ensures
      var start, count := Index(at[0], at[1]), Index(at[2], at[3]);
      && |cleared| == |payload|
      && (forall i | 0 <= i < 8 * |payload| :: BitAt(cleared, i) <==> i < count && BitAt(payload, i))
      && (count % 8 == 0 ==> cleared == payload)
    ensures
      var start, count := Index(at[0], at[1]), Index(at[2], at[3]);
      var (d1, r1) := HandleFrame(d, Request(d.address, [0x0F] + at + [size] + payload));
      var (d2, r2) := HandleFrame(d1, Request(d.address, [0x01] + at));
      && r1 == Some(Sealed([d.address, 0x0F] + at))
      && r2 == Some(Sealed([d.address, 0x01, size] + cleared))
      && d2 == d1 == d.(banks := d.banks.(coils := d1.banks.coils))
      && |d1.banks.coils| == |d.banks.coils|
      && forall i | 0 <= i < |d.banks.coils| && !(start <= i < start + count) ::
           d1.banks.coils[i] == d.banks.coils[i]
  {
    hide Dispatch, HandleFrame, Request, Sealed, Body, Num, ByteOf, Index, UnpackBits, PackBits, BitAt;
    var count := Index(at[2], at[3]);
    var pdu := at + [size] + payload;
    var b1 := CoilsWritten(d, at, size, payload);
    var d1 := d.(banks := b1);
    RequestAsPdu(d, 0x0F, pdu);
    assert [0x0F] + at + [size] + payload == [0x0F] + pdu;
    RequestAsPdu(d1, 0x01, at);
    CoilsReadBack(d1, at, size, payload);
    cleared := PackBits(UnpackBits(payload, count));
    PackOfUnpack(payload, count);
    if count % 8 == 0 {
      WholeBytes(payload, cleared, count);
    }
    BodyOfNormal(d.address, 0x0F, at);
    BodyOfNormal(d.address, 0x01, [size] + cleared);
    assert [d.address, 0x01] + ([size] + cleared) == [d.address, 0x01, size] + cleared;
  }

  lemma WholeBytes(payload: Frame, cleared: Frame, count: nat)
    requires count % 8 == 0 && |payload| == Room(count) == |cleared|
    requires forall i | 0 <= i < 8 * |payload| :: BitAt(cleared, i) <==> i < count && BitAt(payload, i)
    ensures cleared == payload
  {
    hide BitAt;
    FrameFromBits(cleared, payload);
  }

  lemma CoilsWritten(d: Device, at: Frame, size: Byte, payload: Frame) returns (b1: Banks)
    requires |at| == 4
    requires var start, count := Index(at[0], at[1]), Index(at[2], at[3]);
             1 <= count <= 1968 && start + count <= |d.banks.coils| && |payload| == Room(count) == Num(size)
    ensures Dispatch(d, 0x0F, at + [size] + payload) == (b1, Normal(at))
    ensures
      var start, count := Index(at[0], at[1]), Index(at[2], at[3]);
      && b1 == d.banks.(coils := b1.coils) && |b1.coils| == |d.banks.coils|
      && b1.coils[start..start + count] == UnpackBits(payload, count)
      && forall i | 0 <= i < |d.banks.coils| && !(start <= i < start + count) ::
           b1.coils[i] == d.banks.coils[i]
  {
    hide Num, ByteOf, Index, UnpackBits, Overwrite;
    var start, count := Index(at[0], at[1]), Index(at[2], at[3]);
    var pdu := at + [size] + payload;
    WriteParts(at, size, payload, pdu);
    UnpackSize(payload, count);
    OverwriteSlice(d.banks.coils, start, UnpackBits(payload, count));
    b1 := d.banks.(coils := Overwrite(d.banks.coils, start, UnpackBits(payload, count)));
    assert WriteMultiCoils(d.banks, pdu) == (b1, Normal(at));
  }

  lemma CoilsReadBack(d: Device, at: Frame, size: Byte, payload: Frame)
    requires |at| == 4
    requires var start, count := Index(at[0], at[1]), Index(at[2], at[3]);
             && 1 <= count <= 1968 && start + count <= |d.banks.coils| && |payload| == Room(count) == Num(size)
             && d.banks.coils[start..start + count] == UnpackBits(payload, count)
    ensures Dispatch(d, 0x01, at) ==
            (d.banks, Normal([size] + PackBits(UnpackBits(payload, Index(at[2], at[3])))))
  {
    hide Word, Num, ByteOf, Index, UnpackBits, PackBits;
    NumBack(size);
  }

  lemma UnpackSize(b: Frame, count: nat)
    requires Room(count) <= |b|
    ensures |UnpackBits(b, count)| == count
  {}

  // ----- reads show the banks, single writes are multiple writes of one

  predicate InRange(size: nat, limit: nat, pdu: Frame) {
    && |pdu| == 4 && 1 <= Index(pdu[2], pdu[3]) <= limit
    && Index(pdu[0], pdu[1]) + Index(pdu[2], pdu[3]) <= size
  }

  /** A read of bits is answered exactly when the range is legal and inside the
      bank, and carries exactly the bits of that range with clear padding. */
  lemma ReadBitsShowsBank(bank: seq<bool>, pdu: Frame)
    ensures ReadBits(bank, pdu).Normal? <==> InRange(|bank|, 2000, pdu)
    ensures InRange(|bank|, 2000, pdu) ==>
              var data := ReadBits(bank, pdu).data;
              var start, count := Index(pdu[0], pdu[1]), Index(pdu[2], pdu[3]);
              && |data| == 1 + Room(count) && data[0] == ByteOf(Room(count))
              && forall i | 0 <= i < 8 * Room(count) :: BitAt(data[1..], i) <==> i < count && bank[start + i]
  {
    hide Num, ByteOf, Index, PackBits, BitAt;
    if InRange(|bank|, 2000, pdu) {
      var start, count := Index(pdu[0], pdu[1]), Index(pdu[2], pdu[3]);
      var bits := bank[start..start + count];
      PackSize(bits);
      var data := ReadBits(bank, pdu).data;
      assert data == [ByteOf(Room(count))] + PackBits(bits);
      assert data[1..] == PackBits(bits);
      forall i | 0 <= i < 8 * Room(count) ensures BitAt(PackBits(bits), i) <==> i < count && bank[start + i] {
        PackedBit(bits, i);
      }
    }
  }

  /** A read of registers is answered exactly when the range is legal and inside
      the bank, and carries those registers, high byte first. */
  lemma ReadRegsShowsBank(bank: seq<bv16>, pdu: Frame)
    ensures ReadRegs(bank, pdu).Normal? <==> InRange(|bank|, 125, pdu)
    ensures InRange(|bank|, 125, pdu) ==>
              var data := ReadRegs(bank, pdu).data;
              var start, count := Index(pdu[0], pdu[1]), Index(pdu[2], pdu[3]);
              && |data| == 1 + 2 * count && data[0] == ByteOf(2 * count)
              && forall i | 0 <= i < count :: Word(data[1 + 2 * i], data[2 + 2 * i]) == bank[start + i]
  {
    hide Word, Num, ByteOf, Index, RegBytes;
    if InRange(|bank|, 125, pdu) {
      var start, count := Index(pdu[0], pdu[1]), Index(pdu[2], pdu[3]);
      var regs := bank[start..start + count];
      RegBytesSize(regs);
      var data := ReadRegs(bank, pdu).data;
      assert data == [ByteOf(2 * count)] + RegBytes(regs);
      forall i | 0 <= i < count ensures Word(data[1 + 2 * i], data[2 + 2 * i]) == bank[start + i] {
        RegBytesAt(regs, i);
        assert data[1 + 2 * i] == RegBytes(regs)[2 * i];
        assert data[2 + 2 * i] == RegBytes(regs)[2 * i + 1];
        assert regs[i] == bank[start + i];
      }
    }
  }

  lemma RegBytesSize(regs: seq<bv16>)
    ensures |RegBytes(regs)| == 2 * |regs|
  {}

  lemma RegBytesAt(regs: seq<bv16>, i: nat)
    requires i < |regs|
    ensures |RegBytes(regs)| == 2 * |regs|
    ensures Word(RegBytes(regs)[2 * i], RegBytes(regs)[2 * i + 1]) == regs[i]
  {
    hide Word, HighByte, LowByte;
    HalvesMakeWord(regs[i]);
  }

  lemma SmallNumbers()
    ensures Index(0, 1) == 1 && Num(1) == 1 && Num(2) == 2
  {}

  lemma CoilWords()
    ensures Word(0xFF, 0) == 0xFF00 && Word(0, 0) == 0
  {}

  lemma OneCoil(on: bool)
    ensures UnpackBits([if on then 1 else 0], 1) == [on]
  {
    assert (1 as Byte) & Mask(0) != 0 && (0 as Byte) & Mask(0) == 0;
  }

  /** Function 0x06 does what 0x10 does with a count of one, error cases included. */
  lemma SingleRegIsMultiOfOne(b: Banks, a1: Byte, a0: Byte, v1: Byte, v0: Byte)
    ensures
      var (s, rs) := WriteSingleReg(b, [a1, a0, v1, v0]);
      var (m, rm) := WriteMultiRegs(b, [a1, a0, 0, 1, 2, v1, v0]);
      && s == m
      && (rs.Exception? ==> rm == rs)
      && (rs.Normal? ==> rm.Normal?)
  {
    hide Word, Num, ByteOf, Index;
    SmallNumbers();
    var pdu: Frame := [a1, a0, 0, 1, 2, v1, v0];
    assert BytesRegs(pdu[5..]) == [Word(v1, v0)];
    var addr := Index(a1, a0);
    if addr < |b.holding| {
      assert Overwrite(b.holding, addr, [Word(v1, v0)]) == b.holding[addr := Word(v1, v0)];
    }
  }

  /** Function 0x05 with 0xFF00 or 0x0000 does what 0x0F does with a count of one. */
  lemma SingleCoilIsMultiOfOne(b: Banks, a1: Byte, a0: Byte, on: bool)
    ensures
      var (s, rs) := WriteSingleCoil(b, [a1, a0, if on then 0xFF else 0, 0]);
      var (m, rm) := WriteMultiCoils(b, [a1, a0, 0, 1, 1, if on then 1 else 0]);
      && s == m
      && (rs.Exception? ==> rm == rs)
      && (rs.Normal? ==> rm.Normal?)
  {
    hide Word, Num, ByteOf, Index, UnpackBits;
    CoilWords();
    SmallNumbers();
    OneCoil(on);
    var pdu: Frame := [a1, a0, 0, 1, 1, if on then 1 else 0];
    assert pdu[5..] == [if on then 1 else 0];
    var addr := Index(a1, a0);
    if addr < |b.coils| {
      assert Overwrite(b.coils, addr, [on]) == b.coils[addr := on];
    }
  }
}
