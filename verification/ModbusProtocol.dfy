/** What travels on the wire, function by function: which requests are refused with
    which code, what the others show, and what they change. */
module ModbusProtocol {
  import opened Basics
  import opened Crc
  import opened BitPacking
  import opened Modbus
  import T = ModbusTheorems

  // ----- the terms of the standard

  /** Addresses, counts and values travel high byte first. */
  lemma BigEndian(hi: Byte, lo: Byte)
    ensures Index(hi, lo) == Word(hi, lo) as nat
    ensures Word(hi, lo) >> 8 == hi as bv16 && Word(hi, lo) & 0xFF == lo as bv16
    ensures Num(lo) == lo as nat
  {}

  predicate Known(fc: Byte) {
    fc == 0x01 || fc == 0x02 || fc == 0x03 || fc == 0x04 || fc == 0x05 || fc == 0x06 || fc == 0x0F || fc == 0x10 ||
    fc == 0x11
  }

  /** The data has its function's length and legal counts and values. */
  predicate WellFormed(fc: Byte, pdu: Frame) {
    if fc == 0x11 then true
    else if fc == 0x0F || fc == 0x10 then
      && |pdu| >= 5 && 1 <= Index(pdu[2], pdu[3]) <= (if fc == 0x10 then 123 else 1968)
      && Num(pdu[4]) == (if fc == 0x10 then 2 * Index(pdu[2], pdu[3]) else (Index(pdu[2], pdu[3]) + 7) / 8)
      && |pdu| == 5 + Num(pdu[4])
    else
      && |pdu| == 4
      && (fc == 0x01 || fc == 0x02 ==> 1 <= Index(pdu[2], pdu[3]) <= 2000)
      && (fc == 0x03 || fc == 0x04 ==> 1 <= Index(pdu[2], pdu[3]) <= 125)
      && (fc == 0x05 ==> pdu[3] == 0 && (pdu[2] == 0 || pdu[2] == 0xFF))
  }

  /** How large the bank is that the function works on. */
  function BankSize(b: Banks, fc: Byte): nat {
    if fc == 0x01 || fc == 0x05 || fc == 0x0F then |b.coils|
    else if fc == 0x02 then |b.discrete|
    else if fc == 0x04 then |b.input|
    else |b.holding|
  }

  /** The addressed range lies inside that bank. */
  predicate Inside(b: Banks, fc: Byte, pdu: Frame) {
    fc == 0x11 ||
    (|pdu| >= 4 &&
     Index(pdu[0], pdu[1]) + (if fc == 0x05 || fc == 0x06 then 1 else Index(pdu[2], pdu[3])) <= BankSize(b, fc))
  }

  // ----- silence

  /** The slave is silent exactly while it drops, and for frames that are too short,
      damaged or for someone else; then nothing changes but the drop count. */
  lemma SilentIff(d: Device, req: Frame)
    ensures
      var (d', reply) := HandleFrame(d, req);
      && (reply.None? <==> d.dropNext > 0 || |req| < 4 || !CrcOk(req) || req[0] != d.address)
      && (reply.None? ==> d' == d.(dropNext := if d.dropNext > 0 then d.dropNext - 1 else 0))
      && (reply.Some? ==> d' == d.(banks := d'.banks))
  {
    hide CrcOk, Dispatch, Sealed;
  }

  // ----- exceptions

  predicate Heard(d: Device, req: Frame) { d.dropNext == 0 && |req| >= 4 && CrcOk(req) && req[0] == d.address }

  /** The whole exception table. A request that is heard is refused with the injected
      code if there is one; else with 1 for an unknown function, with 3 for ill-formed
      data, with 2 for a range outside the bank, in this order; the refusal is the
      function code with its high bit set and the code, and nothing changes. All others
      are carried out: their reply repeats the function code. */
  lemma ExceptionTable(d: Device, req: Frame)
    requires Heard(d, req)
    ensures
      var (d', reply) := HandleFrame(d, req);
      var fc, pdu := req[1], req[2..|req| - 2];
      && (d.forced.Some? ==> d' == d && reply == Some(Sealed([d.address, fc | 0x80, d.forced.value])))
      && (d.forced.None? && !Known(fc) ==> d' == d && reply == Some(Sealed([d.address, fc | 0x80, 1])))
      && (d.forced.None? && Known(fc) && !WellFormed(fc, pdu) ==>
            d' == d && reply == Some(Sealed([d.address, fc | 0x80, 3])))
      && (d.forced.None? && Known(fc) && WellFormed(fc, pdu) && !Inside(d.banks, fc, pdu) ==>
            d' == d && reply == Some(Sealed([d.address, fc | 0x80, 2])))
      && (d.forced.None? && Known(fc) && WellFormed(fc, pdu) && Inside(d.banks, fc, pdu) ==>
            reply.Some? && |reply.value| >= 5 && reply.value[0] == d.address && reply.value[1] == fc)
  {
    hide CrcOk, Dispatch, Sealed, Known, WellFormed, Inside;
    var fc, pdu := req[1], req[2..|req| - 2];
    DispatchTable(d, fc, pdu);
    BodySealed(d.address, fc, Dispatch(d, fc, pdu).1);
  }

  lemma BodySealed(address: Byte, fc: Byte, r: Response)
    ensures r.Normal? ==> var f := Sealed(Body(address, fc, r)); |f| >= 4 && f[0] == address && f[1] == fc
    ensures r.Normal? && r.data != [] ==> |Sealed(Body(address, fc, r))| >= 5
  {
    hide LowByte, HighByte, Run;
  }

  lemma DispatchTable(d: Device, fc: Byte, pdu: Frame)
    ensures
      var (b, r) := Dispatch(d, fc, pdu);
      && (!Known(fc) ==> b == d.banks && r == Exception(1))
      && (Known(fc) && !WellFormed(fc, pdu) ==> b == d.banks && r == Exception(3))
      && (Known(fc) && WellFormed(fc, pdu) && !Inside(d.banks, fc, pdu) ==> b == d.banks && r == Exception(2))
      && (Known(fc) && WellFormed(fc, pdu) && Inside(d.banks, fc, pdu) ==> r.Normal? && r.data != [])
  {
    hide Index, Word, Num, ByteOf, RegBytes, PackBits, BytesRegs, UnpackBits, Overwrite;
    if |pdu| >= 4 {
      CoilValue(pdu[2], pdu[3]);
    }
  }

  lemma CoilValue(hi: Byte, lo: Byte)
    ensures Word(hi, lo) == 0 || Word(hi, lo) == 0xFF00 <==> lo == 0 && (hi == 0 || hi == 0xFF)
  {}

  // ----- reads

  /** Functions 0x01 and 0x02, on the wire: a legal range inside the bank comes back bit
      for bit, low bit of the first byte first, padding clear, and nothing changes. */
  lemma BitsOnWire(d: Device, fc: Byte, at: Frame)
    requires T.Healthy(d) && (fc == 0x01 || fc == 0x02) && |at| == 4
    requires WellFormed(fc, at) && Inside(d.banks, fc, at)
    ensures
      var bank := if fc == 0x01 then d.banks.coils else d.banks.discrete;
      var start, count := Index(at[0], at[1]), Index(at[2], at[3]);
      var (d', reply) := HandleFrame(d, Request(d.address, [fc] + at));
      && d' == d && reply.Some? && |reply.value| == 5 + (count + 7) / 8
      && var bytes := reply.value[3..|reply.value| - 2];
      && reply == Some(Sealed([d.address, fc, reply.value[2]] + bytes))
      && |bytes| == (count + 7) / 8 && reply.value[2] == ByteOf(|bytes|)
      && forall i | 0 <= i < 8 * |bytes| :: BitAt(bytes, i) <==> i < count && bank[start + i]
  {
    hide HandleFrame, Request, ReadBits, Index, BitAt, ByteOf;
    T.RequestAsPdu(d, fc, at);
    var bank := if fc == 0x01 then d.banks.coils else d.banks.discrete;
    T.ReadBitsShowsBank(bank, at);
    var data := ReadBits(bank, at).data;
    OneLengthByte(d.address, fc, data);
  }

  /** A normal reply with its length byte: where its parts are. */
  lemma OneLengthByte(address: Byte, fc: Byte, data: Frame)
    requires data != []
    ensures
      var f := Sealed(Body(address, fc, Normal(data)));
      && |f| == 4 + |data| && f[2] == data[0] && f[3..|f| - 2] == data[1..]
      && f == Sealed([address, fc, data[0]] + data[1..])
  {
    hide LowByte, HighByte, Run;
    var f := Sealed(Body(address, fc, Normal(data)));
    assert [address, fc, data[0]] + data[1..] == [address, fc] + data;
    assert f[..2 + |data|] == [address, fc] + data;
    assert f[3..|f| - 2] == ([address, fc] + data)[3..] == data[1..];
  }

  /** Functions 0x03 and 0x04, on the wire: the registers of the range, high byte first. */
  lemma RegsOnWire(d: Device, fc: Byte, at: Frame)
    requires T.Healthy(d) && (fc == 0x03 || fc == 0x04) && |at| == 4
    requires WellFormed(fc, at) && Inside(d.banks, fc, at)
    ensures
      var bank := if fc == 0x03 then d.banks.holding else d.banks.input;
      var start, count := Index(at[0], at[1]), Index(at[2], at[3]);
      var (d', reply) := HandleFrame(d, Request(d.address, [fc] + at));
      && d' == d && reply.Some? && |reply.value| == 5 + 2 * count
      && var bytes := reply.value[3..|reply.value| - 2];
      && reply == Some(Sealed([d.address, fc, reply.value[2]] + bytes))
      && |bytes| == 2 * count && reply.value[2] == ByteOf(|bytes|)
      && forall i | 0 <= i < count :: Word(bytes[2 * i], bytes[2 * i + 1]) == bank[start + i]
  {
    hide HandleFrame, Request, ReadRegs, Index, Word, ByteOf;
    T.RequestAsPdu(d, fc, at);
    var bank := if fc == 0x03 then d.banks.holding else d.banks.input;
    T.ReadRegsShowsBank(bank, at);
    var data := ReadRegs(bank, at).data;
    OneLengthByte(d.address, fc, data);
    forall i | 0 <= i < Index(at[2], at[3])
      ensures Word(data[1..][2 * i], data[1..][2 * i + 1]) == bank[Index(at[0], at[1]) + i]
    {
      assert Word(data[1 + 2 * i], data[2 + 2 * i]) == bank[Index(at[0], at[1]) + i];
    }
  }

  // ----- single writes

  /** Function 0x05, on the wire: exactly that coil becomes set by 0xFF00 and clear by
      0x0000, and the request comes back. */
  lemma CoilOnWire(d: Device, a1: Byte, a0: Byte, on: bool)
    requires T.Healthy(d) && Index(a1, a0) < |d.banks.coils|
    ensures
      var f := Request(d.address, [0x05, a1, a0, if on then 0xFF else 0, 0]);
      HandleFrame(d, f) == (d.(banks := d.banks.(coils := d.banks.coils[Index(a1, a0) := on])), Some(f))
  {
    hide HandleFrame, Index, Word;
    var pdu: Frame := [a1, a0, if on then 0xFF else 0, 0];
    T.CoilWords();
    T.RequestAsPdu(d, 0x05, pdu);
    assert [0x05 as Byte] + pdu == [0x05, a1, a0, if on then 0xFF else 0, 0];
    Echoed(d.address, 0x05, pdu);
  }

  lemma Echoed(address: Byte, fc: Byte, pdu: Frame)
    ensures Sealed(Body(address, fc, Normal(pdu))) == Request(address, [fc] + pdu)
  {
    hide Sealed;
    assert [address, fc] + pdu == [address] + ([fc] + pdu);
  }

  /** Function 0x06, on the wire: exactly that register takes that value. */
  lemma RegOnWire(d: Device, a1: Byte, a0: Byte, v1: Byte, v0: Byte)
    requires T.Healthy(d) && Index(a1, a0) < |d.banks.holding|
    ensures
      var f := Request(d.address, [0x06, a1, a0, v1, v0]);
      HandleFrame(d, f) ==
      (d.(banks := d.banks.(holding := d.banks.holding[Index(a1, a0) := Word(v1, v0)])), Some(f))
  {
    hide HandleFrame, Index, Word;
    var pdu: Frame := [a1, a0, v1, v0];
    T.RequestAsPdu(d, 0x06, pdu);
    assert [0x06 as Byte] + pdu == [0x06, a1, a0, v1, v0];
    Echoed(d.address, 0x06, pdu);
  }
}
