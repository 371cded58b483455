/** The slave as the object that updates its banks in place, proved to do what
    `Modbus` says. */
module ModbusDevice {
  import opened Basics
  import opened Crc
  import opened BitPacking
  import M = Modbus

  class ModbusSlave {
    const address: Byte
    var holding: seq<bv16>
    var input: seq<bv16>
    var coils: seq<bool>
    var discrete: seq<bool>
    var slaveId: Frame
    var dropNext: nat
    var forced: Option<Byte>

    ghost function Contents(): M.Banks
      reads this
    {
      M.Banks(holding, input, coils, discrete)
    }

    ghost function Model(): M.Device
      reads this
    {
      M.Device(address, Contents(), slaveId, dropNext, forced)
    }

    constructor (address: Byte, regs: nat, bits: nat)
      ensures Model() == M.Device(address,
                                M.Banks(seq(regs, i => 0), seq(regs, i => 0), seq(bits, i => false), seq(bits, i => false)),
                                [0xFF, 0xFF], 0, None)
    {
      this.address := address;
      holding := seq(regs, i => 0);
      input := seq(regs, i => 0);
      coils := seq(bits, i => false);
      discrete := seq(bits, i => false);
      slaveId := [0xFF, 0xFF];
      dropNext := 0;
      forced := None;
    }

    method HandleFrame(req: Frame) returns (reply: Option<Frame>)
      modifies this
      ensures (Model(), reply) == M.HandleFrame(old(Model()), req)
    {
      hide CrcOk, Sealed, M.Dispatch;
      if dropNext > 0 {
        dropNext := dropNext - 1;
        return None;
      }
      var ok := CheckCrc(req);
      if |req| < 4 || !ok {
        return None;
      }
      var addr := req[0];
      if addr != address {
        return None;
      }
      var fc := req[1];
      var pdu := req[2..|req| - 2];
      var body: M.Response;
      if forced.Some? {
        body := M.Exception(forced.value);
      } else {
        body := Dispatch(fc, pdu);
      }
      var frame := [address];
      match body {
        case Normal(data) =>
          frame := frame + [fc];
          frame := frame + data;
        case Exception(code) =>
          frame := frame + [fc | 0x80];
          frame := frame + [code];
      }
      assert frame == M.Body(address, fc, body);
      frame := AppendCrc(frame);
      reply := Some(frame);
    }

    method Dispatch(fc: Byte, pdu: Frame) returns (r: M.Response)
      modifies this
      ensures slaveId == old(slaveId) && dropNext == old(dropNext) && forced == old(forced)
      ensures (Contents(), r) == M.Dispatch(old(Model()), fc, pdu)
    {
      if fc == 0x01 {
        r := ReadBits(pdu, false);
      } else if fc == 0x02 {
        r := ReadBits(pdu, true);
      } else if fc == 0x03 {
        r := ReadRegs(pdu, false);
      } else if fc == 0x04 {
        r := ReadRegs(pdu, true);
      } else if fc == 0x05 {
        r := WriteSingleCoil(pdu);
      } else if fc == 0x06 {
        r := WriteSingleReg(pdu);
      } else if fc == 0x0F {
        r := WriteMultiCoils(pdu);
      } else if fc == 0x10 {
        r := WriteMultiRegs(pdu);
      } else if fc == 0x11 {
        r := M.Normal([ByteOf(|slaveId| % 256)] + slaveId);
      } else {
        r := M.Exception(M.ILLEGAL_FUNCTION);
      }
    }

    method ReadRegs(pdu: Frame, inputBank: bool) returns (r: M.Response)
      ensures r == M.ReadRegs(if inputBank then input else holding, pdu)
    {
      hide Num, ByteOf, Word, Index, RegBytes, HighByte, LowByte;
      if |pdu| != 4 {
        return M.Exception(M.ILLEGAL_DATA_VALUE);
      }
      var start, count := Index(pdu[0], pdu[1]), Index(pdu[2], pdu[3]);
      if count == 0 || count > 125 {
        return M.Exception(M.ILLEGAL_DATA_VALUE);
      }
      var bank := if inputBank then input else holding;
      if start + count > |bank| {
        return M.Exception(M.ILLEGAL_DATA_ADDRESS);
      }
      var size := ByteOf(2 * count);
      var out: Frame := [size];
      var slice := bank[start..start + count];
      RegBytesEmpty(slice);
      for i := 0 to count
        invariant out == [size] + RegBytes(slice[..i])
      {
        RegBytesSnoc(slice[..i], slice[i]);
        assert slice[..i] + [slice[i]] == slice[..i + 1];
        out := out + [HighByte(slice[i]), LowByte(slice[i])];
      }
      assert slice[..count] == slice;
      r := M.Normal(out);
    }

    method ReadBits(pdu: Frame, discreteBank: bool) returns (r: M.Response)
      ensures r == M.ReadBits(if discreteBank then discrete else coils, pdu)
    {
      hide Num, ByteOf, Word, Index, PackBits;
      if |pdu| != 4 {
        return M.Exception(M.ILLEGAL_DATA_VALUE);
      }
      var start, count := Index(pdu[0], pdu[1]), Index(pdu[2], pdu[3]);
      if count == 0 || count > 2000 {
        return M.Exception(M.ILLEGAL_DATA_VALUE);
      }
      var bank := if discreteBank then discrete else coils;
      if start + count > |bank| {
        return M.Exception(M.ILLEGAL_DATA_ADDRESS);
      }
      var packed := PackInto(bank[start..start + count]);
      r := M.Normal([ByteOf(Room(count))] + packed);
    }

    method WriteSingleReg(pdu: Frame) returns (r: M.Response)
      modifies this`holding
      ensures (Contents(), r) == M.WriteSingleReg(old(Contents()), pdu)
    {
      if |pdu| != 4 {
        return M.Exception(M.ILLEGAL_DATA_VALUE);
      }
      var addr, val := Index(pdu[0], pdu[1]), Word(pdu[2], pdu[3]);
      if addr >= |holding| {
        return M.Exception(M.ILLEGAL_DATA_ADDRESS);
      }
      holding := holding[addr := val];
      r := M.Normal(pdu);
    }

    method WriteSingleCoil(pdu: Frame) returns (r: M.Response)
      modifies this`coils
      ensures (Contents(), r) == M.WriteSingleCoil(old(Contents()), pdu)
    {
      if |pdu| != 4 {
        return M.Exception(M.ILLEGAL_DATA_VALUE);
      }
      var addr, val := Index(pdu[0], pdu[1]), Word(pdu[2], pdu[3]);
      if val != 0 && val != 0xFF00 {
        return M.Exception(M.ILLEGAL_DATA_VALUE);
      }
      if addr >= |coils| {
        return M.Exception(M.ILLEGAL_DATA_ADDRESS);
      }
      coils := coils[addr := val == 0xFF00];
      r := M.Normal(pdu);
    }

    method WriteMultiRegs(pdu: Frame) returns (r: M.Response)
      modifies this`holding
      ensures (Contents(), r) == M.WriteMultiRegs(old(Contents()), pdu)
    {
      hide Num, ByteOf, Word, Index, BytesRegs, M.Overwrite;
      if |pdu| < 5 {
        return M.Exception(M.ILLEGAL_DATA_VALUE);
      }
      var start, count := Index(pdu[0], pdu[1]), Index(pdu[2], pdu[3]);
      var bytecount := Num(pdu[4]);
      if count == 0 || count > 123 || bytecount != count * 2 || |pdu| != 5 + bytecount {
        return M.Exception(M.ILLEGAL_DATA_VALUE);
      }
      if start + count > |holding| {
        return M.Exception(M.ILLEGAL_DATA_ADDRESS);
      }
      StoreRegs(start, count, pdu);
      r := M.Normal(pdu[..4]);
    }

    /** The store loop of `write_multi_regs`. */
    method StoreRegs(start: nat, count: nat, pdu: Frame)
      requires |pdu| == 5 + 2 * count && start + count <= |holding|
      modifies this`holding
      ensures holding == M.Overwrite(old(holding), start, BytesRegs(pdu[5..]))
    {
      hide Word, BytesRegs, M.Overwrite;
      ghost var payload := pdu[5..];
      ghost var values := BytesRegs(payload);
      assert |values| == count by { BytesRegsAt(payload); }
      assert holding == M.Overwrite(holding, start, values[..0]) by { OverwriteNone(holding, start, values[..0]); }
      for i := 0 to count
        invariant holding == M.Overwrite(old(holding), start, values[..i])
      {
        StoreOne(old(holding), start, payload, i);
        assert payload[2 * i] == pdu[5 + i * 2] && payload[2 * i + 1] == pdu[6 + i * 2];
        holding := holding[start + i := Word(pdu[5 + i * 2], pdu[6 + i * 2])];
      }
      assert values[..count] == values;
    }

    method WriteMultiCoils(pdu: Frame) returns (r: M.Response)
      modifies this`coils
      ensures (Contents(), r) == M.WriteMultiCoils(old(Contents()), pdu)
    {
      hide Num, ByteOf, Word, Index, UnpackBits, M.Overwrite;
      if |pdu| < 5 {
        return M.Exception(M.ILLEGAL_DATA_VALUE);
      }
      var start, count := Index(pdu[0], pdu[1]), Index(pdu[2], pdu[3]);
      var bytecount := Num(pdu[4]);
      if count == 0 || count > 1968 || bytecount != Room(count) || |pdu| != 5 + bytecount {
        return M.Exception(M.ILLEGAL_DATA_VALUE);
      }
      if start + count > |coils| {
        return M.Exception(M.ILLEGAL_DATA_ADDRESS);
      }
      StoreCoils(start, count, pdu);
      r := M.Normal(pdu[..4]);
    }

    /** The store loop of `write_multi_coils`. */
    method StoreCoils(start: nat, count: nat, pdu: Frame)
      requires |pdu| == 5 + Room(count) && start + count <= |coils|
      modifies this`coils
      ensures coils == M.Overwrite(old(coils), start, UnpackBits(pdu[5..], count))
    {
      hide BitAt, UnpackBits, Room;
      var payload := pdu[5..];
      ghost var values := UnpackBits(payload, count);
      UnpackAll(payload, count);
      for i := 0 to count
        invariant coils == M.Overwrite(old(coils), start, values[..i])
      {
        M.OverwriteNext(old(coils), start, values[..i], values[i]);
        assert values[..i + 1] == values[..i] + [values[i]];
        InRoom(i, count);
        coils := coils[start + i := BitAt(payload, i)];
      }
      assert values[..count] == values;
    }
  }

  /** The packing loop of `read_bits`: a zeroed buffer, then one bit at a time. */
  method PackInto(bits: seq<bool>) returns (out: Frame)
    ensures out == PackBits(bits)
  {
    hide Mask, OrBits, Or;
    out := seq(Room(|bits|), i => 0);
    forall k | 0 <= k < Room(|bits|) ensures out[k] == OrBits(bits[..0], 8 * k, 8) {
      OrBitsNone(8 * k, 8);
    }
    for i := 0 to |bits|
      invariant |out| == Room(|bits|)
      invariant forall k | 0 <= k < Room(|bits|) :: out[k] == OrBits(bits[..i], 8 * k, 8)
    {
      assert bits[..i + 1] == bits[..i] + [bits[i]];
      forall k | 0 <= k < Room(|bits|)
        ensures OrBits(bits[..i + 1], 8 * k, 8) == if bits[i] && k == i / 8 then Or(out[k], Mask(i % 8)) else out[k]
      {
        OrBitsSnoc(bits[..i], bits[i], 8 * k, 8);
        OrMoves(out[k], 0, 0);
      }
      if bits[i] {
        out := out[i / 8 := Or(out[i / 8], Mask(i % 8))];
      }
    }
    assert bits[..|bits|] == bits;
  }

  lemma BytesRegsAt(b: Frame)
    ensures |BytesRegs(b)| == |b| / 2
    ensures forall i | 0 <= i < |b| / 2 :: BytesRegs(b)[i] == Word(b[2 * i], b[2 * i + 1])
  {
    hide Word;
  }

  lemma OverwriteNone<T>(bank: seq<T>, start: nat, none: seq<T>)
    requires none == [] && start <= |bank|
    ensures M.Overwrite(bank, start, none) == bank
  {}

  /** One turn of the store loop. */
  lemma StoreOne(bank: seq<bv16>, start: nat, payload: Frame, i: nat)
    requires start + |payload| / 2 <= |bank| && i < |payload| / 2
    ensures |BytesRegs(payload)| == |payload| / 2
    ensures
      var values := BytesRegs(payload);
      && |M.Overwrite(bank, start, values[..i])| == |bank|
      && M.Overwrite(bank, start, values[..i])[start + i := Word(payload[2 * i], payload[2 * i + 1])] ==
         M.Overwrite(bank, start, values[..i + 1])
  {
    hide Word, BytesRegs;
    BytesRegsAt(payload);
    var values := BytesRegs(payload);
    assert values[..i + 1] == values[..i] + [values[i]];
    M.OverwriteNext(bank, start, values[..i], values[i]);
  }

  lemma InRoom(i: nat, count: nat)
    requires i < count
    ensures i / 8 < Room(count)
  {}

  lemma UnpackAll(b: Frame, count: nat)
    requires Room(count) <= |b|
    ensures |UnpackBits(b, count)| == count
    ensures forall i | 0 <= i < count :: UnpackBits(b, count)[i] == BitAt(b, i)
  {}

  lemma RegBytesEmpty(s: seq<bv16>)
    ensures RegBytes(s[..0]) == []
  {}

  lemma {:induction false} OrBitsNone(from: nat, n: nat)
    requires n <= 8
    ensures OrBits([], from, n) == 0
  {
    if n > 0 {
      OrBitsNone(from, n - 1);
    }
  }
}
