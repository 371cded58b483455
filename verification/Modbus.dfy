/** The Modbus RTU slave as a function: what one request frame does to the device
    and what comes back. */
module Modbus {
  import opened Basics
  import opened Crc
  import opened BitPacking

  const ILLEGAL_FUNCTION: Byte := 1
  const ILLEGAL_DATA_ADDRESS: Byte := 2
  const ILLEGAL_DATA_VALUE: Byte := 3

  datatype Banks = Banks(holding: seq<bv16>, input: seq<bv16>, coils: seq<bool>, discrete: seq<bool>)

  datatype Device = Device(
    address: Byte,
    banks: Banks,
    slaveId: Frame,
    dropNext: nat,
    forced: Option<Byte>)

  /** A response body: what goes between the function code and the checksum. */
  datatype Response = Normal(data: Frame) | Exception(code: Byte)

  // ----- reads

  function ReadRegs(bank: seq<bv16>, pdu: Frame): Response {
    if |pdu| != 4 then Exception(ILLEGAL_DATA_VALUE) else
    var start, count := Index(pdu[0], pdu[1]), Index(pdu[2], pdu[3]);
    if count == 0 || count > 125 then Exception(ILLEGAL_DATA_VALUE)
    else if start + count > |bank| then Exception(ILLEGAL_DATA_ADDRESS)
    else Normal([ByteOf(2 * count)] + RegBytes(bank[start..start + count]))
  }

  function ReadBits(bank: seq<bool>, pdu: Frame): Response {
    if |pdu| != 4 then Exception(ILLEGAL_DATA_VALUE) else
    var start, count := Index(pdu[0], pdu[1]), Index(pdu[2], pdu[3]);
    if count == 0 || count > 2000 then Exception(ILLEGAL_DATA_VALUE)
    else if start + count > |bank| then Exception(ILLEGAL_DATA_ADDRESS)
    else Normal([ByteOf(Room(count))] + PackBits(bank[start..start + count]))
  }

  // ----- writes

  /** `bank` with `values` written from `start` on. */
  function Overwrite<T>(bank: seq<T>, start: nat, values: seq<T>): seq<T>
    requires start + |values| <= |bank|
  {
    bank[..start] + values + bank[start + |values|..]
  }

  lemma OverwriteNext<T>(bank: seq<T>, start: nat, values: seq<T>, v: T)
    requires start + |values| < |bank|
    ensures Overwrite(bank, start, values)[start + |values| := v] == Overwrite(bank, start, values + [v])
  {}

  function WriteSingleReg(b: Banks, pdu: Frame): (Banks, Response) {
    if |pdu| != 4 then (b, Exception(ILLEGAL_DATA_VALUE)) else
    var addr, val := Index(pdu[0], pdu[1]), Word(pdu[2], pdu[3]);
    if addr >= |b.holding| then (b, Exception(ILLEGAL_DATA_ADDRESS))
    else (b.(holding := b.holding[addr := val]), Normal(pdu))
  }

  function WriteSingleCoil(b: Banks, pdu: Frame): (Banks, Response) {
    if |pdu| != 4 then (b, Exception(ILLEGAL_DATA_VALUE)) else
    var addr, val := Index(pdu[0], pdu[1]), Word(pdu[2], pdu[3]);
    if val != 0 && val != 0xFF00 then (b, Exception(ILLEGAL_DATA_VALUE))
    else if addr >= |b.coils| then (b, Exception(ILLEGAL_DATA_ADDRESS))
    else (b.(coils := b.coils[addr := val == 0xFF00]), Normal(pdu))
  }

  function WriteMultiRegs(b: Banks, pdu: Frame): (Banks, Response) {
    if |pdu| < 5 then (b, Exception(ILLEGAL_DATA_VALUE)) else
    var start, count := Index(pdu[0], pdu[1]), Index(pdu[2], pdu[3]);
    var bytes := Num(pdu[4]);
    if count == 0 || count > 123 || bytes != 2 * count || |pdu| != 5 + bytes then
      (b, Exception(ILLEGAL_DATA_VALUE))
    else if start + count > |b.holding| then (b, Exception(ILLEGAL_DATA_ADDRESS))
    else (b.(holding := Overwrite(b.holding, start, BytesRegs(pdu[5..]))), Normal(pdu[..4]))
  }

  function WriteMultiCoils(b: Banks, pdu: Frame): (Banks, Response) {
    if |pdu| < 5 then (b, Exception(ILLEGAL_DATA_VALUE)) else
    var start, count := Index(pdu[0], pdu[1]), Index(pdu[2], pdu[3]);
    var bytes := Num(pdu[4]);
    if count == 0 || count > 1968 || bytes != Room(count) || |pdu| != 5 + bytes then
      (b, Exception(ILLEGAL_DATA_VALUE))
    else if start + count > |b.coils| then (b, Exception(ILLEGAL_DATA_ADDRESS))
    else (b.(coils := Overwrite(b.coils, start, UnpackBits(pdu[5..], count))), Normal(pdu[..4]))
  }

  // ----- whole frames

  function Dispatch(d: Device, fc: Byte, pdu: Frame): (Banks, Response) {
    if fc == 0x01 then (d.banks, ReadBits(d.banks.coils, pdu))
    else if fc == 0x02 then (d.banks, ReadBits(d.banks.discrete, pdu))
    else if fc == 0x03 then (d.banks, ReadRegs(d.banks.holding, pdu))
    else if fc == 0x04 then (d.banks, ReadRegs(d.banks.input, pdu))
    else if fc == 0x05 then WriteSingleCoil(d.banks, pdu)
    else if fc == 0x06 then WriteSingleReg(d.banks, pdu)
    else if fc == 0x0F then WriteMultiCoils(d.banks, pdu)
    else if fc == 0x10 then WriteMultiRegs(d.banks, pdu)
    else if fc == 0x11 then (d.banks, Normal([ByteOf(|d.slaveId| % 256)] + d.slaveId))
    else (d.banks, Exception(ILLEGAL_FUNCTION))
  }

  function Body(address: Byte, fc: Byte, r: Response): Frame {
    match r
    case Normal(data) => [address, fc] + data
    case Exception(code) => [address, fc | 0x80, code]
  }

  function HandleFrame(d: Device, req: Frame): (Device, Option<Frame>) {
    if d.dropNext > 0 then (d.(dropNext := d.dropNext - 1), None)
    else if |req| < 4 || !CrcOk(req) || req[0] != d.address then (d, None)
    else
      var fc, pdu := req[1], req[2..|req| - 2];
      var (banks, r) := match d.forced
        case Some(code) => (d.banks, Exception(code))
        case None => Dispatch(d, fc, pdu);
      (d.(banks := banks), Some(Sealed(Body(d.address, fc, r))))
  }

  /** The master's `request`: address, function code and data, sealed. */
  function Request(address: Byte, pdu: Frame): Frame { Sealed([address] + pdu) }
}
