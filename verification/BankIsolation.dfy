/** The four banks of the slave do not leak into one another, over whole runs. */
module BankIsolation {
  import opened Basics
  import opened Crc
  import opened BitPacking
  import opened Modbus

  datatype Bank = Coils | Discrete | Holding | Input

  /** The functions that read or write a bank. */
  predicate Serves(k: Bank, req: Frame) {
    |req| > 1 &&
    match k
    case Coils => req[1] == 0x01 || req[1] == 0x05 || req[1] == 0x0F
    case Discrete => req[1] == 0x02
    case Holding => req[1] == 0x03 || req[1] == 0x06 || req[1] == 0x10
    case Input => req[1] == 0x04
  }

  predicate SameBank(k: Bank, a: Banks, b: Banks) {
    match k
    case Coils => a.coils == b.coils
    case Discrete => a.discrete == b.discrete
    case Holding => a.holding == b.holding
    case Input => a.input == b.input
  }

  /** Two devices alike in address, faults and one bank; the rest may differ. */
  predicate Alike(k: Bank, d: Device, e: Device) {
    d.address == e.address && d.dropNext == e.dropNext && d.forced == e.forced && SameBank(k, d.banks, e.banks)
  }

  lemma DispatchIsolated(k: Bank, d: Device, e: Device, fc: Byte, pdu: Frame)
    requires SameBank(k, d.banks, e.banks)
    ensures SameBank(k, Dispatch(d, fc, pdu).0, Dispatch(e, fc, pdu).0)
    ensures Serves(k, [0, fc]) ==> Dispatch(d, fc, pdu).1 == Dispatch(e, fc, pdu).1
  {
    hide Word, Num, ByteOf, Index, RegBytes, PackBits, BytesRegs, UnpackBits, Overwrite;
    match k
    case Coils => {}
    case Discrete => {}
    case Holding => {}
    case Input => {}
  }

  lemma FrameIsolated(k: Bank, d: Device, e: Device, req: Frame)
    requires Alike(k, d, e)
    ensures Alike(k, HandleFrame(d, req).0, HandleFrame(e, req).0)
    ensures Serves(k, req) ==> HandleFrame(d, req).1 == HandleFrame(e, req).1
  {
    hide CrcOk, Dispatch, Sealed, Body, SameBank;
    if |req| >= 4 {
      DispatchIsolated(k, d, e, req[1], req[2..|req| - 2]);
    }
  }

  function Replies(d: Device, reqs: seq<Frame>): (r: seq<Option<Frame>>)
    ensures |r| == |reqs|
    decreases |reqs|
  {
    if reqs == [] then []
    else
      var (d', reply) := HandleFrame(d, reqs[0]);
      [reply] + Replies(d', reqs[1..])
  }

  /** Whatever sequence of frames two such devices receive, they give the same answer
      to every frame that concerns the bank they share: its contents depend on no
      other bank, and no answer about it shows anything of another bank. */
  lemma {:induction false} BanksIsolated(k: Bank, d: Device, e: Device, reqs: seq<Frame>)
    requires Alike(k, d, e)
    ensures forall i | 0 <= i < |reqs| && Serves(k, reqs[i]) :: Replies(d, reqs)[i] == Replies(e, reqs)[i]
    decreases |reqs|
  {
    hide HandleFrame, Serves, Alike;
    if reqs != [] {
      var d1, e1 := HandleFrame(d, reqs[0]).0, HandleFrame(e, reqs[0]).0;
      FrameIsolated(k, d, e, reqs[0]);
      BanksIsolated(k, d1, e1, reqs[1..]);
      forall i | 0 <= i < |reqs| && Serves(k, reqs[i]) ensures Replies(d, reqs)[i] == Replies(e, reqs)[i] {
        if i > 0 {
          assert reqs[i] == reqs[1..][i - 1];
          assert Replies(d, reqs)[i] == Replies(d1, reqs[1..])[i - 1];
          assert Replies(e, reqs)[i] == Replies(e1, reqs[1..])[i - 1];
        }
      }
    }
  }
}
