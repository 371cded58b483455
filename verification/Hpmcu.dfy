/** The HPMCU watchdog firmware: one turn of its poll loop as a function of what
    it reads, and the object that runs it against a shared bus. */
module Hpmcu {
  import opened Basics
  import opened SimBus

  const OFF_MAGIC := 0x00
  const OFF_COUNTER := 0x04
  const OFF_STATE := 0x08
  const OFF_SEEN := 0x0c
  const OFF_CYC := 0x10

  const MAGIC_ARMED: U32 := 0x5741_5244
  const MAGIC_DISARM: U32 := 0x4449_5341

  const STATE_BOOT: U32 := 0xB007_0000
  const STATE_ARMED: U32 := 0xA07D_0000
  const STATE_DISARMED: U32 := 0xD15A_0000
  const STATE_FIRED: U32 := 0xF17E_0000

  const HEARTBEAT_TIMEOUT_S := 90
  const BOOT_GRACE_S := 300

  datatype Mcu = Mcu(
    t0: nat,
    lastChange: nat,
    lastSeen: U32,
    polls: U32,
    armedEver: bool,
    fired: bool,
    fireCount: nat)

  function New(start: nat): Mcu { Mcu(start, start, 0, 0, false, false, 0) }

  function SaturatingSub(a: nat, b: nat): nat { if a < b then 0 else a - b }

  function Fire(m: Mcu): Mcu { m.(fired := true, fireCount := m.fireCount + 1) }

  /** One tick at `now`, having read these two Linux-owned words. */
  function Poll(m: Mcu, now: nat, magic: U32, counter: U32): Mcu {
    if m.fired then m
    else
      var m1 := m.(polls := (m.polls + 1) % WRAP);
      if magic == MAGIC_DISARM then m1.(t0 := now, lastChange := now)
      else if magic == MAGIC_ARMED then
        var m2 := m1.(armedEver := true);
        var m3 := if counter != m2.lastSeen then m2.(lastSeen := counter, lastChange := now) else m2;
        if SaturatingSub(now, m3.lastChange) > HEARTBEAT_TIMEOUT_S then Fire(m3) else m3
      else
        var m2 := if !m1.armedEver && SaturatingSub(now, m1.t0) > BOOT_GRACE_S then Fire(m1) else m1;
        if m2.armedEver && SaturatingSub(now, m2.lastChange) > HEARTBEAT_TIMEOUT_S then Fire(m2) else m2
  }

  /** The words after that tick. The low half of the state word counts polls. */
  function TickWords(m: Mcu, w: Words, base: nat, now: nat): Words {
    if m.fired then w
    else
      var magic, counter := Read(w, base + OFF_MAGIC), Read(w, base + OFF_COUNTER);
      var m' := Poll(m, now, magic, counter);
      var low := m'.polls % 0x1_0000;
      var w1 := w[base + OFF_CYC := now % WRAP];
      var w2 := if magic == MAGIC_ARMED && counter != m.lastSeen then w1[base + OFF_SEEN := counter] else w1;
      var w3 := w2[base + OFF_STATE :=
        if magic == MAGIC_DISARM then STATE_DISARMED + low
        else if magic == MAGIC_ARMED then STATE_ARMED + low
        else STATE_BOOT + low];
      if m'.fired then w3[base + OFF_STATE := STATE_FIRED] else w3
  }

  /** The sentinel half of the state word. */
  function Sentinel(w: Words, base: nat): int {
    Read(w, base + OFF_STATE) - Read(w, base + OFF_STATE) % 0x1_0000
  }

  /** `base` leaves room for the mailbox in a 64-bit address space. */
  predicate ValidBase(base: nat) { base % 4 == 0 && base + OFF_CYC < 0x1_0000_0000_0000_0000 }

  class HpmcuSim {
    const bus: Bus
    const base: nat
    var t0: nat
    var lastChange: nat
    var lastSeen: U32
    var polls: U32
    var armedEver: bool
    var fired: bool
    var fireCount: nat

    ghost function Model(): Mcu
      reads this
    {
      Mcu(t0, lastChange, lastSeen, polls, armedEver, fired, fireCount)
    }

    constructor (bus: Bus, base: nat, start: nat)
      requires ValidBase(base)
      modifies bus
      ensures this.bus == bus && this.base == base && Model() == New(start)
      ensures bus.words == old(bus.words)[base + OFF_STATE := STATE_BOOT][base + OFF_SEEN := 0]
    {
      this.bus := bus;
      this.base := base;
      t0, lastChange, lastSeen, polls := start, start, 0, 0;
      armedEver, fired, fireCount := false, false, 0;
      new;
      bus.Poke32(base + OFF_STATE, STATE_BOOT);
      bus.Poke32(base + OFF_SEEN, 0);
    }

    method RecordFire()
      modifies this, bus
      ensures Model() == Fire(old(Model()))
      ensures bus.words == old(bus.words)[base + OFF_STATE := STATE_FIRED]
    {
      bus.Poke32(base + OFF_STATE, STATE_FIRED);
      fired := true;
      fireCount := fireCount + 1;
    }

    method Tick(now: nat)
      modifies this, bus
      ensures Model() == Poll(old(Model()), now, old(bus.Peek32(base + OFF_MAGIC)), old(bus.Peek32(base + OFF_COUNTER)))
      ensures bus.words == TickWords(old(Model()), old(bus.words), base, now)
    {
      if fired {
        return;
      }
      polls := (polls + 1) % WRAP;
      bus.Poke32(base + OFF_CYC, now % WRAP);
      var magic := bus.Peek32(base + OFF_MAGIC);
      var counter := bus.Peek32(base + OFF_COUNTER);
      var pollLow := polls % 0x1_0000;
      if magic == MAGIC_DISARM {
        bus.Poke32(base + OFF_STATE, STATE_DISARMED + pollLow);
        t0 := now;
        lastChange := now;
      } else if magic == MAGIC_ARMED {
        armedEver := true;
        if counter != lastSeen {
          lastSeen := counter;
          bus.Poke32(base + OFF_SEEN, counter);
          lastChange := now;
        }
        bus.Poke32(base + OFF_STATE, STATE_ARMED + pollLow);
        if SaturatingSub(now, lastChange) > HEARTBEAT_TIMEOUT_S {
          RecordFire();
        }
      } else {
        bus.Poke32(base + OFF_STATE, STATE_BOOT + pollLow);
        if !armedEver && SaturatingSub(now, t0) > BOOT_GRACE_S {
          RecordFire();
        }
        if armedEver && SaturatingSub(now, lastChange) > HEARTBEAT_TIMEOUT_S {
          RecordFire();
        }
      }
    }
  }

  /** The MCU writes only its own three words, and they say what it did: the state word
      the outcome and the low half of the poll count, the others the time and the
      counter last seen. A fired MCU writes nothing. */
  lemma TickWritesOwnWords(m: Mcu, w: Words, base: nat, now: nat)
    ensures
      var w' := TickWords(m, w, base, now);
      var magic, counter := Read(w, base + OFF_MAGIC), Read(w, base + OFF_COUNTER);
      var m' := Poll(m, now, magic, counter);
      && (forall a: nat | a != base + OFF_STATE && a != base + OFF_SEEN && a != base + OFF_CYC ::
            Read(w', a) == Read(w, a) && (a in w' <==> a in w))
      && (m.fired ==> w' == w && m' == m)
      && (!m.fired ==>
            && (m'.fired <==> Sentinel(w', base) == STATE_FIRED)
            && (!m'.fired ==> Sentinel(w', base) == if magic == MAGIC_DISARM then STATE_DISARMED
                                                    else if magic == MAGIC_ARMED then STATE_ARMED else STATE_BOOT)
            && Read(w', base + OFF_CYC) == now % 0x1_0000_0000
            && Read(w', base + OFF_SEEN) == (if magic == MAGIC_ARMED && counter != m.lastSeen then counter
                                            else Read(w, base + OFF_SEEN))
            && m'.polls == (m.polls + 1) % 0x1_0000_0000
            && (m'.fired ==> Read(w', base + OFF_STATE) == 0xF17E_0000)
            && (!m'.fired ==> Read(w', base + OFF_STATE) % 0x1_0000 == m'.polls % 0x1_0000))
  {}
}
