/** The reset ladder: CRU global reset, DesignWare watchdog backstop and the
    boot-mode register, polled against a shared bus. */
module Cru {
  import opened Basics
  import opened SimBus

  const CRU_GLB_SRST_FST := 0xff3b_0c08
  const CRU_GLB_SRST_MAGIC: U32 := 0xfdb9
  const CRU_WRONG_OFFSET := 0xff3a_0614
  const DW_WDT_CR := 0xff5a_0000
  const DW_WDT_TORR := 0xff5a_0004
  const DW_WDT_CRR := 0xff5a_000c
  const DW_WDT_PET: U32 := 0x76
  const BOOT_MODE_REG := 0xff02_0200
  const BOOT_NORMAL: U32 := 0x5242_c300
  const BOOT_LOADER: U32 := 0x5242_c301
  const BOOT_MASKROM: U32 := 0xef08_a53c

  datatype Cause = ByCru | ByWatchdog
  datatype BootMode = Normal | Loader | Maskrom

  function Decode(v: U32): BootMode {
    if v == BOOT_LOADER then Loader else if v == BOOT_MASKROM then Maskrom else Normal
  }

  datatype Ladder = Ladder(resetCount: nat, lastCause: Option<Cause>, bootMode: BootMode, deadline: Option<nat>)

  function Fresh(): Ladder { Ladder(0, None, Normal, None) }

  function Pow2(n: nat): (p: nat)
    ensures p >= 1
  {
    if n == 0 then 1 else 2 * Pow2(n - 1)
  }

  /** The watchdog timeout selected by TORR. */
  function Timeout(w: Words): (t: nat)
    ensures t >= 1
  {
    Pow2(Read(w, DW_WDT_TORR) % 16)
  }

  predicate Requested(w: Words) { Read(w, CRU_GLB_SRST_FST) == CRU_GLB_SRST_MAGIC }
  predicate Enabled(w: Words) { Read(w, DW_WDT_CR) % 2 == 1 }
  predicate Petted(w: Words) { Read(w, DW_WDT_CRR) == DW_WDT_PET }

  function Fire(s: Ladder, w: Words, cause: Cause): Ladder {
    s.(resetCount := s.resetCount + 1, lastCause := Some(cause), bootMode := Decode(Read(w, BOOT_MODE_REG)))
  }

  function Poll(s: Ladder, w: Words, now: nat): (Ladder, Words, Option<Cause>) {
    if Requested(w) then
      var w1 := w[CRU_GLB_SRST_FST := 0];
      (Fire(s, w1, ByCru), w1, Some(ByCru))
    else if Enabled(w) then
      var w1 := if Petted(w) then w[DW_WDT_CRR := 0] else w;
      var s1 := if Petted(w) || s.deadline.None? then s.(deadline := Some(now + Timeout(w))) else s;
      if now >= s1.deadline.value then (Fire(s1.(deadline := None), w1, ByWatchdog), w1, Some(ByWatchdog))
      else (s1, w1, None)
    else (s.(deadline := None), w, None)
  }

  function PowerOn(s: Ladder, w: Words): (Ladder, Words) {
    (s.(bootMode := Normal, deadline := None), w[BOOT_MODE_REG := BOOT_NORMAL])
  }

  class CruSim {
    const bus: Bus
    var resetCount: nat
    var lastCause: Option<Cause>
    var bootMode: BootMode
    var wdtDeadline: Option<nat>

    ghost function Model(): Ladder
      reads this
    {
      Ladder(resetCount, lastCause, bootMode, wdtDeadline)
    }

    constructor (bus: Bus)
      ensures this.bus == bus && Model() == Fresh()
    {
      this.bus := bus;
      resetCount, lastCause, bootMode, wdtDeadline := 0, None, Normal, None;
    }

    method PowerOnReset()
      modifies this, bus
      ensures (Model(), bus.words) == PowerOn(old(Model()), old(bus.words))
    {
      bus.Poke32(BOOT_MODE_REG, BOOT_NORMAL);
      bootMode := Normal;
      wdtDeadline := None;
    }

    method PollAt(now: nat) returns (cause: Option<Cause>)
      modifies this, bus
      ensures (Model(), bus.words, cause) == Poll(old(Model()), old(bus.words), now)
    {
      if bus.Peek32(CRU_GLB_SRST_FST) == CRU_GLB_SRST_MAGIC {
        bus.Poke32(CRU_GLB_SRST_FST, 0);
        RecordFire(ByCru);
        return Some(ByCru);
      }
      var cr := bus.Peek32(DW_WDT_CR);
      if cr % 2 == 1 {
        if bus.Peek32(DW_WDT_CRR) == DW_WDT_PET {
          bus.Poke32(DW_WDT_CRR, 0);
          ArmWdt(now);
        } else if wdtDeadline.None? {
          ArmWdt(now);
        }
        if wdtDeadline.Some? && now >= wdtDeadline.value {
          wdtDeadline := None;
          RecordFire(ByWatchdog);
          return Some(ByWatchdog);
        }
      } else {
        wdtDeadline := None;
      }
      return None;
    }

    method ArmWdt(now: nat)
      modifies this`wdtDeadline
      ensures wdtDeadline == Some(now + Timeout(bus.words))
    {
      var torr := bus.Peek32(DW_WDT_TORR) % 16;
      wdtDeadline := Some(now + Pow2(torr));
    }

    method RecordFire(cause: Cause)
      modifies this
      ensures Model() == Fire(old(Model()), bus.words, cause)
    {
      resetCount := resetCount + 1;
      lastCause := Some(cause);
      bootMode := Decode(bus.Peek32(BOOT_MODE_REG));
    }
  }

  // ----- whole runs: any writes, polls and power-on resets, in any order

  datatype Event = Write(addr: nat, val: U32) | PollAt(now: nat) | PowerCycle

  /** What a poll read and answered; a power-on reset leaves its own mark. */
  datatype Obs =
    | Polled(now: nat, request: bool, enabled: bool, pet: bool, timeout: nat, boot: U32, result: Option<Cause>)
    | PoweredOn

  datatype Sys = Sys(ladder: Ladder, words: Words, seen: seq<Obs>)

  function Step(s: Sys, e: Event): Sys {
    match e
    case Write(a, v) => s.(words := s.words[a := v])
    case PollAt(now) =>
      var (l, w, r) := Poll(s.ladder, s.words, now);
      Sys(l, w, s.seen + [Polled(now, Requested(s.words), Enabled(s.words), Petted(s.words), Timeout(s.words),
                                 Read(s.words, BOOT_MODE_REG), r)])
    case PowerCycle =>
      var (l, w) := PowerOn(s.ladder, s.words);
      Sys(l, w, s.seen + [PoweredOn])
  }

  function Run(s: Sys, es: seq<Event>): Sys
    decreases |es|
  {
    if es == [] then s else Step(Run(s, es[..|es| - 1]), es[|es| - 1])
  }

  // ----- when the watchdog bites, read off the observations alone

  /** The poll got past the CRU rung. */
  predicate ReachedWatchdog(o: Obs) { o.Polled? && !o.request }

  predicate Stops(o: Obs) {
    o.PoweredOn? || (ReachedWatchdog(o) && (!o.enabled || o.result == Some(ByWatchdog)))
  }

  /** The timer is counting after `h`: the last thing that concerned it was a poll
      that found it enabled and did not bite. */
  predicate Counting(h: seq<Obs>)
    decreases |h|
  {
    if h == [] then false
    else if h[|h| - 1].PoweredOn? || ReachedWatchdog(h[|h| - 1]) then !Stops(h[|h| - 1])
    else Counting(h[..|h| - 1])
  }

  /** The last observation of `h` (re)started the timer: a pet, or the first poll
      that found it enabled. */
  predicate Arms(h: seq<Obs>) {
    && h != []
    && ReachedWatchdog(h[|h| - 1]) && h[|h| - 1].enabled
    && (h[|h| - 1].pet || !Counting(h[..|h| - 1]))
  }

  /** The latest poll that armed the timer, plus the timeout it read. */
  function DueTime(h: seq<Obs>): nat
    decreases |h|
  {
    if h == [] then 0
    else if Arms(h) then h[|h| - 1].now + h[|h| - 1].timeout
    else DueTime(h[..|h| - 1])
  }

  /** Whether a poll `o` after the observations `h` should bite. */
  predicate Bites(h: seq<Obs>, o: Obs) {
    o.Polled? && !o.request && !o.pet && o.enabled && Counting(h) && o.now >= DueTime(h)
  }

  function IsCause(o: Obs, c: Cause): nat { if o.Polled? && o.result == Some(c) then 1 else 0 }

  function CountCause(h: seq<Obs>, c: Cause): nat
    decreases |h|
  {
    if h == [] then 0 else CountCause(h[..|h| - 1], c) + IsCause(h[|h| - 1], c)
  }

  /** The boot mode of the latest reset; Normal after a power-on reset or before any. */
  function LandedIn(h: seq<Obs>): BootMode
    decreases |h|
  {
    if h == [] then Normal
    else match h[|h| - 1]
      case PoweredOn => Normal
      case Polled(_, _, _, _, _, boot, result) => if result.Some? then Decode(boot) else LandedIn(h[..|h| - 1])
  }

  /** The cause of the latest reset; a power-on reset does not forget it. */
  function LatestCause(h: seq<Obs>): Option<Cause>
    decreases |h|
  {
    if h == [] then None
    else
      var o := h[|h| - 1];
      if o.Polled? && o.result.Some? then o.result else LatestCause(h[..|h| - 1])
  }

  predicate Tracks(s: Sys) {
    && (s.ladder.deadline.Some? <==> Counting(s.seen))
    && (s.ladder.deadline.Some? ==> s.ladder.deadline.value == DueTime(s.seen))
    && s.ladder.resetCount == CountCause(s.seen, ByCru) + CountCause(s.seen, ByWatchdog)
    && s.ladder.bootMode == LandedIn(s.seen)
    && s.ladder.lastCause == LatestCause(s.seen)
  }

  /** One more observation. */
  lemma HistorySnoc(h: seq<Obs>, o: Obs)
    ensures Counting(h + [o]) == if o.PoweredOn? || ReachedWatchdog(o) then !Stops(o) else Counting(h)
    ensures Arms(h + [o]) == (ReachedWatchdog(o) && o.enabled && (o.pet || !Counting(h)))
    ensures DueTime(h + [o]) == if Arms(h + [o]) then o.now + o.timeout else DueTime(h)
    ensures forall c: Cause :: CountCause(h + [o], c) == CountCause(h, c) + IsCause(o, c)
    ensures LatestCause(h + [o]) == if o.Polled? && o.result.Some? then o.result else LatestCause(h)
    ensures LandedIn(h + [o]) == match o
                                 case PoweredOn => Normal
                                 case Polled(_, _, _, _, _, boot, r) => if r.Some? then Decode(boot) else LandedIn(h)
  {
    assert (h + [o])[..|h|] == h && (h + [o])[|h|] == o;
  }

  lemma PollTracks(s: Sys, now: nat)
    requires Tracks(s)
    ensures
      var t := Step(s, PollAt(now));
      && Tracks(t) && |t.seen| == |s.seen| + 1
      && var o := t.seen[|s.seen|];
      && (o.result == Some(ByWatchdog) <==> Bites(s.seen, o))
      && (o.result == Some(ByCru) <==> o.request)
      && !(Arms(t.seen) && o.result.Some?)
  {
    hide Counting, Arms, DueTime, CountCause, LandedIn, LatestCause, Decode, Timeout;
    var t := Step(s, PollAt(now));
    var o := t.seen[|s.seen|];
    assert t.seen == s.seen + [o];
    HistorySnoc(s.seen, o);
  }

  lemma PowerTracks(s: Sys)
    requires Tracks(s)
    ensures Tracks(Step(s, PowerCycle))
  {
    hide Counting, Arms, DueTime, CountCause, LandedIn, LatestCause;
    HistorySnoc(s.seen, PoweredOn);
  }

  lemma StepTracks(s: Sys, e: Event)
    requires Tracks(s)
    ensures Tracks(Step(s, e))
  {
    match e
    case Write(_, _) =>
    case PollAt(now) => PollTracks(s, now);
    case PowerCycle => PowerTracks(s);
  }

  /** Over every interleaving of writes, polls and power-on resets from a fresh
      ladder: the ladder counts exactly the resets seen, its boot mode and cause are
      those of the latest one, and its deadline is the history's. */
  lemma {:induction false} RunTracks(words: Words, es: seq<Event>)
    ensures Tracks(Run(Sys(Fresh(), words, []), es))
    decreases |es|
  {
    hide Step, Tracks;
    if es == [] {
      assert Tracks(Sys(Fresh(), words, [])) by { FreshTracks(words); }
    } else {
      RunTracks(words, es[..|es| - 1]);
      StepTracks(Run(Sys(Fresh(), words, []), es[..|es| - 1]), es[|es| - 1]);
    }
  }

  lemma FreshTracks(words: Words)
    ensures Tracks(Sys(Fresh(), words, []))
  {}

  /** A poll answers Watchdog exactly when nothing of higher rank is pending, the
      timer is counting and the armed deadline has come; and a poll that arms
      never fires. */
  lemma WatchdogBitesExactly(words: Words, es: seq<Event>, now: nat)
    ensures
      var before := Run(Sys(Fresh(), words, []), es);
      var after := Step(before, PollAt(now));
      var o := after.seen[|after.seen| - 1];
      && o.now == now
      && (o.result == Some(ByWatchdog) <==> Bites(before.seen, o))
      && (o.result == Some(ByCru) <==> o.request)
      && !(Arms(after.seen) && o.result.Some?)
  {
    hide Tracks, Bites, Arms;
    RunTracks(words, es);
    PollTracks(Run(Sys(Fresh(), words, []), es), now);
  }

  // ----- who asked for the resets

  function MagicWrites(es: seq<Event>): nat
    decreases |es|
  {
    if es == [] then 0
    else MagicWrites(es[..|es| - 1]) + if es[|es| - 1] == Write(CRU_GLB_SRST_FST, CRU_GLB_SRST_MAGIC) then 1 else 0
  }

  /** Every CRU reset is paid for by a write of the magic to the right register. */
  lemma {:induction false} ResetsAreRequested(words: Words, es: seq<Event>)
    ensures
      var s := Run(Sys(Fresh(), words, []), es);
      CountCause(s.seen, ByCru) + (if Requested(s.words) then 1 else 0) <=
      MagicWrites(es) + if Requested(words) then 1 else 0
    decreases |es|
  {
    hide Step, Requested;
    if es != [] {
      ResetsAreRequested(words, es[..|es| - 1]);
      StepPays(Run(Sys(Fresh(), words, []), es[..|es| - 1]), es[|es| - 1]);
    }
  }

  /** A step that resets uses a request up; only a write of the magic makes one. */
  lemma StepPays(s: Sys, e: Event)
    ensures
      var t := Step(s, e);
      CountCause(t.seen, ByCru) + (if Requested(t.words) then 1 else 0) <=
      CountCause(s.seen, ByCru) + (if Requested(s.words) then 1 else 0) +
      if e == Write(CRU_GLB_SRST_FST, CRU_GLB_SRST_MAGIC) then 1 else 0
  {
    var h := Step(s, e).seen;
    if !e.Write? {
      assert h[..|h| - 1] == s.seen;
    }
  }

  // ----- nothing else on the bus matters

  predicate Ours(a: nat) {
    || a == CRU_GLB_SRST_FST || a == DW_WDT_CR || a == DW_WDT_TORR || a == DW_WDT_CRR || a == BOOT_MODE_REG
  }

  ghost predicate Agree(v: Words, w: Words) { forall a: nat | Ours(a) :: Read(v, a) == Read(w, a) }

  /** The run without writes to addresses the ladder does not own. */
  function Strip(es: seq<Event>): seq<Event>
    decreases |es|
  {
    if es == [] then []
    else
      var last := es[|es| - 1];
      Strip(es[..|es| - 1]) + if last.Write? && !Ours(last.addr) then [] else [last]
  }

  lemma StepAgree(s: Sys, t: Sys, e: Event)
    requires s.ladder == t.ladder && s.seen == t.seen && Agree(s.words, t.words)
    ensures Step(s, e).ladder == Step(t, e).ladder && Step(s, e).seen == Step(t, e).seen
    ensures Agree(Step(s, e).words, Step(t, e).words)
  {
    assert Ours(CRU_GLB_SRST_FST) && Ours(DW_WDT_CR) && Ours(DW_WDT_TORR) && Ours(DW_WDT_CRR) && Ours(BOOT_MODE_REG);
  }

  /** Results and state are those of the stripped run, from any start that agrees
      on the ladder's registers. */
  lemma {:induction false} ForeignWritesInvisible(v: Words, w: Words, es: seq<Event>)
    requires Agree(v, w)
    ensures
      var s, t := Run(Sys(Fresh(), v, []), es), Run(Sys(Fresh(), w, []), Strip(es));
      s.ladder == t.ladder && s.seen == t.seen && Agree(s.words, t.words)
    decreases |es|
  {
    hide Step;
    if es != [] {
      var last, front := es[|es| - 1], es[..|es| - 1];
      ForeignWritesInvisible(v, w, front);
      var s, t := Run(Sys(Fresh(), v, []), front), Run(Sys(Fresh(), w, []), Strip(front));
      if last.Write? && !Ours(last.addr) {
        assert Strip(es) == Strip(front);
        ForeignStep(s, last);
      } else {
        StepAgree(s, t, last);
        assert Strip(es)[..|Strip(es)| - 1] == Strip(front);
      }
    }
  }

  lemma ForeignStep(s: Sys, e: Event)
    requires e.Write? && !Ours(e.addr)
    ensures Step(s, e).ladder == s.ladder && Step(s, e).seen == s.seen && Agree(Step(s, e).words, s.words)
  {}

  /** Two runs that differ only in such writes, the wrong reset offset among them,
      look the same. */
  lemma RunsIndistinguishable(words: Words, a: seq<Event>, b: seq<Event>)
    requires Strip(a) == Strip(b)
    ensures !Ours(CRU_WRONG_OFFSET)
    ensures Run(Sys(Fresh(), words, []), a).seen == Run(Sys(Fresh(), words, []), b).seen
    ensures Run(Sys(Fresh(), words, []), a).ladder == Run(Sys(Fresh(), words, []), b).ladder
  {
    hide Run;
    ForeignWritesInvisible(words, words, a);
    ForeignWritesInvisible(words, words, b);
  }

  /** The boot register survives every poll; only a write to it or a power-on reset
      changes it, so a requested boot mode is what the next reset lands in. */
  lemma BootRegisterSurvives(s: Sys, e: Event)
    requires !(e.Write? && e.addr == BOOT_MODE_REG) && !e.PowerCycle?
    ensures Read(Step(s, e).words, BOOT_MODE_REG) == Read(s.words, BOOT_MODE_REG)
  {}
}
