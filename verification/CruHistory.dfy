/** The reset ladder explained by the events alone: what each register holds when a
    poll looks, and so when the watchdog bites. */
module CruHistory {
  import opened Basics
  import opened SimBus
  import opened Cru

  // ----- what a register holds, from the events

  /** What an event makes of the value `held` at `a`: a write there replaces it; a poll
      consumes a reset request, or else, with the watchdog enabled, a pet; a power cycle
      restores the boot register. */
  function NextValue(e: Event, a: nat, held: U32, request: U32, control: U32): U32 {
    match e
    case Write(b, v) => if b == a then v else held
    case PowerCycle => if a == BOOT_MODE_REG then 0x5242_c300 else held
    case PollAt(_) =>
      if request == 0xfdb9 then (if a == CRU_GLB_SRST_FST then 0 else held)
      else if a == DW_WDT_CRR && control % 2 == 1 && held == 0x76 then 0
      else held
  }

  /** The value at `a` after the events. */
  function Register(words: Words, es: seq<Event>, a: nat): U32
    decreases |es|
  {
    if es == [] then Read(words, a)
    else
      var front := es[..|es| - 1];
      NextValue(es[|es| - 1], a, Register(words, front, a), Register(words, front, CRU_GLB_SRST_FST),
                Register(words, front, DW_WDT_CR))
  }

  function Start(words: Words): Sys { Sys(Fresh(), words, []) }

  lemma StepRegister(s: Sys, e: Event, a: nat)
    ensures Read(Step(s, e).words, a) ==
            NextValue(e, a, Read(s.words, a), Read(s.words, CRU_GLB_SRST_FST), Read(s.words, DW_WDT_CR))
  {
    hide Pow2, Decode;
  }

  /** In every run the bus holds, at every address, what the events say. */
  lemma {:induction false} RegistersFollowEvents(words: Words, es: seq<Event>, a: nat)
    ensures Read(Run(Start(words), es).words, a) == Register(words, es, a)
    decreases |es|
  {
    hide Step, Read;
    if es != [] {
      var front := es[..|es| - 1];
      RegistersFollowEvents(words, front, a);
      RegistersFollowEvents(words, front, CRU_GLB_SRST_FST);
      RegistersFollowEvents(words, front, DW_WDT_CR);
      StepRegister(Run(Start(words), front), es[|es| - 1], a);
    }
  }

  // ----- what a poll sees

  const TIMEOUTS: seq<nat> := [1, 2, 4, 8, 16, 32, 64, 128, 256, 512, 1024, 2048, 4096, 8192, 16384, 32768]

  lemma {:induction false} TimeoutIs(n: nat)
    requires n < 16
    ensures Pow2(n) == TIMEOUTS[n]
  {
    if n > 0 {
      TimeoutIs(n - 1);
    }
  }

  /** Every observation of every run is what the events put in the registers; writes
      leave none, a power cycle its own. */
  lemma ObservationsFollowEvents(words: Words, es: seq<Event>, e: Event)
    ensures
      var s, t := Run(Start(words), es), Run(Start(words), es + [e]);
      match e
      case Write(_, _) => t.seen == s.seen
      case PowerCycle => t.seen == s.seen + [PoweredOn]
      case PollAt(now) =>
        && |t.seen| == |s.seen| + 1 && t.seen[..|s.seen|] == s.seen
        && var o := t.seen[|s.seen|];
           o == Polled(now, Register(words, es, CRU_GLB_SRST_FST) == 0xfdb9, Register(words, es, DW_WDT_CR) % 2 == 1,
                       Register(words, es, DW_WDT_CRR) == 0x76, TIMEOUTS[Register(words, es, DW_WDT_TORR) % 16],
                       Register(words, es, BOOT_MODE_REG), o.result)
  {
    hide Register, Poll, Read, Run;
    RunSnoc(words, es, e);
    if e.PollAt? {
      RegistersFollowEvents(words, es, CRU_GLB_SRST_FST);
      RegistersFollowEvents(words, es, DW_WDT_CR);
      RegistersFollowEvents(words, es, DW_WDT_CRR);
      RegistersFollowEvents(words, es, DW_WDT_TORR);
      RegistersFollowEvents(words, es, BOOT_MODE_REG);
      TimeoutIs(Register(words, es, DW_WDT_TORR) % 16);
    }
  }

  lemma RunSnoc(words: Words, es: seq<Event>, e: Event)
    ensures Run(Start(words), es + [e]) == Step(Run(Start(words), es), e)
  {
    hide Step;
    assert (es + [e])[..|es|] == es;
  }

  // ----- pets and silence

  function PetWrites(es: seq<Event>): nat
    decreases |es|
  {
    if es == [] then 0
    else PetWrites(es[..|es| - 1]) + if es[|es| - 1] == Write(DW_WDT_CRR, DW_WDT_PET) then 1 else 0
  }

  /** Polls that took a pet. */
  function PetsTaken(h: seq<Obs>): nat
    decreases |h|
  {
    if h == [] then 0
    else
      var o := h[|h| - 1];
      PetsTaken(h[..|h| - 1]) + if o.Polled? && !o.request && o.enabled && o.pet then 1 else 0
  }

  /** Every pet taken was written: none counts twice. */
  lemma {:induction false} PetsArePaidFor(words: Words, es: seq<Event>)
    ensures
      var s := Run(Start(words), es);
      PetsTaken(s.seen) + (if Petted(s.words) then 1 else 0) <= PetWrites(es) + if Petted(words) then 1 else 0
    decreases |es|
  {
    hide Step, Petted;
    if es != [] {
      PetsArePaidFor(words, es[..|es| - 1]);
      StepPet(Run(Start(words), es[..|es| - 1]), es[|es| - 1]);
    }
  }

  lemma StepPet(s: Sys, e: Event)
    ensures
      var t := Step(s, e);
      PetsTaken(t.seen) + (if Petted(t.words) then 1 else 0) <=
      PetsTaken(s.seen) + (if Petted(s.words) then 1 else 0) + if e == Write(DW_WDT_CRR, DW_WDT_PET) then 1 else 0
  {
    hide Pow2, Decode;
    var h := Step(s, e).seen;
    if !e.Write? {
      assert h[..|h| - 1] == s.seen;
    }
  }

  function Polls(times: seq<nat>): seq<Event> { seq(|times|, i requires 0 <= i < |times| => PollAt(times[i])) }

  /** The state once a poll at `armed` has started the timer, on a bus where nothing is
      pending and the watchdog is enabled. */
  predicate Armed(s: Sys, due: nat) {
    && s.ladder.deadline == Some(due)
    && Read(s.words, CRU_GLB_SRST_FST) != CRU_GLB_SRST_MAGIC
    && Read(s.words, DW_WDT_CR) % 2 == 1 && Read(s.words, DW_WDT_CRR) != DW_WDT_PET
  }

  lemma {:induction false} StaysArmed(s: Sys, due: nat, times: seq<nat>)
    requires Armed(s, due) && forall i | 0 <= i < |times| :: times[i] < due
    ensures
      var t := Run(s, Polls(times));
      && Armed(t, due) && |t.seen| == |s.seen| + |times| && t.ladder == s.ladder
      && forall i | |s.seen| <= i < |t.seen| :: t.seen[i].Polled? && t.seen[i].result == None
    decreases |times|
  {
    if times != [] {
      var last := |times| - 1;
      StaysArmed(s, due, times[..last]);
      assert Polls(times)[..last] == Polls(times[..last]) && Polls(times)[last] == PollAt(times[last]);
      var t := Run(s, Polls(times[..last]));
      hide Run;
      QuietPoll(t, due, times[last]);
    }
  }

  lemma QuietPoll(s: Sys, due: nat, now: nat)
    requires Armed(s, due)
    ensures
      var t := Step(s, PollAt(now));
      && |t.seen| == |s.seen| + 1 && t.seen[..|s.seen|] == s.seen
      && t.seen[|s.seen|].Polled? && t.seen[|s.seen|].now == now
      && (now < due ==> Armed(t, due) && t.ladder == s.ladder && t.seen[|s.seen|].result == None)
      && (now >= due ==> t.seen[|s.seen|].result == Some(ByWatchdog)
                         && t.ladder.resetCount == s.ladder.resetCount + 1 && t.ladder.deadline == None)
  {
    hide Pow2, Decode;
  }

  /** After any run, let a poll find no reset request, the watchdog enabled and a pet.
      If nothing is written after that, polls up to the armed deadline answer nothing,
      and the first at or after it answers Watchdog: one pet buys one timeout. */
  lemma SilenceBites(words: Words, es: seq<Event>, armed: nat, times: seq<nat>, now: nat)
    requires Register(words, es, CRU_GLB_SRST_FST) != 0xfdb9 && Register(words, es, DW_WDT_CR) % 2 == 1
    requires Register(words, es, DW_WDT_CRR) == 0x76
    requires
      var due := armed + TIMEOUTS[Register(words, es, DW_WDT_TORR) % 16];
      now >= due && forall i | 0 <= i < |times| :: times[i] < due
    ensures
      var s := Run(Start(words), es);
      var t := Run(Step(s, PollAt(armed)), Polls(times));
      var u := Step(t, PollAt(now));
      && |t.seen| == |s.seen| + 1 + |times| && |u.seen| == |t.seen| + 1
      && (forall i | |s.seen| <= i < |t.seen| :: t.seen[i].Polled? && t.seen[i].result == None)
      && u.seen[|t.seen|].Polled? && u.seen[|t.seen|].result == Some(ByWatchdog)
  {
    hide Register, Run;
    var due := armed + TIMEOUTS[Register(words, es, DW_WDT_TORR) % 16];
    RegistersFollowEvents(words, es, CRU_GLB_SRST_FST);
    RegistersFollowEvents(words, es, DW_WDT_CR);
    RegistersFollowEvents(words, es, DW_WDT_CRR);
    RegistersFollowEvents(words, es, DW_WDT_TORR);
    TimeoutIs(Register(words, es, DW_WDT_TORR) % 16);
    var s := Run(Start(words), es);
    PetArms(s, armed, due);
    var s1 := Step(s, PollAt(armed));
    StaysArmed(s1, due, times);
    SeenGrows(s1, Polls(times));
    hide Step;
    QuietPoll(Run(s1, Polls(times)), due, now);
  }

  lemma PetArms(s: Sys, now: nat, due: nat)
    requires Read(s.words, CRU_GLB_SRST_FST) != CRU_GLB_SRST_MAGIC && Read(s.words, DW_WDT_CR) % 2 == 1
    requires Read(s.words, DW_WDT_CRR) == DW_WDT_PET && due == now + Pow2(Read(s.words, DW_WDT_TORR) % 16)
    ensures
      var t := Step(s, PollAt(now));
      && Armed(t, due) && |t.seen| == |s.seen| + 1 && t.seen[|s.seen|].Polled? && t.seen[|s.seen|].result == None
  {
    hide Pow2, Decode;
  }

  lemma {:induction false} SeenGrows(s: Sys, es: seq<Event>)
    ensures |s.seen| <= |Run(s, es).seen| && Run(s, es).seen[..|s.seen|] == s.seen
    decreases |es|
  {
    if es != [] {
      SeenGrows(s, es[..|es| - 1]);
      hide Run;
      var t := Run(s, es[..|es| - 1]);
      assert t.seen <= Step(t, es[|es| - 1]).seen;
    }
  }

  // ----- where a requested reset lands

  /** A boot mode written, then a reset requested: the next poll resets, and lands in the
      mode whose word was written, Normal for any other word. */
  lemma ResetLandsIn(words: Words, es: seq<Event>, v: U32, now: nat)
    ensures
      var s := Run(Start(words), es);
      var t := Step(Step(Step(s, Write(BOOT_MODE_REG, v)), Write(CRU_GLB_SRST_FST, 0xfdb9)), PollAt(now));
      && t.ladder.resetCount == s.ladder.resetCount + 1 && t.ladder.lastCause == Some(ByCru)
      && (t.ladder.bootMode == Maskrom <==> v == 0xef08_a53c)
      && (t.ladder.bootMode == Loader <==> v == 0x5242_c301)
      && Read(t.words, BOOT_MODE_REG) == v && Read(t.words, CRU_GLB_SRST_FST) == 0
  {
    hide Run;
  }

  /** A power cycle in between forgets the request for a mode, but not the counts. */
  lemma PowerCycleForgets(words: Words, es: seq<Event>, now: nat)
    ensures
      var s := Step(Run(Start(words), es), PowerCycle);
      var t := Step(Step(s, Write(CRU_GLB_SRST_FST, 0xfdb9)), PollAt(now));
      && s.ladder.resetCount == Run(Start(words), es).ladder.resetCount
      && s.ladder.lastCause == Run(Start(words), es).ladder.lastCause
      && s.ladder.bootMode == Normal && s.ladder.deadline == None
      && t.ladder.bootMode == Normal && Read(t.words, BOOT_MODE_REG) == 0x5242_c300
  {
    hide Run;
  }
}
