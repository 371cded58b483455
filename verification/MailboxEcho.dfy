/** The mailbox echo between the A7 and the SCR1 core, one register access at a
    time. Any access of either side may come between any two of the other's. */
module MailboxEcho {
  import opened Basics

  const NUM_CHANS := 4
  const STATE_MBOX: U32 := 0x584F_424D

  /** Which of the two A2B registers rings the core's doorbell when written, which one
      the A7 writes first, and which of the two B2A registers rings the A7's own. The
      firmware's comments name the command register as the doorbell, the round-trip
      script and its report the data register. */
  datatype Reg = Cmd | Dat
  datatype Wiring = Wiring(bell: Reg, first: Reg, reply: Reg)

  /** The A7's progress on one channel. */
  datatype Phase =
    | Free
    | Half(cmd: U32, dat: U32)
    | Posted(cmd: U32, dat: U32)
    | Ready(cmd: U32, dat: U32)
    | GotCmd(cmd: U32, dat: U32, got: U32)

  /** `status` is the channel's A2B bit, `heard` its B2A bit; `clean` says that the
      latter was clear when the A7 began its latest post. */
  datatype Channel = Channel(
    status: bool, aCmd: U32, aDat: U32, bCmd: U32, bDat: U32, heard: bool, clean: bool,
    phase: Phase, posted: nat, acked: nat)

  /** The SCR1 core's next access. */
  datatype Pc =
    | Boot(n: nat)
    | Head
    | Test(snap: seq<bool>, ch: nat)
    | ReadCmd(snap: seq<bool>, ch: nat)
    | ReadDat(snap: seq<bool>, ch: nat, cmd: U32)
    | EchoCmd(snap: seq<bool>, ch: nat, cmd: U32, dat: U32)
    | EchoDat(snap: seq<bool>, ch: nat, cmd: U32, dat: U32)
    | Ack(snap: seq<bool>, ch: nat, cmd: U32)
    | LogCmd(snap: seq<bool>, ch: nat, cmd: U32)
    | LogCount(snap: seq<bool>, ch: nat)

  datatype Exchange = Exchange(cmd: U32, dat: U32, gotCmd: U32, gotDat: U32)

  datatype Sys = Sys(
    wiring: Wiring,
    chans: seq<Channel>,
    inten: bool,
    pc: Pc,
    echoes: U32,
    dbgState: U32,
    dbgLast: U32,
    dbgCount: U32,
    log: seq<Exchange>)

  datatype Step =
    | McuStep
    | WriteFirst(ch: nat, cmd: U32, dat: U32)
    | WriteSecond(ch: nat)
    | Look(ch: nat)
    | Hear(ch: nat)
    | ClearBell(ch: nat)
    | FetchCmd(ch: nat)
    | FetchDat(ch: nat)

  predicate Shape(s: Sys) {
    && |s.chans| == NUM_CHANS
    && (s.pc.Boot? ==> s.pc.n < 4)
    && (!s.pc.Boot? && !s.pc.Head? ==> |s.pc.snap| == NUM_CHANS && s.pc.ch <= NUM_CHANS)
    && (!s.pc.Boot? && !s.pc.Head? && !s.pc.Test? ==> s.pc.ch < NUM_CHANS)
  }

  /** Program order on the A7; it begins a post only on a channel whose bit is clear,
      and may do so without having read the last answer. It learns of the answer from
      the A2B bit going down, or from its own bell if that was clear when it began. */
  predicate Enabled(s: Sys, t: Step)
    requires Shape(s)
  {
    match t
    case McuStep => true
    case WriteFirst(c, _, _) => c < NUM_CHANS && !s.chans[c].phase.Half? && !s.chans[c].status
    case WriteSecond(c) => c < NUM_CHANS && s.chans[c].phase.Half?
    case Look(c) => c < NUM_CHANS && s.chans[c].phase.Posted?
    case Hear(c) => c < NUM_CHANS && s.chans[c].phase.Posted? && s.chans[c].clean
    case ClearBell(c) => c < NUM_CHANS
    case FetchCmd(c) => c < NUM_CHANS && s.chans[c].phase.Ready?
    case FetchDat(c) => c < NUM_CHANS && s.chans[c].phase.GotCmd?
  }

  /** Writing an A2B register; the doorbell one raises the status bit if enabled. */
  function WriteReg(s: Sys, k: Channel, r: Reg, cmd: U32, dat: U32): Channel {
    var k1 := if r == Cmd then k.(aCmd := cmd) else k.(aDat := dat);
    if r == s.wiring.bell then k1.(status := k.status || s.inten, posted := k.posted + 1) else k1
  }

  function Other(r: Reg): Reg { if r == Cmd then Dat else Cmd }

  /** Writing a B2A register; the one wired to the A7's bell rings it. */
  function Reply(s: Sys, k: Channel, r: Reg, v: U32): Channel {
    var k1 := if r == Cmd then k.(bCmd := v) else k.(bDat := v);
    k1.(heard := k.heard || r == s.wiring.reply)
  }

  /** One turn of `main` on the SCR1 core: one register access, or one test of the
      snapshot it has taken. */
  function Mcu(s: Sys): Sys
    requires Shape(s)
  {
    match s.pc
    case Boot(n) =>
      if n == 0 then s.(dbgState := STATE_MBOX, pc := Boot(1))
      else if n == 1 then s.(dbgLast := 0, pc := Boot(2))
      else if n == 2 then s.(dbgCount := 0, echoes := 0, pc := Boot(3))
      else s.(inten := true, pc := Head)
    case Head => s.(pc := Test(seq(NUM_CHANS, i requires 0 <= i < NUM_CHANS => s.chans[i].status), 0))
    case Test(snap, ch) =>
      if ch == NUM_CHANS then s.(pc := Head)
      else if snap[ch] then s.(pc := ReadCmd(snap, ch))
      else s.(pc := Test(snap, ch + 1))
    case ReadCmd(snap, ch) => s.(pc := ReadDat(snap, ch, s.chans[ch].aCmd))
    case ReadDat(snap, ch, cmd) => s.(pc := EchoCmd(snap, ch, cmd, s.chans[ch].aDat))
    case EchoCmd(snap, ch, cmd, dat) =>
      s.(chans := s.chans[ch := Reply(s, s.chans[ch], Cmd, cmd)], pc := EchoDat(snap, ch, cmd, dat))
    case EchoDat(snap, ch, cmd, dat) =>
      s.(chans := s.chans[ch := Reply(s, s.chans[ch], Dat, dat)], pc := Ack(snap, ch, cmd))
    case Ack(snap, ch, cmd) =>
      var k := s.chans[ch];
      s.(chans := s.chans[ch := k.(status := false, acked := k.acked + 1)], pc := LogCmd(snap, ch, cmd))
    case LogCmd(snap, ch, cmd) => s.(dbgLast := cmd, pc := LogCount(snap, ch))
    case LogCount(snap, ch) =>
      var n := (s.echoes + 1) % WRAP;
      s.(echoes := n, dbgCount := n, pc := Test(snap, ch + 1))
  }

  function Do(s: Sys, t: Step): Sys
    requires Shape(s) && Enabled(s, t)
  {
    match t
    case McuStep => Mcu(s)
    case WriteFirst(c, cmd, dat) =>
      var k := s.chans[c];
      var w := WriteReg(s, k, s.wiring.first, cmd, dat);
      s.(chans := s.chans[c := w.(phase := Half(cmd, dat), clean := !k.heard)])
    case WriteSecond(c) =>
      var k := s.chans[c];
      var w := WriteReg(s, k, Other(s.wiring.first), k.phase.cmd, k.phase.dat);
      s.(chans := s.chans[c := w.(phase := Posted(k.phase.cmd, k.phase.dat))])
    case Look(c) =>
      var k := s.chans[c];
      if k.status then s else s.(chans := s.chans[c := k.(phase := Ready(k.phase.cmd, k.phase.dat))])
    case Hear(c) =>
      var k := s.chans[c];
      if !k.heard then s else s.(chans := s.chans[c := k.(phase := Ready(k.phase.cmd, k.phase.dat))])
    case ClearBell(c) => s.(chans := s.chans[c := s.chans[c].(heard := false)])
    case FetchCmd(c) =>
      var k := s.chans[c];
      s.(chans := s.chans[c := k.(phase := GotCmd(k.phase.cmd, k.phase.dat, k.bCmd))])
    case FetchDat(c) =>
      var k := s.chans[c];
      s.(chans := s.chans[c := k.(phase := Free)],
         log := s.log + [Exchange(k.phase.cmd, k.phase.dat, k.phase.got, k.bDat)])
  }

  /** Power-up: registers hold anything, no bit is set, nothing enabled. */
  predicate Initial(s: Sys) {
    && Shape(s) && s.pc == Boot(0) && !s.inten && s.log == [] && s.echoes == 0
    && forall c | 0 <= c < NUM_CHANS ::
         s.chans[c].phase.Free? && !s.chans[c].status && s.chans[c].posted == 0 && s.chans[c].acked == 0
  }

  /** The A7 rings only once the receiver has enabled its doorbell, and goes by its own
      bell only if the data register, which the firmware writes last, rings it. */
  predicate Kept(s: Sys, t: Step) {
    (t.WriteFirst? || t.WriteSecond? ==> s.inten) && (t.Hear? ==> s.wiring.reply == Dat)
  }

  // ----- the invariant

  function Flag(b: bool): nat { if b then 1 else 0 }

  /** The A7's view of its channel. */
  predicate ChannelOk(w: Wiring, k: Channel) {
    && (k.status ==> !k.phase.Half?)
    && k.posted == k.acked + Flag(k.status)
    && match k.phase
       case Free => true
       case Half(cmd, dat) => (if w.first == Cmd then k.aCmd == cmd else k.aDat == dat) && (k.clean ==> !k.heard)
       case Posted(cmd, dat) =>
         && k.aCmd == cmd && k.aDat == dat
         && (!k.status || (k.clean && k.heard && w.reply == Dat) ==> k.bCmd == cmd && k.bDat == dat)
       case Ready(cmd, dat) => Holds(k, cmd, dat)
       case GotCmd(cmd, dat, got) => Holds(k, cmd, dat) && got == cmd
  }

  /** The answer stands, and stays: what the core may still echo is the same. */
  predicate Holds(k: Channel, cmd: U32, dat: U32) {
    k.bCmd == cmd && k.bDat == dat && (k.status ==> k.aCmd == cmd && k.aDat == dat)
  }

  /** The core's view of the channel it is serving. */
  predicate ServingOk(s: Sys)
    requires Shape(s)
  {
    match s.pc
    case ReadCmd(_, ch) => s.chans[ch].status
    case ReadDat(_, ch, cmd) => s.chans[ch].status && cmd == s.chans[ch].aCmd
    case EchoCmd(_, ch, cmd, dat) => s.chans[ch].status && cmd == s.chans[ch].aCmd && dat == s.chans[ch].aDat
    case EchoDat(_, ch, cmd, dat) =>
      && s.chans[ch].status && cmd == s.chans[ch].aCmd && dat == s.chans[ch].aDat && s.chans[ch].bCmd == cmd
    case Ack(_, ch, cmd) =>
      && s.chans[ch].status && s.chans[ch].bCmd == s.chans[ch].aCmd && s.chans[ch].bDat == s.chans[ch].aDat
    case _ => true
  }

  /** A bit of the snapshot not yet served is still set: only the core clears bits. */
  predicate SnapOk(s: Sys)
    requires Shape(s)
  {
    !s.pc.Boot? && !s.pc.Head? ==>
      var from := if s.pc.LogCmd? || s.pc.LogCount? then s.pc.ch + 1 else s.pc.ch;
      forall c | from <= c < NUM_CHANS :: s.pc.snap[c] ==> s.chans[c].status
  }

  function Acked(s: Sys): nat
    requires Shape(s)
  {
    s.chans[0].acked + s.chans[1].acked + s.chans[2].acked + s.chans[3].acked
  }

  predicate CountOk(s: Sys)
    requires Shape(s)
  {
    && (s.pc.Boot? ==> Acked(s) == 0)
    && (!s.pc.Boot? ==> s.inten && s.dbgState == STATE_MBOX)
    && (if s.pc.LogCmd? || s.pc.LogCount? then (s.echoes + 1) % WRAP == Acked(s) % WRAP
        else s.echoes == Acked(s) % WRAP)
    && (!s.pc.Boot? || s.pc.n == 3 ==> s.dbgCount == s.echoes)
    && (s.pc.Boot? && s.pc.n > 0 ==> s.dbgState == STATE_MBOX)
  }

  predicate ChannelsOk(s: Sys)
    requires Shape(s)
  {
    forall c | 0 <= c < NUM_CHANS :: ChannelOk(s.wiring, s.chans[c]) && (s.chans[c].status ==> s.inten)
  }

  predicate LogOk(s: Sys) {
    forall i | 0 <= i < |s.log| :: s.log[i].gotCmd == s.log[i].cmd && s.log[i].gotDat == s.log[i].dat
  }

  predicate Inv(s: Sys) {
    && Shape(s)
    && s.wiring.first != s.wiring.bell
    && ChannelsOk(s) && ServingOk(s) && SnapOk(s) && CountOk(s) && LogOk(s)
  }

  lemma McuChannels(s: Sys)
    requires Inv(s)
    ensures Shape(Mcu(s)) && ChannelsOk(Mcu(s))
  {
    hide SnapOk, CountOk, LogOk;
  }

  lemma McuServing(s: Sys)
    requires Inv(s)
    ensures Shape(Mcu(s)) && ServingOk(Mcu(s)) && SnapOk(Mcu(s))
  {
    hide ChannelsOk, CountOk, LogOk;
  }

  lemma McuAcked(s: Sys)
    requires Shape(s)
    ensures Shape(Mcu(s)) && Acked(Mcu(s)) == Acked(s) + Flag(s.pc.Ack?)
  {
    hide Mcu;
    McuAckedAt(s, 0);
    McuAckedAt(s, 1);
    McuAckedAt(s, 2);
    McuAckedAt(s, 3);
  }

  lemma McuAckedAt(s: Sys, c: nat)
    requires Shape(s) && c < NUM_CHANS
    ensures Shape(Mcu(s)) && Mcu(s).chans[c].acked == s.chans[c].acked + Flag(s.pc.Ack? && s.pc.ch == c)
    ensures Mcu(s).chans[c].status == (s.chans[c].status && !(s.pc.Ack? && s.pc.ch == c))
  {}

  lemma NextModWrap(a: nat)
    ensures (a % WRAP + 1) % WRAP == (a + 1) % WRAP
  {}

  lemma McuCount(s: Sys)
    requires Inv(s)
    ensures Shape(Mcu(s)) && CountOk(Mcu(s))
  {
    hide ChannelsOk, ServingOk, SnapOk, LogOk, Acked;
    McuAcked(s);
    NextModWrap(Acked(s));
  }

  lemma McuKeepsInv(s: Sys)
    requires Inv(s)
    ensures Inv(Mcu(s))
  {
    hide ChannelsOk, ServingOk, SnapOk, CountOk;
    McuChannels(s);
    McuServing(s);
    McuCount(s);
  }

  /** What an A7 access may do to the channel it touches, as the core sees it. */
  predicate Undisturbed(k: Channel, k': Channel) {
    && (k.status ==> k'.status && k'.aCmd == k.aCmd && k'.aDat == k.aDat)
    && k'.acked == k.acked && k'.bCmd == k.bCmd && k'.bDat == k.bDat
  }

  lemma A7Channels(s: Sys, t: Step)
    requires Inv(s) && Enabled(s, t) && Kept(s, t) && !t.McuStep?
    ensures
      var r := Do(s, t);
      && Shape(r) && ChannelsOk(r) && r.pc == s.pc
      && (forall c | 0 <= c < NUM_CHANS :: Undisturbed(s.chans[c], r.chans[c]))
  {
    hide ServingOk, SnapOk, CountOk, LogOk;
  }

  lemma A7Log(s: Sys, t: Step)
    requires Inv(s) && Enabled(s, t) && !t.McuStep?
    ensures LogOk(Do(s, t))
  {
    hide ServingOk, SnapOk, CountOk;
  }

  /** The core's obligations survive any access that leaves set channels alone. */
  lemma UndisturbedKeepsMcu(s: Sys, r: Sys)
    requires Shape(s) && Shape(r) && ServingOk(s) && SnapOk(s) && CountOk(s)
    requires r.pc == s.pc && r.inten == s.inten && r.echoes == s.echoes
    requires r.dbgState == s.dbgState && r.dbgCount == s.dbgCount
    requires forall c | 0 <= c < NUM_CHANS :: Undisturbed(s.chans[c], r.chans[c])
    ensures ServingOk(r) && SnapOk(r) && CountOk(r)
  {
    assert Acked(r) == Acked(s);
  }

  lemma StepKeepsInv(s: Sys, t: Step)
    requires Inv(s) && Enabled(s, t) && Kept(s, t)
    ensures Inv(Do(s, t))
  {
    hide ChannelsOk, ServingOk, SnapOk, CountOk, LogOk, Undisturbed;
    if t.McuStep? {
      McuKeepsInv(s);
    } else {
      A7Channels(s, t);
      A7Log(s, t);
      UndisturbedKeepsMcu(s, Do(s, t));
    }
  }

  // ----- every interleaving

  predicate Legal(s: Sys, ts: seq<Step>)
    decreases |ts|
  {
    && Shape(s)
    && (ts == [] || (Enabled(s, ts[0]) && Kept(s, ts[0]) && Legal(Do(s, ts[0]), ts[1..])))
  }

  function Run(s: Sys, ts: seq<Step>): Sys
    requires Legal(s, ts)
    decreases |ts|
  {
    if ts == [] then s else Run(Do(s, ts[0]), ts[1..])
  }

  lemma {:induction false} RunKeepsInv(s: Sys, ts: seq<Step>)
    requires Inv(s) && Legal(s, ts)
    ensures Inv(Run(s, ts))
    decreases |ts|
  {
    hide Inv, Do, Enabled, Kept;
    if ts != [] {
      StepKeepsInv(s, ts[0]);
      RunKeepsInv(Do(s, ts[0]), ts[1..]);
    }
  }

  lemma InitialInv(s: Sys)
    requires Initial(s) && s.wiring.first != s.wiring.bell
    ensures Inv(s)
  {}

  /** If the A7 writes the doorbell register last, then under every interleaving it
      reads back exactly the pair it posted; on each channel posted messages are the
      acknowledged ones plus the one whose bit is set; and at the head of the loop
      both echo counters are the number of acknowledgements modulo 2^32. */
  lemma EchoIsVerbatim(s: Sys, ts: seq<Step>)
    requires Initial(s) && s.wiring.first != s.wiring.bell && Legal(s, ts)
    ensures
      var r := Run(s, ts);
      && Shape(r)
      && (forall i | 0 <= i < |r.log| :: r.log[i].gotCmd == r.log[i].cmd && r.log[i].gotDat == r.log[i].dat)
      && (forall c | 0 <= c < NUM_CHANS :: r.chans[c].posted == r.chans[c].acked + Flag(r.chans[c].status))
      && (r.pc.Head? ==> r.echoes == r.dbgCount == Acked(r) % WRAP)
  {
    InitialInv(s);
    RunKeepsInv(s, ts);
    hide ServingOk, SnapOk, Run, Legal;
    assert forall c | 0 <= c < NUM_CHANS :: ChannelOk(s.wiring, Run(s, ts).chans[c]) by {
      WiringKept(s, ts);
    }
  }

  lemma {:induction false} WiringKept(s: Sys, ts: seq<Step>)
    requires Legal(s, ts)
    ensures Run(s, ts).wiring == s.wiring
    decreases |ts|
  {
    if ts != [] {
      WiringKept(Do(s, ts[0]), ts[1..]);
    }
  }

  // ----- a posted message is answered in time, whatever the A7 does meanwhile

  /** Turns left until the core is done with its channel. */
  function Left(pc: Pc): nat
    requires !pc.Boot? && !pc.Head?
  {
    match pc
    case Test(_, _) => 8
    case ReadCmd(_, _) => 7
    case ReadDat(_, _, _) => 6
    case EchoCmd(_, _, _, _) => 5
    case EchoDat(_, _, _, _) => 4
    case Ack(_, _, _) => 3
    case LogCmd(_, _, _) => 2
    case LogCount(_, _) => 1
  }

  /** This pass of the core's loop will still serve channel `c`. */
  predicate InPass(pc: Pc, c: nat)
    requires !pc.Boot? && !pc.Head? && |pc.snap| == NUM_CHANS && c < NUM_CHANS
  {
    pc.snap[c] && (pc.ch < c || (pc.ch == c && Left(pc) > 2))
  }

  /** This pass will look at channel `c` in vain: one turn instead of eight. */
  predicate Skips(pc: Pc, c: nat)
    requires !pc.Boot? && !pc.Head? && |pc.snap| == NUM_CHANS && c < NUM_CHANS
  {
    !pc.snap[c] && (pc.ch < c || (pc.ch == c && pc.Test?))
  }

  /** Turns of the core, at most, until channel `c` is acknowledged. */
  function Wait(s: Sys, c: nat): nat
    requires Shape(s) && c < NUM_CHANS
  {
    match s.pc
    case Boot(n) => (4 - n) + 7 + 8 * c
    case Head => 7 + 8 * c
    case _ =>
      if InPass(s.pc, c) then 8 * (c - s.pc.ch) + Left(s.pc) - 2
      else 8 * (3 - s.pc.ch) + Left(s.pc) + 1 + 7 + 8 * c - if Skips(s.pc, c) then 7 else 0
  }

  function McuSteps(ts: seq<Step>): nat
    decreases |ts|
  {
    if ts == [] then 0 else Flag(ts[0].McuStep?) + McuSteps(ts[1..])
  }

  lemma McuWaits(s: Sys, c: nat)
    requires Inv(s) && c < NUM_CHANS && s.chans[c].status
    ensures Shape(Mcu(s)) && Wait(s, c) > 0
    ensures if s.pc.Ack? && s.pc.ch == c then Mcu(s).chans[c].acked == s.chans[c].acked + 1
            else Mcu(s).chans[c].status && Mcu(s).chans[c].acked == s.chans[c].acked && Wait(Mcu(s), c) < Wait(s, c)
  {
    hide ChannelsOk, ServingOk, CountOk, LogOk, SnapOk;
    if s.pc.Head? || s.pc.Test? || s.pc.Boot? {
      LoopWaits(s, c);
    } else {
      ServingWaits(s, c);
    }
  }

  lemma LoopWaits(s: Sys, c: nat)
    requires Shape(s) && c < NUM_CHANS && s.chans[c].status && (s.pc.Head? || s.pc.Test? || s.pc.Boot?)
    ensures Shape(Mcu(s)) && Mcu(s).chans == s.chans && 0 <= Wait(Mcu(s), c) < Wait(s, c)
  {}

  lemma ServingWaits(s: Sys, c: nat)
    requires Shape(s) && c < NUM_CHANS && s.chans[c].status && !(s.pc.Head? || s.pc.Test? || s.pc.Boot?)
    ensures Shape(Mcu(s)) && Wait(s, c) > 0
    ensures if s.pc.Ack? && s.pc.ch == c then Mcu(s).chans[c].acked == s.chans[c].acked + 1
            else Mcu(s).chans[c].status && Mcu(s).chans[c].acked == s.chans[c].acked && Wait(Mcu(s), c) < Wait(s, c)
  {
    McuAckedAt(s, c);
    NextPlace(s);
    hide Mcu;
  }

  /** A turn at a channel goes on with it, or, at the end, to the next. */
  lemma NextPlace(s: Sys)
    requires Shape(s) && !(s.pc.Head? || s.pc.Test? || s.pc.Boot?)
    ensures
      var pc := Mcu(s).pc;
      && !pc.Boot? && !pc.Head? && pc.snap == s.pc.snap
      && (if s.pc.LogCount? then pc.Test? && pc.ch == s.pc.ch + 1
          else pc.ch == s.pc.ch && !pc.Test? && Left(pc) == Left(s.pc) - 1)
  {}

  lemma A7Waits(s: Sys, t: Step, c: nat)
    requires Inv(s) && Enabled(s, t) && Kept(s, t) && !t.McuStep? && c < NUM_CHANS && s.chans[c].status
    ensures
      var r := Do(s, t);
      Shape(r) && r.chans[c].status && r.chans[c].acked == s.chans[c].acked && Wait(r, c) == Wait(s, c)
  {
    hide ChannelsOk, ServingOk, CountOk, LogOk, SnapOk;
    A7Channels(s, t);
  }

  lemma {:induction false} AckedGrows(s: Sys, ts: seq<Step>, c: nat)
    requires Legal(s, ts) && c < NUM_CHANS
    ensures Shape(Run(s, ts)) && Run(s, ts).chans[c].acked >= s.chans[c].acked
    decreases |ts|
  {
    hide Do, Enabled, Kept;
    if ts != [] {
      StepAcked(s, ts[0], c);
      AckedGrows(Do(s, ts[0]), ts[1..], c);
    }
  }

  lemma StepAcked(s: Sys, t: Step, c: nat)
    requires Shape(s) && Enabled(s, t) && c < NUM_CHANS
    ensures Shape(Do(s, t)) && Do(s, t).chans[c].acked >= s.chans[c].acked
  {
    hide Mcu;
    if t.McuStep? {
      McuAckedAt(s, c);
    }
  }

  lemma {:induction false} AnsweredInTime(s: Sys, ts: seq<Step>, c: nat)
    requires Inv(s) && Legal(s, ts) && c < NUM_CHANS && s.chans[c].status && McuSteps(ts) >= Wait(s, c)
    ensures Shape(Run(s, ts)) && Run(s, ts).chans[c].acked > s.chans[c].acked
    decreases |ts|
  {
    hide Inv, Do, Enabled, Kept, Wait, Mcu;
    McuWaits(s, c);
    var t, rest := ts[0], ts[1..];
    StepKeepsInv(s, t);
    if !t.McuStep? {
      A7Waits(s, t, c);
      AnsweredInTime(Do(s, t), rest, c);
    } else {
      assert Do(s, t) == Mcu(s) by { McuIsStep(s); }
      if s.pc.Ack? && s.pc.ch == c {
        AckedGrows(Mcu(s), rest, c);
      } else {
        AnsweredInTime(Mcu(s), rest, c);
      }
    }
  }

  lemma McuIsStep(s: Sys)
    requires Shape(s)
    ensures Enabled(s, McuStep) && Do(s, McuStep) == Mcu(s)
  {}

  lemma WaitBounded(s: Sys, c: nat)
    requires Inv(s) && c < NUM_CHANS && s.chans[c].status
    ensures Wait(s, c) <= 57
  {
    hide ServingOk, SnapOk, LogOk;
  }

  /** Bounded response: from any state of any run, a message whose bit is up is
      acknowledged within 57 turns of the core (two rounds of the other channels), however
      the A7's accesses on all four channels fall in between. */
  lemma AnsweredWithin57(s: Sys, ts: seq<Step>, us: seq<Step>, c: nat)
    requires Initial(s) && s.wiring.first != s.wiring.bell && Legal(s, ts) && Legal(Run(s, ts), us)
    requires c < NUM_CHANS && Run(s, ts).chans[c].status && McuSteps(us) >= 57
    ensures Shape(Run(Run(s, ts), us)) && Run(Run(s, ts), us).chans[c].acked > Run(s, ts).chans[c].acked
  {
    hide Inv, Run, Legal, McuSteps, Wait;
    InitialInv(s);
    RunKeepsInv(s, ts);
    WaitBounded(Run(s, ts), c);
    AnsweredInTime(Run(s, ts), us, c);
  }

  // ----- one pass of the loop, left alone

  function McuTurns(s: Sys, n: nat): Sys
    requires Shape(s)
    decreases n
  {
    if n == 0 then s else McuShape(s); McuTurns(Mcu(s), n - 1)
  }

  lemma McuShape(s: Sys)
    requires Shape(s)
    ensures Shape(Mcu(s))
  {}

  /** A channel whose bit was in the snapshot has been echoed and cleared. */
  function Answered(k: Channel): Channel {
    k.(bCmd := k.aCmd, bDat := k.aDat, heard := true, status := false, acked := k.acked + 1)
  }

  /** Four accesses: test, read the pair, echo the command. */
  lemma ServeFetch(s: Sys)
    requires Shape(s) && s.pc.Test? && s.pc.ch < NUM_CHANS && s.pc.snap[s.pc.ch]
    ensures
      var k := s.chans[s.pc.ch];
      McuTurns(s, 4) == s.(chans := s.chans[s.pc.ch := Reply(s, k, Cmd, k.aCmd)],
                           pc := EchoDat(s.pc.snap, s.pc.ch, k.aCmd, k.aDat))
  {
    var snap, ch, k := s.pc.snap, s.pc.ch, s.chans[s.pc.ch];
    var s1 := s.(pc := ReadCmd(snap, ch));
    var s2 := s.(pc := ReadDat(snap, ch, k.aCmd));
    var s3 := s.(pc := EchoCmd(snap, ch, k.aCmd, k.aDat));
    var s4 := s.(chans := s.chans[ch := Reply(s, k, Cmd, k.aCmd)], pc := EchoDat(snap, ch, k.aCmd, k.aDat));
    assert Mcu(s) == s1 && Mcu(s1) == s2 && Mcu(s2) == s3 && Mcu(s3) == s4;
    hide Mcu;
    TurnsUnfold(s);
    assert McuTurns(s, 0 + 4) == McuTurns(s4, 0);
  }

  /** Four more: echo the data, acknowledge, and the two debug words. */
  lemma ServeFinish(s: Sys)
    requires Shape(s) && s.pc.EchoDat?
    ensures
      var k := s.chans[s.pc.ch];
      var n := (s.echoes + 1) % WRAP;
      McuTurns(s, 4) == s.(chans := s.chans[s.pc.ch := Reply(s, k, Dat, s.pc.dat).(status := false, acked := k.acked + 1)],
                           dbgLast := s.pc.cmd, echoes := n, dbgCount := n, pc := Test(s.pc.snap, s.pc.ch + 1))
  {
    hide Mcu, McuTurns;
    EchoAndAck(s);
    LogBoth(Mcu(Mcu(s)));
    TurnsUnfold(s);
    assert McuTurns(s, 0 + 4) == McuTurns(Mcu(Mcu(Mcu(Mcu(s)))), 0);
    NoTurns(Mcu(Mcu(Mcu(Mcu(s)))));
  }

  lemma NoTurns(s: Sys)
    requires Shape(s)
    ensures McuTurns(s, 0) == s
  {}

  lemma EchoAndAck(s: Sys)
    requires Shape(s) && s.pc.EchoDat?
    ensures
      var k := s.chans[s.pc.ch];
      && Shape(Mcu(s))
      && Mcu(Mcu(s)) == s.(chans := s.chans[s.pc.ch := Reply(s, k, Dat, s.pc.dat).(status := false, acked := k.acked + 1)],
                           pc := LogCmd(s.pc.snap, s.pc.ch, s.pc.cmd))
  {
    var k1 := Reply(s, s.chans[s.pc.ch], Dat, s.pc.dat);
    var k2 := k1.(status := false, acked := k1.acked + 1);
    assert s.chans[s.pc.ch := k1][s.pc.ch := k2] == s.chans[s.pc.ch := k2];
  }

  lemma LogBoth(s: Sys)
    requires Shape(s) && s.pc.LogCmd?
    ensures
      var n := (s.echoes + 1) % WRAP;
      && Shape(Mcu(s))
      && Mcu(Mcu(s)) == s.(dbgLast := s.pc.cmd, echoes := n, dbgCount := n, pc := Test(s.pc.snap, s.pc.ch + 1))
  {}

  lemma {:induction false} TurnsAdd(s: Sys, m: nat, n: nat)
    requires Shape(s)
    ensures Shape(McuTurns(s, m)) && McuTurns(s, m + n) == McuTurns(McuTurns(s, m), n)
    decreases m
  {
    hide Mcu;
    if m > 0 {
      McuShape(s);
      TurnsAdd(Mcu(s), m - 1, n);
    }
  }

  /** Serving one channel of the pass, left alone by the A7. */
  lemma ServeOne(s: Sys) returns (n: nat)
    requires Shape(s) && s.pc.Test? && s.pc.ch < NUM_CHANS
    ensures
      var r := McuTurns(s, n);
      && r.pc == Test(s.pc.snap, s.pc.ch + 1)
      && r.chans == (if s.pc.snap[s.pc.ch] then s.chans[s.pc.ch := Answered(s.chans[s.pc.ch])] else s.chans)
  {
    if !s.pc.snap[s.pc.ch] {
      n := 1;
      McuShape(s);
      assert McuTurns(s, 1) == McuTurns(Mcu(s), 0);
    } else {
      hide McuTurns, Mcu;
      ServeFetch(s);
      TurnsAdd(s, 4, 4);
      ServeFinish(McuTurns(s, 4));
      n := 8;
    }
  }

  lemma {:induction false} FinishPass(s: Sys) returns (n: nat)
    requires Shape(s) && s.pc.Test?
    ensures
      var r := McuTurns(s, n);
      && Shape(r) && r.pc == Head
      && forall c | 0 <= c < NUM_CHANS ::
           r.chans[c] == if c >= s.pc.ch && s.pc.snap[c] then Answered(s.chans[c]) else s.chans[c]
    decreases NUM_CHANS - s.pc.ch
  {
    if s.pc.ch == NUM_CHANS {
      n := 1;
      McuShape(s);
      assert McuTurns(s, 1) == McuTurns(Mcu(s), 0);
    } else {
      hide McuTurns;
      var m := ServeOne(s);
      TurnsAdd(s, m, 0);
      var rest := FinishPass(McuTurns(s, m));
      TurnsAdd(s, m, rest);
      n := m + rest;
    }
  }

  /** One pass of the loop echoes and acknowledges every message waiting at its head
      and touches no other channel. */
  lemma PassAnswersAll(s: Sys) returns (n: nat)
    requires Shape(s) && s.pc.Head?
    ensures
      var r := McuTurns(s, n);
      && Shape(r) && r.pc == Head
      && forall c | 0 <= c < NUM_CHANS :: r.chans[c] == if s.chans[c].status then Answered(s.chans[c]) else s.chans[c]
  {
    McuShape(s);
    var m := FinishPass(Mcu(s));
    n := m + 1;
    assert McuTurns(s, n) == McuTurns(Mcu(s), m);
  }

  lemma TurnsUnfold(s: Sys)
    requires Shape(s)
    ensures Shape(Mcu(s)) && Shape(Mcu(Mcu(s))) && Shape(Mcu(Mcu(Mcu(s)))) && Shape(Mcu(Mcu(Mcu(Mcu(s)))))
    ensures forall n: nat :: McuTurns(s, n + 4) == McuTurns(Mcu(Mcu(Mcu(Mcu(s)))), n)
  {
    hide Mcu;
    McuShape(s);
    McuShape(Mcu(s));
    McuShape(Mcu(Mcu(s)));
    McuShape(Mcu(Mcu(Mcu(s))));
    forall n: nat ensures McuTurns(s, n + 4) == McuTurns(Mcu(Mcu(Mcu(Mcu(s)))), n) {
      assert McuTurns(s, n + 4) == McuTurns(Mcu(s), n + 3);
      assert McuTurns(Mcu(s), n + 3) == McuTurns(Mcu(Mcu(s)), n + 2);
      assert McuTurns(Mcu(Mcu(s)), n + 2) == McuTurns(Mcu(Mcu(Mcu(s))), n + 1);
    }
  }

  // ----- both conditions are needed

  /** What the A7 reads back when it follows its program on channel `c`. */
  function ReadBack(s: Sys, c: nat): Exchange
    requires Shape(s) && c < NUM_CHANS && s.chans[c].phase.Posted?
  {
    Exchange(s.chans[c].phase.cmd, s.chans[c].phase.dat, s.chans[c].bCmd, s.chans[c].bDat)
  }

  /** If the doorbell is the register written first, a core that is quick enough
      echoes the other register's old value: for every idle channel 0 at the head of
      the loop and every pair to post, the A7 reads back what was there before. */
  lemma BellFirstEchoesOldValue(s: Sys, cmd: U32, dat: U32) returns (n: nat)
    requires Shape(s) && s.pc.Head? && s.inten && s.wiring.first == s.wiring.bell
    requires s.chans[0].phase.Free? && !s.chans[0].status
    ensures
      var rung := Do(s, WriteFirst(0, cmd, dat));
      && Shape(rung)
      && var echoed := McuTurns(rung, n);
      && Shape(echoed) && Enabled(echoed, WriteSecond(0))
      && var done := Do(echoed, WriteSecond(0));
      && Shape(done) && !done.chans[0].status
      && ReadBack(done, 0) == if s.wiring.bell == Cmd then Exchange(cmd, dat, cmd, s.chans[0].aDat)
                              else Exchange(cmd, dat, s.chans[0].aCmd, dat)
  {
    hide McuTurns;
    var rung := Do(s, WriteFirst(0, cmd, dat));
    n := PassAnswersAll(rung);
    TurnsKeepWiring(rung, n);
  }

  lemma {:induction false} TurnsKeepWiring(s: Sys, n: nat)
    requires Shape(s)
    ensures McuTurns(s, n).wiring == s.wiring
    decreases n
  {
    if n > 0 {
      McuShape(s);
      TurnsKeepWiring(Mcu(s), n - 1);
    }
  }

  /** Nor may the A7 go by its own bell if the command register rings it: from every
      idle loop head, a post heard right after the core's first reply write reads the
      data word that was there before. */
  lemma EarlyBellReadsOldData(s: Sys, cmd: U32, dat: U32)
    requires Shape(s) && s.pc.Head? && s.inten && s.wiring.first != s.wiring.bell && s.wiring.reply == Cmd
    requires s.chans[0].phase.Free? && !s.chans[0].status && !s.chans[0].heard
    ensures
      var half := Do(s, WriteFirst(0, cmd, dat));
      && Shape(half)
      && var rung := Do(half, WriteSecond(0));
      && Shape(rung)
      && var told := McuTurns(rung, 5);
      && Shape(told) && Enabled(told, Hear(0)) && told.chans[0].heard
      && ReadBack(told, 0) == Exchange(cmd, dat, cmd, s.chans[0].bDat)
  {
    var half := Do(s, WriteFirst(0, cmd, dat));
    var rung := Do(half, WriteSecond(0));
    assert rung.pc.Head? && rung.chans[0].status && rung.chans[0].aCmd == cmd && rung.chans[0].clean;
    assert rung.chans[0].bDat == s.chans[0].bDat && rung.wiring == s.wiring && rung.chans[0].phase == Posted(cmd, dat);
    hide Do;
    TurnAtHead(rung);
    var p := Mcu(rung);
    hide Mcu, McuTurns;
    TurnsAdd(rung, 1, 4);
    OneTurn(rung);
    ServeFetch(p);
  }

  lemma TurnAtHead(s: Sys)
    requires Shape(s) && s.pc.Head?
    ensures
      var p := Mcu(s);
      && Shape(p) && p.pc.Test? && p.pc.ch == 0 && p.pc.snap[0] == s.chans[0].status
      && p.chans == s.chans && p.wiring == s.wiring
  {}

  lemma OneTurn(s: Sys)
    requires Shape(s)
    ensures Shape(Mcu(s)) && McuTurns(s, 1) == Mcu(s)
  {
    McuShape(s);
    assert McuTurns(s, 1) == McuTurns(Mcu(s), 0);
  }

  /** The liveness word goes up before the doorbell is enabled: an A7 that takes it as
      "ready" can post into the gap. The bit never rises, so the A7 sees it clear at
      once and takes whatever the reply registers held for the echo. */
  lemma LivenessWordIsTooEarly(s: Sys, cmd: U32, dat: U32)
    requires Initial(s)
    ensures
      var up := Mcu(s);
      && Shape(up) && up.dbgState == STATE_MBOX && !up.inten
      && Enabled(up, WriteFirst(0, cmd, dat))
      && var half := Do(up, WriteFirst(0, cmd, dat));
      && Shape(half) && Enabled(half, WriteSecond(0))
      && var done := Do(half, WriteSecond(0));
      && Shape(done) && !done.chans[0].status
      && ReadBack(done, 0) == Exchange(cmd, dat, s.chans[0].bCmd, s.chans[0].bDat)
  {}
}
