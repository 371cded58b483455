/** Framebuffer and vblank references of the display controller, shared by commit
    code, asynchronous updates, the interrupt handler and the release worker.
    Every access that is atomic in the driver is one step; any number of callers
    and the worker may be between any two steps. The handler is one interrupt
    line's, so it does not overlap itself. */
module VopFlip {
  import opened Basics

  type Fb = nat

  /** One framebuffer on its way out, by the number of the call that retires it: the
      same framebuffer may be queued many times, even at once. */
  datatype Flip = Flip(call: nat, fb: Fb)

  /** The handler's next access. */
  datatype Isr = AtEvent | AtTest | AtCommit

  datatype State = State(
    vblank: int,               // vblank references the driver holds
    event: bool,               // vop->event is set
    pending: bool,             // VOP_PENDING_FB_UNREF
    calls: nat,                // retiring calls so far
    held: multiset<Flip>,      // framebuffer references the driver holds
    fetched: multiset<Flip>,   // callers that took a framebuffer reference
    counted: multiset<Flip>,   // ... and called vblank_get
    late: multiset<Flip>,      // ... and queued, and have not set the bit
    queued: multiset<Flip>,    // on the flip work, not committed
    isr: Isr,
    passes: nat,               // handler runs completed
    committed: multiset<Flip>, // handed to the worker
    putting: multiset<Flip>,   // worker dropped the vblank reference
    released: multiset<Flip>,  // worker dropped the framebuffer reference
    everQueued: multiset<Flip>,
    missed: nat,               // vblank_get calls that failed
    lost: nat)                 // events overwritten while still set

  const NONE: multiset<Flip> := multiset{}

  const IDLE := State(0, false, false, 0, NONE, NONE, NONE, NONE, NONE, AtEvent, 0, NONE, NONE, NONE, NONE, 0, 0)

  datatype Step =
    | FlushEvent(ok: bool)
    | GetFb(fb: Fb)
    | GetVblank(x: Flip, ok: bool)
    | Queue(x: Flip)
    | SetPending(x: Flip)
    | IsrEvent
    | IsrTestAndClear
    | IsrCommit
    | PutVblank(x: Flip)
    | PutFb(x: Flip)

  predicate Enabled(s: State, t: Step) {
    match t
    case FlushEvent(_) => true
    case GetFb(_) => true
    case GetVblank(x, _) => x in s.fetched
    case Queue(x) => x in s.counted
    case SetPending(x) => x in s.late
    case IsrEvent => s.isr == AtEvent
    case IsrTestAndClear => s.isr == AtTest
    case IsrCommit => s.isr == AtCommit
    case PutVblank(x) => x in s.committed
    case PutFb(x) => x in s.putting
  }

  function Put(m: multiset<Flip>, x: Flip): multiset<Flip> { m + multiset{x} }

  function Take(m: multiset<Flip>, x: Flip): multiset<Flip> { m - multiset{x} }

  function Get(s: State, ok: bool): State {
    if ok then s.(vblank := s.vblank + 1) else s.(missed := s.missed + 1)
  }

  function Do(s: State, t: Step): State
    requires Enabled(s, t)
  {
    match t
    case FlushEvent(ok) => Get(s, ok).(event := true, lost := s.lost + if s.event then 1 else 0)
    case GetFb(fb) =>
      var x := Flip(s.calls, fb);
      s.(calls := s.calls + 1, held := Put(s.held, x), fetched := Put(s.fetched, x))
    case GetVblank(x, ok) => Get(s, ok).(fetched := Take(s.fetched, x), counted := Put(s.counted, x))
    case Queue(x) =>
      s.(counted := Take(s.counted, x), queued := Put(s.queued, x), everQueued := Put(s.everQueued, x),
         late := Put(s.late, x))
    case SetPending(x) => s.(late := Take(s.late, x), pending := true)
    case IsrEvent =>
      (if s.event then s.(vblank := s.vblank - 1, event := false) else s).(isr := AtTest)
    case IsrTestAndClear =>
      if s.pending then s.(pending := false, isr := AtCommit) else s.(isr := AtEvent, passes := s.passes + 1)
    case IsrCommit =>
      s.(committed := s.committed + s.queued, queued := NONE, isr := AtEvent, passes := s.passes + 1)
    case PutVblank(x) =>
      s.(vblank := s.vblank - 1, committed := Take(s.committed, x), putting := Put(s.putting, x))
    case PutFb(x) =>
      s.(held := Take(s.held, x), putting := Take(s.putting, x), released := Put(s.released, x))
  }

  predicate AllEnabled(s: State, ts: seq<Step>)
    decreases |ts|
  {
    ts == [] || (Enabled(s, ts[0]) && AllEnabled(Do(s, ts[0]), ts[1..]))
  }

  function Run(s: State, ts: seq<Step>): State
    requires AllEnabled(s, ts)
    decreases |ts|
  {
    if ts == [] then s else Run(Do(s, ts[0]), ts[1..])
  }

  // ----- what every interleaving keeps

  function One(b: bool): int { if b then 1 else 0 }

  predicate CountsMatch(s: State) {
    s.vblank + s.missed == |s.counted| + |s.queued| + |s.committed| + One(s.event) + s.lost
  }

  /** Where the reference of one flip is. */
  predicate HeldAt(s: State, f: Flip) {
    s.held[f] == s.fetched[f] + s.counted[f] + s.queued[f] + s.committed[f] + s.putting[f]
  }

  /** What became of one flip since it was queued. */
  predicate OnceAt(s: State, f: Flip) {
    s.everQueued[f] == s.queued[f] + s.committed[f] + s.putting[f] + s.released[f]
  }

  /** A call makes one flip, and queues it once. */
  predicate UniqueAt(s: State, f: Flip) {
    && s.fetched[f] + s.counted[f] + s.everQueued[f] <= 1
    && (f.call >= s.calls ==> s.fetched[f] + s.counted[f] + s.everQueued[f] == 0)
    && s.late[f] <= s.everQueued[f]
  }

  /** Once its call has returned, a flip still on the queue has the pending bit set or
      the handler about to commit, whatever other callers are doing. */
  predicate BitAt(s: State, f: Flip) {
    s.queued[f] > 0 && s.late[f] == 0 ==> s.pending || s.isr == AtCommit
  }

  predicate FlipOk(s: State, f: Flip) { HeldAt(s, f) && OnceAt(s, f) && UniqueAt(s, f) && BitAt(s, f) }

  ghost predicate Inv(s: State) { CountsMatch(s) && forall f: Flip :: FlipOk(s, f) }

  lemma PutCount(m: multiset<Flip>, x: Flip, f: Flip)
    ensures Put(m, x)[f] == m[f] + if f == x then 1 else 0
  {}

  lemma TakeCount(m: multiset<Flip>, x: Flip, f: Flip)
    requires x in m
    ensures Take(m, x)[f] == m[f] - if f == x then 1 else 0
  {}

  lemma PutSize(m: multiset<Flip>, x: Flip)
    ensures |Put(m, x)| == |m| + 1
  {}

  lemma TakeSize(m: multiset<Flip>, x: Flip)
    requires x in m
    ensures |Take(m, x)| == |m| - 1
  {}

  lemma TakeBack(m: multiset<Flip>, x: Flip)
    ensures x in Put(m, x) && Take(Put(m, x), x) == m
  {}

  lemma PutAfter(m: multiset<Flip>, k: multiset<Flip>, x: Flip)
    ensures Put(m + k, x) == m + Put(k, x) && Put(k, x) != NONE
  {}

  lemma StepKeepsCounts(s: State, t: Step)
    requires CountsMatch(s) && Enabled(s, t)
    ensures CountsMatch(Do(s, t))
  {
    hide Put, Take;
    match t
    case GetVblank(x, _) => PutSize(s.counted, x);
    case Queue(x) => TakeSize(s.counted, x); PutSize(s.queued, x);
    case PutVblank(x) => TakeSize(s.committed, x);
    case _ =>
  }

  lemma StepKeepsFlip(s: State, t: Step, f: Flip)
    requires FlipOk(s, f) && Enabled(s, t)
    ensures FlipOk(Do(s, t), f)
  {
    hide Put, Take;
    match t
    case GetFb(fb) =>
      PutCount(s.held, Flip(s.calls, fb), f);
      PutCount(s.fetched, Flip(s.calls, fb), f);
    case GetVblank(x, _) =>
      TakeCount(s.fetched, x, f);
      PutCount(s.counted, x, f);
    case Queue(x) =>
      TakeCount(s.counted, x, f);
      PutCount(s.queued, x, f);
      PutCount(s.everQueued, x, f);
      PutCount(s.late, x, f);
    case SetPending(x) => TakeCount(s.late, x, f);
    case PutVblank(x) =>
      TakeCount(s.committed, x, f);
      PutCount(s.putting, x, f);
    case PutFb(x) => PutFbKeepsFlip(s, x, f);
    case _ =>
  }

  lemma PutFbKeepsFlip(s: State, x: Flip, f: Flip)
    requires FlipOk(s, f) && x in s.putting
    ensures FlipOk(Do(s, PutFb(x)), f)
  {
    hide Put, Take;
    TakeCount(s.putting, x, f);
    PutCount(s.released, x, f);
    if x in s.held {
      TakeCount(s.held, x, f);
    } else {
      assert f != x;
      NothingTaken(s.held, x);
    }
  }

  lemma NothingTaken(m: multiset<Flip>, x: Flip)
    requires x !in m
    ensures Take(m, x) == m
  {}

  lemma StepKeepsInv(s: State, t: Step)
    requires Inv(s) && Enabled(s, t)
    ensures Inv(Do(s, t))
  {
    hide CountsMatch, FlipOk, Do;
    StepKeepsCounts(s, t);
    forall f: Flip ensures FlipOk(Do(s, t), f) {
      StepKeepsFlip(s, t, f);
    }
  }

  lemma {:induction false} RunKeepsInv(s: State, ts: seq<Step>)
    requires Inv(s) && AllEnabled(s, ts)
    ensures Inv(Run(s, ts))
    decreases |ts|
  {
    hide Inv, Do, Enabled;
    if ts != [] {
      StepKeepsInv(s, ts[0]);
      RunKeepsInv(Do(s, ts[0]), ts[1..]);
    }
  }

  /** Nobody is between two of its steps. */
  predicate Quiescent(s: State) {
    s.fetched == NONE && s.counted == NONE && s.late == NONE && s.isr == AtEvent && s.putting == NONE
  }

  /** In every state of every interleaving: the vblank references are those of the
      calls that have taken theirs and whose flip is not released, plus one for a
      pending event, off by the events overwritten less the gets that failed (none and
      none, in a sound run); framebuffer references likewise; each flip is queued
      at most once, and then is waiting or was released, once; and one on the queue
      whose call has returned has the pending bit set or the handler about to commit. */
  lemma ReferencesAccounted(ts: seq<Step>)
    requires AllEnabled(IDLE, ts)
    ensures
      var s := Run(IDLE, ts);
      && s.vblank == |s.counted| + |s.queued| + |s.committed| + One(s.event) + s.lost - s.missed
      && s.held == s.fetched + s.counted + s.queued + s.committed + s.putting
      && s.everQueued == s.queued + s.committed + s.putting + s.released
      && (forall f: Flip :: s.everQueued[f] <= 1)
      && (forall f: Flip | f in s.queued && f !in s.late :: s.pending || s.isr == AtCommit)
  {
    InvIdle();
    RunKeepsInv(IDLE, ts);
    hide Run, AllEnabled;
    var s := Run(IDLE, ts);
    forall f: Flip
      ensures s.held[f] == (s.fetched + s.counted + s.queued + s.committed + s.putting)[f]
      ensures s.everQueued[f] == (s.queued + s.committed + s.putting + s.released)[f]
      ensures s.everQueued[f] <= 1
      ensures f in s.queued && f !in s.late ==> s.pending || s.isr == AtCommit
    {
      assert FlipOk(s, f);
    }
  }

  lemma InvIdle()
    ensures Inv(IDLE)
  {
    assert forall f: Flip :: FlipOk(IDLE, f);
  }

  /** So with nobody in between: references are the unreleased framebuffers and the
      event, and anything uncommitted has the bit set. */
  lemma QuiescentReferences(ts: seq<Step>)
    requires AllEnabled(IDLE, ts) && Quiescent(Run(IDLE, ts))
    ensures
      var s := Run(IDLE, ts);
      && s.vblank == |s.held| + One(s.event) + s.lost - s.missed
      && s.held == s.queued + s.committed && s.everQueued == s.held + s.released
      && (s.queued != NONE ==> s.pending)
  {
    ReferencesAccounted(ts);
    hide Run, AllEnabled;
    var s := Run(IDLE, ts);
    assert |s.held| == |s.queued| + |s.committed|;
    if s.queued != NONE {
      var f :| f in s.queued;
      assert f !in s.late;
    }
  }

  /** Both causes are real: after one failed get the event's put drives the count
      below zero; after one overwritten event a reference stays with no owner. */
  lemma CountCanGoWrong()
    ensures AllEnabled(IDLE, [FlushEvent(false), IsrEvent])
    ensures
      var s := Run(IDLE, [FlushEvent(false), IsrEvent]);
      s.vblank == -1 && s.missed == 1 && s.lost == 0 && s.held == NONE && !s.event
    ensures AllEnabled(IDLE, [FlushEvent(true), FlushEvent(true)] + [IsrEvent])
    ensures
      var s := Run(IDLE, [FlushEvent(true), FlushEvent(true)] + [IsrEvent]);
      s.vblank == 1 && s.missed == 0 && s.lost == 1 && s.held == NONE && !s.event
  {
    var a := Do(IDLE, FlushEvent(false));
    assert AllEnabled(Do(a, IsrEvent), []);
    TwoSteps(IDLE, FlushEvent(false), IsrEvent, []);
    assert [FlushEvent(false), IsrEvent] + [] == [FlushEvent(false), IsrEvent];
    var c := Do(Do(IDLE, FlushEvent(true)), FlushEvent(true));
    assert [IsrEvent][1..] == [];
    assert AllEnabled(Do(c, IsrEvent), []) && AllEnabled(c, [IsrEvent]);
    TwoSteps(IDLE, FlushEvent(true), FlushEvent(true), [IsrEvent]);
    assert Run(c, [IsrEvent]) == Run(Do(c, IsrEvent), []);
  }

  // ----- the next vblank

  /** Queued at some time, and no longer waiting for a handler. */
  predicate Gone(s: State, f: Flip) { f in s.everQueued && f !in s.queued }

  /** Handed over, or its call has returned and `n` handler runs have completed. */
  predicate OnItsWay(s: State, f: Flip, n: nat) {
    Gone(s, f) || (f in s.everQueued && f !in s.late && s.passes == n)
  }

  lemma StepOnItsWay(s: State, t: Step, f: Flip, n: nat)
    requires FlipOk(s, f) && Enabled(s, t) && OnItsWay(s, f, n)
    ensures OnItsWay(Do(s, t), f, n)
  {
    hide Put, Take;
    match t
    case Queue(x) =>
      TakeCount(s.counted, x, f);
      PutCount(s.queued, x, f);
      PutCount(s.everQueued, x, f);
      PutCount(s.late, x, f);
    case SetPending(x) => TakeCount(s.late, x, f);
    case _ =>
  }

  lemma {:induction false} RunOnItsWay(s: State, ts: seq<Step>, f: Flip, n: nat)
    requires Inv(s) && AllEnabled(s, ts) && OnItsWay(s, f, n)
    ensures Inv(Run(s, ts)) && OnItsWay(Run(s, ts), f, n)
    decreases |ts|
  {
    hide Do, Enabled, FlipOk, OnItsWay, CountsMatch;
    if ts != [] {
      StepKeepsInv(s, ts[0]);
      assert FlipOk(s, f);
      StepOnItsWay(s, ts[0], f, n);
      RunOnItsWay(Do(s, ts[0]), ts[1..], f, n);
    }
  }

  /** The next vblank commits: after any run, take any flip whose queuing call has
      returned; in any continuation in which the handler completes a run, that flip has
      left the queue for the worker. Other callers, the worker and the handler may be
      anywhere, at the start and throughout. */
  lemma VblankCommits(ts: seq<Step>, us: seq<Step>, f: Flip)
    requires AllEnabled(IDLE, ts) && AllEnabled(Run(IDLE, ts), us)
    requires f in Run(IDLE, ts).everQueued && f !in Run(IDLE, ts).late
    requires Run(Run(IDLE, ts), us).passes > Run(IDLE, ts).passes
    ensures
      var r := Run(Run(IDLE, ts), us);
      f !in r.queued && f in r.committed + r.putting + r.released
  {
    InvIdle();
    RunKeepsInv(IDLE, ts);
    var s := Run(IDLE, ts);
    RunOnItsWay(s, us, f, s.passes);
    hide Run, AllEnabled;
    var r := Run(s, us);
    assert Gone(r, f);
    assert FlipOk(r, f);
  }

  /** The condition on the call is needed: a handler may pass between a caller's last
      two steps and leave its flip behind. */
  lemma LateFlipMissed(fb: Fb)
    ensures
      var x := Flip(0, fb);
      var ts := [GetFb(fb), GetVblank(x, true)] + ([Queue(x), IsrEvent] + [IsrTestAndClear]);
      AllEnabled(IDLE, ts) && Run(IDLE, ts).passes == 1 && x in Run(IDLE, ts).queued
  {
    var x := Flip(0, fb);
    var s2 := Do(Do(IDLE, GetFb(fb)), GetVblank(x, true));
    var s4 := Do(Do(s2, Queue(x)), IsrEvent);
    assert [IsrTestAndClear][1..] == [];
    assert AllEnabled(Do(s4, IsrTestAndClear), []) && AllEnabled(s4, [IsrTestAndClear]);
    assert Run(s4, [IsrTestAndClear]) == Run(Do(s4, IsrTestAndClear), []);
    TwoSteps(s2, Queue(x), IsrEvent, [IsrTestAndClear]);
    TwoSteps(IDLE, GetFb(fb), GetVblank(x, true), [Queue(x), IsrEvent] + [IsrTestAndClear]);
  }

  // ----- the worker

  /** The worker can then release all of it: every flip ever queued ends up released,
      and no reference but the event's is left. */
  lemma {:induction false} WorkerDrains(s: State) returns (ts: seq<Step>)
    requires Inv(s) && Quiescent(s) && s.queued == NONE
    ensures AllEnabled(s, ts)
    ensures
      var t := Run(s, ts);
      && Inv(t) && Quiescent(t) && t.held == NONE && t.released == s.everQueued
      && t.vblank == s.vblank - |s.committed|
    decreases |s.committed|
  {
    hide Inv, Do, AllEnabled, Run;
    if s.committed == NONE {
      ts := [];
      NothingHeld(s);
    } else {
      var x :| x in s.committed;
      var s2 := ReleaseOne(s, x);
      var rest := WorkerDrains(s2);
      ts := [PutVblank(x), PutFb(x)] + rest;
      TwoSteps(s, PutVblank(x), PutFb(x), rest);
    }
  }

  lemma NothingHeld(s: State)
    requires Inv(s) && Quiescent(s) && s.queued == NONE && s.committed == NONE
    ensures s.held == NONE && s.released == s.everQueued && AllEnabled(s, []) && Run(s, []) == s
  {
    forall f: Flip ensures s.held[f] == 0 && s.released[f] == s.everQueued[f] {
      assert FlipOk(s, f);
    }
  }

  lemma ReleaseOne(s: State, x: Flip) returns (s2: State)
    requires Inv(s) && Quiescent(s) && s.queued == NONE && x in s.committed
    ensures Enabled(s, PutVblank(x)) && Enabled(Do(s, PutVblank(x)), PutFb(x))
    ensures s2 == Do(Do(s, PutVblank(x)), PutFb(x))
    ensures Inv(s2) && Quiescent(s2) && s2.queued == NONE && s2.everQueued == s.everQueued
    ensures |s2.committed| == |s.committed| - 1 && s2.vblank == s.vblank - 1
  {
    hide Inv;
    var s1 := Do(s, PutVblank(x));
    StepKeepsInv(s, PutVblank(x));
    s2 := Do(s1, PutFb(x));
    StepKeepsInv(s1, PutFb(x));
    assert s2.putting == NONE;
  }

  lemma TwoSteps(s: State, t: Step, u: Step, rest: seq<Step>)
    requires Enabled(s, t) && Enabled(Do(s, t), u) && AllEnabled(Do(Do(s, t), u), rest)
    ensures AllEnabled(s, [t, u] + rest) && Run(s, [t, u] + rest) == Run(Do(Do(s, t), u), rest)
  {
    hide Do, Enabled;
    var ts := [t, u] + rest;
    assert ts[1..] == [u] + rest && ts[1..][1..] == rest;
    assert AllEnabled(Do(s, t), ts[1..]);
  }

  // ----- the callers, in program order

  datatype Plane = Plane(oldFb: Option<Fb>, newFb: Option<Fb>)

  /** The flips of the planes at `leaving`, numbered from `call` on. */
  function Flips(planes: seq<Plane>, leaving: seq<nat>, call: nat): multiset<Flip>
    requires forall k | 0 <= k < |leaving| :: leaving[k] < |planes| && planes[leaving[k]].oldFb.Some?
  {
    multiset(seq(|leaving|, k requires 0 <= k < |leaving| => Flip(call + k, planes[leaving[k]].oldFb.value)))
  }

  /** `leaving` lists, in order, the first `n` planes whose framebuffer is going away:
      those that had one and now have another or none. */
  predicate Lists(planes: seq<Plane>, n: nat, leaving: seq<nat>)
    requires n <= |planes|
  {
    && (forall k | 0 <= k < |leaving| ::
          leaving[k] < n && planes[leaving[k]].oldFb.Some? && planes[leaving[k]].newFb != planes[leaving[k]].oldFb)
    && (forall i | 0 <= i < n && planes[i].oldFb.Some? && planes[i].newFb != planes[i].oldFb :: i in leaving)
    && (forall k, l | 0 <= k < l < |leaving| :: leaving[k] < leaving[l])
  }

  lemma FlipsSnoc(planes: seq<Plane>, leaving: seq<nat>, i: nat, call: nat)
    requires forall k | 0 <= k < |leaving| :: leaving[k] < |planes| && planes[leaving[k]].oldFb.Some?
    requires i < |planes| && planes[i].oldFb.Some?
    ensures Flips(planes, leaving + [i], call) ==
            Put(Flips(planes, leaving, call), Flip(call + |leaving|, planes[i].oldFb.value))
    ensures |Flips(planes, leaving, call)| == |leaving|
  {
    var more := leaving + [i];
    var fs := seq(|leaving|, k requires 0 <= k < |leaving| => Flip(call + k, planes[leaving[k]].oldFb.value));
    var gs := seq(|more|, k requires 0 <= k < |more| => Flip(call + k, planes[more[k]].oldFb.value));
    assert gs == fs + [Flip(call + |leaving|, planes[i].oldFb.value)];
  }

  /** So every framebuffer is queued as often as a plane gives it up, and one that every
      plane keeps is not queued at all. */
  lemma {:induction false} EachGivenUpOnce(planes: seq<Plane>, leaving: seq<nat>, call: nat, fb: Fb)
    requires Lists(planes, |planes|, leaving)
    ensures (forall x | x in Flips(planes, leaving, call) && x.fb == fb ::
               exists i | 0 <= i < |planes| :: planes[i].oldFb == Some(fb) && planes[i].newFb != Some(fb))
    ensures forall i | 0 <= i < |planes| && planes[i].oldFb == Some(fb) && planes[i].newFb != Some(fb) ::
              exists k | 0 <= k < |leaving| :: leaving[k] == i && Flip(call + k, fb) in Flips(planes, leaving, call)
    ensures |Flips(planes, leaving, call)| ==
            |set i | 0 <= i < |planes| && planes[i].oldFb.Some? && planes[i].newFb != planes[i].oldFb|
  {
    var fs := seq(|leaving|, k requires 0 <= k < |leaving| => Flip(call + k, planes[leaving[k]].oldFb.value));
    forall x | x in Flips(planes, leaving, call) && x.fb == fb
      ensures exists i | 0 <= i < |planes| :: planes[i].oldFb == Some(fb) && planes[i].newFb != Some(fb)
    {
      var k :| 0 <= k < |fs| && fs[k] == x;
      assert planes[leaving[k]].oldFb == Some(fb);
    }
    forall i | 0 <= i < |planes| && planes[i].oldFb == Some(fb) && planes[i].newFb != Some(fb)
      ensures exists k | 0 <= k < |leaving| :: leaving[k] == i && Flip(call + k, fb) in Flips(planes, leaving, call)
    {
      var k :| 0 <= k < |leaving| && leaving[k] == i;
      assert fs[k] == Flip(call + k, fb);
    }
    assert |multiset(fs)| == |fs|;
    var going := set i | 0 <= i < |planes| && planes[i].oldFb.Some? && planes[i].newFb != planes[i].oldFb;
    assert going == set k | 0 <= k < |leaving| :: leaving[k];
    DistinctCount(leaving);
  }

  lemma {:induction false} DistinctCount(xs: seq<nat>)
    requires forall k, l | 0 <= k < l < |xs| :: xs[k] < xs[l]
    ensures |set k | 0 <= k < |xs| :: xs[k]| == |xs|
    decreases |xs|
  {
    if xs != [] {
      var last := |xs| - 1;
      DistinctCount(xs[..last]);
      var front := set k | 0 <= k < last :: xs[..last][k];
      assert (set k | 0 <= k < |xs| :: xs[k]) == front + {xs[last]};
      assert xs[last] !in front;
    }
  }

  /** Queue one framebuffer for release: the four calls the driver makes. */
  method Retire(s: State, fb: Fb) returns (r: State)
    requires Inv(s)
    ensures Inv(r)
    ensures
      var x := Flip(s.calls, fb);
      r == s.(calls := s.calls + 1, vblank := s.vblank + 1, held := Put(s.held, x), queued := Put(s.queued, x),
              everQueued := Put(s.everQueued, x), pending := true)
  {
    hide Inv, Do;
    var x := Flip(s.calls, fb);
    RetireSteps(s, fb);
    StepKeepsInv(s, GetFb(fb));
    r := Do(s, GetFb(fb));
    StepKeepsInv(r, GetVblank(x, true));
    r := Do(r, GetVblank(x, true));
    StepKeepsInv(r, Queue(x));
    r := Do(r, Queue(x));
    StepKeepsInv(r, SetPending(x));
    r := Do(r, SetPending(x));
  }

  lemma RetireSteps(s: State, fb: Fb)
    ensures
      var x := Flip(s.calls, fb);
      var s1 := Do(s, GetFb(fb));
      && Enabled(s1, GetVblank(x, true))
      && var s2 := Do(s1, GetVblank(x, true));
      && Enabled(s2, Queue(x))
      && var s3 := Do(s2, Queue(x));
      && Enabled(s3, SetPending(x))
      && Do(s3, SetPending(x)) ==
         s.(calls := s.calls + 1, vblank := s.vblank + 1, held := Put(s.held, x), queued := Put(s.queued, x),
            everQueued := Put(s.everQueued, x), pending := true)
  {
    hide Put, Take;
    var x := Flip(s.calls, fb);
    TakeBack(s.fetched, x);
    TakeBack(s.counted, x);
    TakeBack(s.late, x);
  }

  /** `vop_crtc_atomic_flush`, uninterrupted and with working vblank gets: the event
      moves in; exactly the planes whose framebuffer is going away have it queued, held
      and counted, each by a call of its own, and the pending bit covers them. */
  method Flush(s: State, hasEvent: bool, planes: seq<Plane>) returns (r: State, ghost leaving: seq<nat>)
    requires Inv(s)
    ensures Inv(r) && Lists(planes, |planes|, leaving)
    ensures r.queued == s.queued + Flips(planes, leaving, s.calls)
    ensures r.held == s.held + Flips(planes, leaving, s.calls)
    ensures r.vblank == s.vblank + One(hasEvent) + |leaving| && r.calls == s.calls + |leaving|
    ensures r.event == (s.event || hasEvent) && r.committed == s.committed && r.released == s.released
    ensures r.late == s.late && (leaving != [] ==> r.pending) && (leaving == [] ==> r.pending == s.pending)
    ensures r.lost == s.lost + One(hasEvent && s.event)
  {
    hide Inv;
    r := s;
    if hasEvent {
      StepKeepsInv(r, FlushEvent(true));
      r := Do(r, FlushEvent(true));
    }
    r, leaving := FlushPlanes(r, planes);
  }

  /** The plane loop of the flush. */
  method FlushPlanes(s: State, planes: seq<Plane>) returns (r: State, ghost leaving: seq<nat>)
    requires Inv(s)
    ensures Inv(r) && Lists(planes, |planes|, leaving)
    ensures r.queued == s.queued + Flips(planes, leaving, s.calls)
    ensures r.held == s.held + Flips(planes, leaving, s.calls)
    ensures r.vblank == s.vblank + |leaving| && r.calls == s.calls + |leaving|
    ensures r.event == s.event && r.committed == s.committed && r.released == s.released && r.lost == s.lost
    ensures r.late == s.late && (leaving != [] ==> r.pending) && (leaving == [] ==> r.pending == s.pending)
  {
    hide Inv, Put, Flips;
    r, leaving := s, [];
    assert Flips(planes, [], s.calls) == NONE by { NoFlips(planes, s.calls); }
    for i := 0 to |planes|
      invariant Inv(r) && Lists(planes, i, leaving)
      invariant r.queued == s.queued + Flips(planes, leaving, s.calls)
      invariant r.held == s.held + Flips(planes, leaving, s.calls)
      invariant r.vblank == s.vblank + |leaving| && r.calls == s.calls + |leaving| && r.late == s.late
      invariant r.event == s.event && r.committed == s.committed && r.released == s.released && r.lost == s.lost
      invariant (leaving != [] ==> r.pending) && (leaving == [] ==> r.pending == s.pending)
    {
      if planes[i].oldFb.None? {
        continue;
      }
      if planes[i].oldFb == planes[i].newFb {
        continue;
      }
      var x := Flip(r.calls, planes[i].oldFb.value);
      var front := Flips(planes, leaving, s.calls);
      FlipsSnoc(planes, leaving, i, s.calls);
      PutAfter(s.queued, front, x);
      PutAfter(s.held, front, x);
      ListsSnoc(planes, leaving, i);
      r := Retire(r, planes[i].oldFb.value);
      leaving := leaving + [i];
    }
  }

  lemma NoFlips(planes: seq<Plane>, call: nat)
    ensures Flips(planes, [], call) == NONE
  {}

  lemma ListsSnoc(planes: seq<Plane>, leaving: seq<nat>, i: nat)
    requires i < |planes| && Lists(planes, i, leaving)
    requires planes[i].oldFb.Some? && planes[i].newFb != planes[i].oldFb
    ensures Lists(planes, i + 1, leaving + [i])
  {}

  /** `vop_plane_atomic_async_update`: the plane's framebuffer is queued exactly when the
      display is on and the plane had one and now has another or none. */
  method AsyncUpdate(s: State, isEnabled: bool, plane: Plane) returns (r: State)
    requires Inv(s)
    ensures Inv(r) && r.late == s.late
    ensures !isEnabled || plane.oldFb == None || plane.oldFb == plane.newFb ==> r == s
    ensures isEnabled && plane.oldFb != None && plane.oldFb != plane.newFb ==>
              var x := Flip(s.calls, plane.oldFb.value);
              && r.queued == s.queued + multiset{x} && r.held == s.held + multiset{x}
              && r.pending && r.vblank == s.vblank + 1
  {
    r := s;
    if isEnabled {
      if plane.oldFb.Some? && plane.newFb != plane.oldFb {
        r := Retire(r, plane.oldFb.value);
      }
    }
  }

  /** `vop_handle_vblank`: a pending event is sent and its reference dropped; if the bit
      was set it is cleared and everything queued goes to the worker. */
  method HandleVblank(s: State) returns (r: State)
    requires Inv(s) && s.isr == AtEvent
    ensures Inv(r) && r.isr == AtEvent && !r.event && !r.pending && r.passes == s.passes + 1
    ensures r.vblank == s.vblank - One(s.event)
    ensures s.pending ==> r.queued == NONE && r.committed == s.committed + s.queued
    ensures !s.pending ==> r.queued == s.queued && r.committed == s.committed
    ensures r.held == s.held && r.released == s.released && r.late == s.late
  {
    hide Inv;
    StepKeepsInv(s, IsrEvent);
    r := Do(s, IsrEvent);
    var pending := r.pending;
    StepKeepsInv(r, IsrTestAndClear);
    r := Do(r, IsrTestAndClear);
    if pending {
      StepKeepsInv(r, IsrCommit);
      r := Do(r, IsrCommit);
    }
  }

  /** `vop_fb_unref_worker` on one flip: one vblank reference and the framebuffer's. */
  method UnrefWorker(s: State, x: Flip) returns (r: State)
    requires Inv(s) && x in s.committed
    ensures Inv(r) && r.vblank == s.vblank - 1
    ensures r.committed == s.committed - multiset{x} && r.held == s.held - multiset{x}
    ensures r.released == s.released + multiset{x} && r.putting == s.putting
    ensures r.queued == s.queued && r.event == s.event && r.pending == s.pending && r.late == s.late
  {
    hide Inv;
    StepKeepsInv(s, PutVblank(x));
    r := Do(s, PutVblank(x));
    StepKeepsInv(r, PutFb(x));
    r := Do(r, PutFb(x));
    TakeBack(s.putting, x);
  }
}
