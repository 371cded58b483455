/** The watchdog's safety claims over every run. */
module HpmcuTheorems {
  import opened Basics
  import opened SimBus
  import opened Hpmcu

  // ----- the exact firing rule, stated on the history of what was read

  datatype Reading = Reading(now: nat, magic: U32, counter: U32)

  function After(start: nat, h: seq<Reading>): Mcu
    decreases |h|
  {
    if h == [] then New(start)
    else
      var r := h[|h| - 1];
      Poll(After(start, h[..|h| - 1]), r.now, r.magic, r.counter)
  }

  predicate EverArmed(h: seq<Reading>) { exists i | 0 <= i < |h| :: h[i].magic == MAGIC_ARMED }

  /** The counter read at the latest armed poll, zero before any. */
  function LastCounter(h: seq<Reading>): U32
    decreases |h|
  {
    if h == [] then 0
    else if h[|h| - 1].magic == MAGIC_ARMED then h[|h| - 1].counter
    else LastCounter(h[..|h| - 1])
  }

  /** The latest reading is armed and its counter moved. */
  predicate Beat(h: seq<Reading>) {
    h != [] && h[|h| - 1].magic == MAGIC_ARMED && h[|h| - 1].counter != LastCounter(h[..|h| - 1])
  }

  predicate StoodDown(h: seq<Reading>) { h != [] && h[|h| - 1].magic == MAGIC_DISARM }

  /** When Linux was last known alive: the start, a stand-down or a beat. */
  function LastAlive(start: nat, h: seq<Reading>): nat
    decreases |h|
  {
    if h == [] then start
    else if StoodDown(h) || Beat(h) then h[|h| - 1].now
    else LastAlive(start, h[..|h| - 1])
  }

  function GraceStart(start: nat, h: seq<Reading>): nat
    decreases |h|
  {
    if h == [] then start
    else if StoodDown(h) then h[|h| - 1].now
    else GraceStart(start, h[..|h| - 1])
  }

  /** The latest poll of `h` is overdue. */
  predicate Overdue(start: nat, h: seq<Reading>) {
    && h != []
    && !StoodDown(h)
    && var now := h[|h| - 1].now;
       if EverArmed(h) then now > LastAlive(start, h) + HEARTBEAT_TIMEOUT_S
       else now > GraceStart(start, h) + BOOT_GRACE_S
  }

  predicate Tracks(start: nat, h: seq<Reading>, m: Mcu) {
    && m.armedEver == EverArmed(h)
    && m.lastSeen == LastCounter(h)
    && m.lastChange == LastAlive(start, h)
    && m.t0 == GraceStart(start, h)
  }

  /** The MCU has fired exactly when some poll so far was overdue, and then once;
      until then its variables are the history's. Times need not be monotone. */
  lemma {:induction false} FiresIffOverdue(start: nat, h: seq<Reading>)
    ensures
      var m := After(start, h);
      && (m.fired <==> exists n | 1 <= n <= |h| :: Overdue(start, h[..n]))
      && (m.fireCount == if m.fired then 1 else 0)
      && (!m.fired ==> Tracks(start, h, m))
    decreases |h|
  {
    if h != [] {
      hide Overdue, Tracks, EverArmed, Poll;
      var last := |h| - 1;
      var front, r := h[..last], h[last];
      FiresIffOverdue(start, front);
      assert h[..|h|] == h;
      assert forall n | 0 <= n <= last :: h[..n] == front[..n];
      var m := After(start, front);
      if m.fired {
        PollAfterFire(m, r);
        var n :| 1 <= n <= last && Overdue(start, front[..n]);
        assert Overdue(start, h[..n]);
      } else {
        LastPollDecides(start, h, m);
        if After(start, h).fired {
          assert Overdue(start, h[..|h|]);
        }
      }
    }
  }

  lemma PollAfterFire(m: Mcu, r: Reading)
    requires m.fired
    ensures Poll(m, r.now, r.magic, r.counter) == m
  {}

  lemma EverArmedSnoc(h: seq<Reading>, r: Reading)
    ensures EverArmed(h + [r]) <==> EverArmed(h) || r.magic == MAGIC_ARMED
  {
    if EverArmed(h) {
      var i :| 0 <= i < |h| && h[i].magic == MAGIC_ARMED;
      assert (h + [r])[i].magic == MAGIC_ARMED;
    }
    if r.magic == MAGIC_ARMED {
      assert (h + [r])[|h|].magic == MAGIC_ARMED;
    }
  }

  lemma AfterSnoc(start: nat, h: seq<Reading>)
    requires h != []
    ensures After(start, h) == Poll(After(start, h[..|h| - 1]), h[|h| - 1].now, h[|h| - 1].magic, h[|h| - 1].counter)
  {}

  lemma LastPollDecides(start: nat, h: seq<Reading>, m: Mcu)
    requires h != [] && m == After(start, h[..|h| - 1]) && !m.fired && Tracks(start, h[..|h| - 1], m)
    ensures After(start, h).fired <==> Overdue(start, h)
    ensures After(start, h).fireCount == m.fireCount + if Overdue(start, h) then 1 else 0
    ensures !After(start, h).fired ==> Tracks(start, h, After(start, h))
  {
    hide EverArmed, After, LastCounter, LastAlive, GraceStart, Beat, StoodDown;
    AfterSnoc(start, h);
    HistorySnoc(start, h);
  }

  /** One more reading. */
  lemma HistorySnoc(start: nat, h: seq<Reading>)
    requires h != []
    ensures
      var front, r := h[..|h| - 1], h[|h| - 1];
      && (EverArmed(h) <==> EverArmed(front) || r.magic == MAGIC_ARMED)
      && LastCounter(h) == (if r.magic == MAGIC_ARMED then r.counter else LastCounter(front))
      && (StoodDown(h) <==> r.magic == MAGIC_DISARM)
      && (Beat(h) <==> r.magic == MAGIC_ARMED && r.counter != LastCounter(front))
      && LastAlive(start, h) == (if StoodDown(h) || Beat(h) then r.now else LastAlive(start, front))
      && GraceStart(start, h) == (if StoodDown(h) then r.now else GraceStart(start, front))
  {
    hide EverArmed;
    EverArmedSnoc(h[..|h| - 1], h[|h| - 1]);
    assert h == h[..|h| - 1] + [h[|h| - 1]];
  }

  /** The limits, to the second: 90 s after a beat is in time and 91 s is late; before
      any arming 300 s after the start or a stand-down is in time and 301 s is late. */
  lemma Thresholds(start: nat, at: nat, counter: U32, idle: U32, any: U32)
    requires counter != 0 && idle != 0x5741_5244 && idle != 0x4449_5341
    ensures
      var beat := Poll(New(start), at, 0x5741_5244, counter);
      && !beat.fired
      && !Poll(beat, at + 90, 0x5741_5244, counter).fired && Poll(beat, at + 91, 0x5741_5244, counter).fired
      && !Poll(beat, at + 90, idle, any).fired && Poll(beat, at + 91, idle, any).fired
    ensures !Poll(New(start), start + 300, idle, any).fired && Poll(New(start), start + 301, idle, any).fired
    ensures
      var down := Poll(New(start), at, 0x4449_5341, any);
      && !down.fired
      && !Poll(down, at + 300, idle, any).fired && Poll(down, at + 301, idle, any).fired
  {}

  // ----- a daemon that keeps beating is never reset

  /** The MCU, the shared words, and the daemon's side: how often it has beaten, when
      it last did, whether it has the watchdog armed or has stood it down; and how many
      beats there were when the MCU last saw the armed word. */
  datatype World = World(
    base: nat,
    start: nat,
    now: nat,
    mcu: Mcu,
    words: Words,
    beats: nat,
    lastBeat: nat,
    armed: bool,
    down: bool,
    seenBeats: nat)

  /** Single accesses. A beat is the counter word and then the magic word; standing
      down is the magic word alone; other writes may hit anything but those two. */
  datatype Move = Beat(at: nat) | Arm(at: nat) | Disarm(at: nat) | Other(at: nat, addr: nat, val: U32) | Tick(at: nat)

  function Boot(base: nat, start: nat, words: Words): World {
    World(base, start, start, New(start), words[base + OFF_STATE := STATE_BOOT][base + OFF_SEEN := 0],
          0, start, false, Read(words, base + OFF_MAGIC) == MAGIC_DISARM, 0)
  }

  function Do(w: World, mv: Move): World {
    var w0 := w.(now := mv.at);
    match mv
    case Beat(at) =>
      w0.(beats := w.beats + 1, lastBeat := at, words := w.words[w.base + OFF_COUNTER := (w.beats + 1) % WRAP])
    case Arm(at) => w0.(armed := true, down := false, words := w.words[w.base + OFF_MAGIC := MAGIC_ARMED])
    case Disarm(at) => w0.(armed := false, down := true, words := w.words[w.base + OFF_MAGIC := MAGIC_DISARM])
    case Other(_, addr, val) => w0.(words := w.words[addr := val])
    case Tick(at) =>
      var magic := Read(w.words, w.base + OFF_MAGIC);
      w0.(mcu := Poll(w.mcu, at, magic, Read(w.words, w.base + OFF_COUNTER)),
          words := TickWords(w.mcu, w.words, w.base, at),
          seenBeats := if magic == MAGIC_ARMED then w.beats else w.seenBeats)
  }

  /** What the daemon and the clock promise: time does not run backwards; the daemon
      has armed, after a beat, or stood down within the boot grace; while it is armed
      its last beat is never older than the timeout, so one that stood down for longer
      beats before it arms again; the counter does not lap the MCU. It may stand down
      at any time, for any time, whether or not the MCU notices. */
  predicate Kept(w: World, mv: Move) {
    && mv.at >= w.now
    && (!w.armed && !w.down ==> mv.at <= w.start + BOOT_GRACE_S)
    && (w.armed ==> mv.at <= w.lastBeat + HEARTBEAT_TIMEOUT_S)
    && (mv.Arm? ==> w.beats > 0)
    && (mv.Other? ==> mv.addr != w.base + OFF_MAGIC && mv.addr != w.base + OFF_COUNTER)
    && (mv.Tick? ==> w.beats - w.seenBeats < WRAP)
  }

  predicate AllKept(w: World, moves: seq<Move>)
    decreases |moves|
  {
    moves == [] || (Kept(w, moves[0]) && AllKept(Do(w, moves[0]), moves[1..]))
  }

  function DoAll(w: World, moves: seq<Move>): World
    decreases |moves|
  {
    if moves == [] then w else DoAll(Do(w, moves[0]), moves[1..])
  }

  predicate Alive(w: World) {
    && !w.mcu.fired && w.start <= w.mcu.t0 && w.start <= w.now
    && w.seenBeats <= w.beats && w.mcu.lastSeen == w.seenBeats % WRAP
    && (w.beats > 0 ==> Read(w.words, w.base + OFF_COUNTER) == w.beats % WRAP)
    && (w.armed <==> Read(w.words, w.base + OFF_MAGIC) == MAGIC_ARMED)
    && (w.down <==> Read(w.words, w.base + OFF_MAGIC) == MAGIC_DISARM)
    && (w.mcu.armedEver <==> w.seenBeats > 0) && (w.mcu.armedEver ==> w.armed || w.down)
    && (w.armed ==> w.beats > 0)
    && w.lastBeat <= w.now
    && (w.mcu.armedEver && w.seenBeats == w.beats ==> w.lastBeat <= w.mcu.lastChange)
  }

  lemma DistinctCounters(a: nat, b: nat)
    requires a < b < a + WRAP
    ensures a % WRAP != b % WRAP
  {}

  lemma MoveKeepsAlive(w: World, mv: Move)
    requires Alive(w) && Kept(w, mv)
    ensures Alive(Do(w, mv))
  {
    hide TickWords;
    if mv.Tick? {
      if w.seenBeats < w.beats {
        DistinctCounters(w.seenBeats, w.beats);
      }
      TickWritesOwnWords(w.mcu, w.words, w.base, mv.at);
    }
  }

  lemma {:induction false} RunKeepsAlive(w: World, moves: seq<Move>)
    requires Alive(w) && AllKept(w, moves)
    ensures Alive(DoAll(w, moves))
    decreases |moves|
  {
    hide Alive, Kept, Do;
    if moves != [] {
      MoveKeepsAlive(w, moves[0]);
      RunKeepsAlive(Do(w, moves[0]), moves[1..]);
    }
  }

  /** No boot loop: brought up on words that do not already say ARMED, under any
      interleaving in which the daemon keeps its promises, the MCU never fires. */
  lemma BeatingDaemonNeverReset(base: nat, start: nat, words: Words, moves: seq<Move>)
    requires Read(words, base + OFF_MAGIC) != MAGIC_ARMED
    requires AllKept(Boot(base, start, words), moves)
    ensures !DoAll(Boot(base, start, words), moves).mcu.fired
  {
    RunKeepsAlive(Boot(base, start, words), moves);
  }

  /** The condition on the words is needed: a stale ARMED word turns the 300 s
      boot grace into 90 s, so a daemon that is still booting is reset. */
  lemma StaleArmedWordCutsGrace(base: nat, start: nat, words: Words)
    requires Read(words, base + OFF_MAGIC) == MAGIC_ARMED
    ensures
      var moves := [Tick(start), Tick(start + 91)];
      AllKept(Boot(base, start, words), moves) && DoAll(Boot(base, start, words), moves).mcu.fired
  {
    var w := Boot(base, start, words);
    var w1 := Do(w, Tick(start));
    TickWritesOwnWords(w.mcu, w.words, base, start);
    assert w1.mcu.lastChange == start && w1.mcu.armedEver && !w1.armed && !w1.down && w1.now == start;
    assert Kept(w, Tick(start)) && Kept(w1, Tick(start + 91)) && Do(w1, Tick(start + 91)).mcu.fired;
    hide Do, Kept, Boot;
    var moves := [Tick(start), Tick(start + 91)];
    assert moves[1..] == [Tick(start + 91)] && moves[1..][1..] == [];
    assert DoAll(w, moves) == DoAll(w1, moves[1..]);
    assert DoAll(w1, moves[1..]) == DoAll(Do(w1, moves[1]), []);
    assert AllKept(Do(w1, moves[1]), []) && AllKept(w1, moves[1..]);
  }

  /** A stand-down that no poll sees buys no time. Let an armed daemon stand down and
      arm again between two polls, beating in between or not: the next poll fires
      exactly when it did not beat, had not beaten since the last armed poll either,
      and that beat was noticed more than 90 s before. */
  lemma UnseenStandDown(w: World, down: nat, up: nat, beat: bool, at: nat)
    requires Alive(w) && w.armed && w.mcu.armedEver && w.beats + 1 - w.seenBeats < WRAP
    ensures
      var w1 := Do(w, Disarm(down));
      var w2 := if beat then Do(w1, Move.Beat(up)) else w1;
      var w3 := Do(w2, Arm(up));
      Do(w3, Tick(at)).mcu.fired <==>
      !beat && w.beats == w.seenBeats && at > w.mcu.lastChange + HEARTBEAT_TIMEOUT_S
  {
    hide TickWords;
    if w.seenBeats < w.beats {
      DistinctCounters(w.seenBeats, w.beats);
    }
    DistinctCounters(w.seenBeats, w.beats + 1);
  }

  // ----- a daemon that stops is always reset, in time

  function Polls(m: Mcu, rs: seq<Reading>): Mcu
    decreases |rs|
  {
    if rs == [] then m else Polls(Poll(m, rs[0].now, rs[0].magic, rs[0].counter), rs[1..])
  }

  /** Nothing new from Linux: not stood down, and no armed reading with a counter
      other than the last one seen. */
  predicate Quiet(m: Mcu, r: Reading) {
    r.magic != MAGIC_DISARM && (r.magic == MAGIC_ARMED ==> r.counter == m.lastSeen)
  }

  lemma QuietPoll(m: Mcu, r: Reading)
    requires !m.fired && m.armedEver && Quiet(m, r)
    ensures
      var m' := Poll(m, r.now, r.magic, r.counter);
      && m'.lastSeen == m.lastSeen && m'.lastChange == m.lastChange && m'.armedEver
      && (m'.fired <==> r.now > m.lastChange + HEARTBEAT_TIMEOUT_S)
  {}

  /** Polls at most `g` seconds apart, the first at most `g` after `from`. */
  predicate Spaced(from: nat, rs: seq<Reading>, g: nat) {
    && (rs != [] ==> rs[0].now <= from + g)
    && forall i | 0 <= i < |rs| - 1 :: rs[i + 1].now <= rs[i].now + g
  }

  lemma SpacedTail(from: nat, rs: seq<Reading>, g: nat)
    requires rs != [] && Spaced(from, rs, g)
    ensures Spaced(rs[0].now, rs[1..], g)
  {
    var rest := rs[1..];
    forall i | 0 <= i < |rest| - 1 ensures rest[i + 1].now <= rest[i].now + g {
      assert rs[(i + 1) + 1].now <= rs[i + 1].now + g;
    }
  }

  /** From the poll that saw the last beat on, with polls at most `g` apart, the
      MCU fires at the first poll more than 90 s later, which is at most `90 + g`
      s later, and not before. */
  lemma {:induction false} DeadDaemonReset(m: Mcu, from: nat, rs: seq<Reading>, g: nat) returns (k: nat)
    requires !m.fired && m.armedEver && from <= m.lastChange + HEARTBEAT_TIMEOUT_S
    requires forall i | 0 <= i < |rs| :: Quiet(m, rs[i])
    requires Spaced(from, rs, g)
    requires exists i | 0 <= i < |rs| :: rs[i].now > m.lastChange + HEARTBEAT_TIMEOUT_S
    ensures k < |rs| && !Polls(m, rs[..k]).fired && Polls(m, rs[..k + 1]).fired && Polls(m, rs).fired
    ensures m.lastChange + HEARTBEAT_TIMEOUT_S < rs[k].now <= m.lastChange + HEARTBEAT_TIMEOUT_S + g
    decreases |rs|
  {
    hide Poll;
    var r, rest := rs[0], rs[1..];
    var m' := Poll(m, r.now, r.magic, r.counter);
    QuietPoll(m, r);
    if m'.fired {
      k := 0;
      assert rs[..1] == [r] && [r][1..] == [];
      assert Polls(m, [r]) == Polls(m', []);
      FiredForGood(m', rest);
      assert rs[..0] == [];
    } else {
      assert forall i | 0 <= i < |rest| :: rest[i] == rs[i + 1];
      var j :| 0 <= j < |rs| && rs[j].now > m.lastChange + HEARTBEAT_TIMEOUT_S;
      assert rest[j - 1].now > m.lastChange + HEARTBEAT_TIMEOUT_S;
      SpacedTail(from, rs, g);
      k := DeadDaemonReset(m', r.now, rest, g);
      assert rs[..k + 1][1..] == rest[..k];
      assert rs[..k + 2][1..] == rest[..k + 1];
      assert rs[..k + 1][0] == r && rs[..k + 2][0] == r;
      assert Polls(m, rs[..k + 1]) == Polls(m', rest[..k]);
      assert Polls(m, rs[..k + 2]) == Polls(m', rest[..k + 1]);
      k := k + 1;
    }
  }

  lemma {:induction false} FiredForGood(m: Mcu, rs: seq<Reading>)
    requires m.fired
    ensures Polls(m, rs) == m
    decreases |rs|
  {
    if rs != [] {
      FiredForGood(m, rs[1..]);
    }
  }
}
