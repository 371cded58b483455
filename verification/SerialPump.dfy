/** The bridge's serial pump: bytes arrive in chunks, a silent gap ends a frame,
    and each frame goes to the slave. Reads are an event sequence; a write that
    fails is part of the event that triggers it. */
module SerialPump {
  import opened Basics
  import opened Crc
  import opened ModbusDevice

  const MAX_PENDING := 512

  /** What one turn of the read loop sees. `Gap` and `Eof` say whether a reply
      written in that turn would get through. */
  datatype Event =
    | Data(chunk: Frame)
    | Gap(writable: bool)
    | Interrupted
    | Eof(writable: bool)
    | ReadFailed

  datatype End = Running | Closed | Broken

  datatype Fate = Dispatched(bytes: Frame) | Discarded(bytes: Frame)

  /** The pump's variables, and the history of what it read and what became of it. */
  datatype Pump = Pump(
    device: M.Device,
    buf: Frame,
    written: seq<Frame>,
    discards: nat,
    end: End,
    received: Frame,
    fates: seq<Fate>)

  function Start(d: M.Device): Pump { Pump(d, [], [], 0, Running, [], []) }

  function Dispatch(p: Pump, writable: bool): Pump {
    var (d, reply) := M.HandleFrame(p.device, p.buf);
    var q := p.(device := d, buf := [], fates := p.fates + [Dispatched(p.buf)]);
    match reply
    case None => q
    case Some(r) => if writable then q.(written := q.written + [r]) else q.(end := Broken)
  }

  function DispatchPending(p: Pump, writable: bool): Pump {
    if p.buf == [] then p else Dispatch(p, writable)
  }

  function Step(p: Pump, ev: Event): Pump {
    match ev
    case Data(chunk) =>
      var buf := p.buf + chunk;
      var q := p.(received := p.received + chunk);
      if |buf| > MAX_PENDING
      then q.(buf := [], discards := p.discards + 1, fates := p.fates + [Discarded(buf)])
      else q.(buf := buf)
    case Gap(writable) => DispatchPending(p, writable)
    case Interrupted => p
    case Eof(writable) =>
      var q := DispatchPending(p, writable);
      if q.end == Broken then q else q.(end := Closed)
    case ReadFailed => p.(end := Broken)
  }

  function Run(p: Pump, events: seq<Event>): Pump
    decreases |events|
  {
    if events == [] || p.end != Running then p else Run(Step(p, events[0]), events[1..])
  }

  // ----- the loop

  ghost function Observed(slave: ModbusSlave, buf: Frame, written: seq<Frame>, discards: nat, end: End,
                          received: Frame, fates: seq<Fate>): Pump
    reads slave
  {
    Pump(slave.Model(), buf, written, discards, end, received, fates)
  }

  /** `dispatch`: hand the buffer to the slave, empty it, write the reply. */
  method DispatchFrame(slave: ModbusSlave, buf: Frame, writable: bool) returns (reply: Option<Frame>, ok: bool)
    modifies slave
    ensures (slave.Model(), reply) == M.HandleFrame(old(slave.Model()), buf)
    ensures ok <==> reply.None? || writable
  {
    reply := slave.HandleFrame(buf);
    ok := reply.None? || writable;
  }

  /** `pump_serial`, reading the given events. */
  method PumpSerial(slave: ModbusSlave, events: seq<Event>)
    returns (written: seq<Frame>, end: End, buf: Frame, discards: nat, ghost received: Frame, ghost fates: seq<Fate>)
    modifies slave
    ensures Observed(slave, buf, written, discards, end, received, fates) == Run(Start(old(slave.Model())), events)
  {
    hide M.HandleFrame;
    buf, written, discards, end, received, fates := [], [], 0, Running, [], [];
    var i := 0;
    while i < |events| && end == Running
      invariant 0 <= i <= |events|
      invariant Run(Start(old(slave.Model())), events) ==
                Run(Observed(slave, buf, written, discards, end, received, fates), events[i..])
      decreases |events| - i
    {
      ghost var before := Observed(slave, buf, written, discards, end, received, fates);
      match events[i] {
        case Data(chunk) =>
          buf := buf + chunk;
          received := received + chunk;
          if |buf| > MAX_PENDING {
            discards := discards + 1;
            fates := fates + [Discarded(buf)];
            buf := [];
          }
        case Gap(writable) =>
          if buf != [] {
            var reply, ok := DispatchFrame(slave, buf, writable);
            fates := fates + [Dispatched(buf)];
            buf := [];
            if !ok {
              end := Broken;
            } else if reply.Some? {
              written := written + [reply.value];
            }
          }
        case Interrupted =>
        case Eof(writable) =>
          end := Closed;
          if buf != [] {
            var reply, ok := DispatchFrame(slave, buf, writable);
            fates := fates + [Dispatched(buf)];
            buf := [];
            if !ok {
              end := Broken;
            } else if reply.Some? {
              written := written + [reply.value];
            }
          }
        case ReadFailed =>
          end := Broken;
      }
      assert Observed(slave, buf, written, discards, end, received, fates) == Step(before, events[i]);
      assert events[i..][1..] == events[i + 1..];
      i := i + 1;
    }
  }

  // ----- no byte is lost, invented or reordered

  function BytesOf(fates: seq<Fate>): Frame
    decreases |fates|
  {
    if fates == [] then [] else BytesOf(fates[..|fates| - 1]) + fates[|fates| - 1].bytes
  }

  /** Dispatched and discarded frames, in order, and then the pending bytes are
      exactly what was read; and pending stays within the cap. */
  predicate Accounted(p: Pump) {
    && BytesOf(p.fates) + p.buf == p.received
    && |p.buf| <= MAX_PENDING
    && |set i | 0 <= i < |p.fates| && p.fates[i].Discarded?| == p.discards
  }

  lemma AccountedClose(p: Pump, f: Fate, extra: Frame)
    requires Accounted(p) && f.bytes == p.buf + extra
    ensures BytesOf(p.fates + [f]) == p.received + extra
    ensures |set i | 0 <= i < |p.fates + [f]| && (p.fates + [f])[i].Discarded?| ==
            p.discards + if f.Discarded? then 1 else 0
  {
    var g := p.fates + [f];
    assert g[..|g| - 1] == p.fates;
    var before := set i | 0 <= i < |p.fates| && p.fates[i].Discarded?;
    var after := set i | 0 <= i < |g| && g[i].Discarded?;
    assert after == if f.Discarded? then before + {|p.fates|} else before;
  }

  lemma StepAccounted(p: Pump, ev: Event)
    requires Accounted(p)
    ensures Accounted(Step(p, ev))
  {
    hide M.HandleFrame, BytesOf;
    match ev {
      case Data(chunk) =>
        AccountedClose(p, Discarded(p.buf + chunk), chunk);
        assert BytesOf(p.fates) + (p.buf + chunk) == (BytesOf(p.fates) + p.buf) + chunk;
      case Gap(_) => AccountedClose(p, Dispatched(p.buf), []);
      case Eof(_) => AccountedClose(p, Dispatched(p.buf), []);
      case _ =>
    }
  }

  lemma {:induction false} EveryByteAccounted(p: Pump, events: seq<Event>)
    requires Accounted(p)
    ensures Accounted(Run(p, events))
    decreases |events|
  {
    hide Step, Accounted;
    if events != [] && p.end == Running {
      StepAccounted(p, events[0]);
      EveryByteAccounted(Step(p, events[0]), events[1..]);
    }
  }

  /** So over every session: what the pump dispatched and discarded, in order, and then
      what it still holds, are the bytes it read, and it never holds more than the cap. */
  lemma SessionAccounted(d: M.Device, events: seq<Event>)
    ensures
      var q := Run(Start(d), events);
      && q.received == BytesOf(q.fates) + q.buf && |q.buf| <= MAX_PENDING
      && q.discards == |set i | 0 <= i < |q.fates| && q.fates[i].Discarded?|
  {
    EveryByteAccounted(Start(d), events);
  }

  // ----- what one event does

  /** Data waits, up to 512 bytes; beyond that all of it is dropped, and the pump goes on
      with an empty buffer, the slave and the line untouched. */
  lemma DataWaits(p: Pump, chunk: Frame)
    ensures
      var q := Step(p, Data(chunk));
      && q.device == p.device && q.written == p.written && q.end == p.end
      && (|p.buf| + |chunk| <= 512 ==> q.buf == p.buf + chunk && q.discards == p.discards)
      && (|p.buf| + |chunk| > 512 ==> q.buf == [] && q.discards == p.discards + 1)
  {}

  /** A silence or the end of the stream hands a waiting buffer to the slave; its answer
      goes out, or, if it cannot, the pump breaks off. */
  lemma SilenceDispatches(p: Pump, writable: bool)
    requires p.end == Running
    ensures
      var (d, reply) := M.HandleFrame(p.device, p.buf);
      var q, r := Step(p, Gap(writable)), Step(p, Eof(writable));
      && (p.buf == [] ==> q == p && r == p.(end := Closed))
      && (p.buf != [] ==>
            && q.device == r.device == d && q.buf == r.buf == []
            && q.written == r.written == (if reply.Some? && writable then p.written + [reply.value] else p.written)
            && q.end == (if reply.Some? && !writable then Broken else Running)
            && r.end == (if reply.Some? && !writable then Broken else Closed))
    ensures Step(p, Interrupted) == p && Step(p, ReadFailed) == p.(end := Broken)
  {
    hide M.HandleFrame;
    match M.HandleFrame(p.device, p.buf).1
    case None =>
    case Some(_) =>
  }

  /** After an overrun the next run is answered as if nothing had happened. */
  lemma RecoversFromOverrun(p: Pump, flood: Frame, run: Frame)
    requires p.end == Running && |p.buf| + |flood| > 512 && 0 < |run| <= 512
    ensures
      var (d, reply) := M.HandleFrame(p.device, run);
      var q := Step(Step(Step(p, Data(flood)), Data(run)), Gap(true));
      && q.device == d && q.buf == [] && q.end == Running
      && q.written == if reply.Some? then p.written + [reply.value] else p.written
  {
    hide M.HandleFrame;
    assert [] + run == run;
    match M.HandleFrame(p.device, run).1
    case None =>
    case Some(_) =>
  }

  // ----- the pump refines "split at the gaps"

  /** The wire as a listener hears it: bytes, and silences that end a frame. */
  datatype Symbol = Octet(b: Byte) | Silence

  function Octets(s: Frame): seq<Symbol> { seq(|s|, i requires 0 <= i < |s| => Octet(s[i])) }

  function Heard(ev: Event): seq<Symbol> {
    match ev
    case Data(chunk) => Octets(chunk)
    case Gap(_) => [Silence]
    case Eof(_) => [Silence]
    case _ => []
  }

  function Wire(events: seq<Event>): seq<Symbol>
    decreases |events|
  {
    if events == [] then [] else Heard(events[0]) + Wire(events[1..])
  }

  /** The maximal gap-free byte runs of a wire, `cur` being already open. */
  function Runs(cur: Frame, wire: seq<Symbol>): seq<Frame>
    decreases |wire|
  {
    if wire == [] then []
    else match wire[0]
      case Octet(b) => Runs(cur + [b], wire[1..])
      case Silence => (if cur == [] then [] else [cur]) + Runs([], wire[1..])
  }

  /** The slave fed each run in turn: its final state and its replies. */
  function Exchange(d: M.Device, frames: seq<Frame>): (M.Device, seq<Frame>)
    decreases |frames|
  {
    if frames == [] then (d, [])
    else
      var (d1, reply) := M.HandleFrame(d, frames[0]);
      var (d2, rest) := Exchange(d1, frames[1..]);
      (d2, (if reply.Some? then [reply.value] else []) + rest)
  }

  /** A session: data and gaps with working writes, then end of stream. */
  predicate Session(events: seq<Event>) {
    && events != []
    && events[|events| - 1] == Eof(true)
    && forall i | 0 <= i < |events| - 1 :: events[i].Data? || events[i] == Gap(true) || events[i].Interrupted?
  }

  predicate ShortRuns(runs: seq<Frame>) { forall i | 0 <= i < |runs| :: |runs[i]| <= MAX_PENDING }

  lemma {:induction false} RunsOfOctets(cur: Frame, s: Frame, wire: seq<Symbol>)
    ensures Runs(cur, Octets(s) + wire) == Runs(cur + s, wire)
    decreases |s|
  {
    if s == [] {
      assert Octets(s) + wire == wire;
      assert cur + s == cur;
    } else {
      assert (Octets(s) + wire)[0] == Octet(s[0]);
      assert (Octets(s) + wire)[1..] == Octets(s[1..]) + wire;
      assert cur + s == (cur + [s[0]]) + s[1..];
      RunsOfOctets(cur + [s[0]], s[1..], wire);
    }
  }

  /** An open run that later ends is a prefix of the first run listed. */
  lemma {:induction false} FirstRunExtends(cur: Frame, wire: seq<Symbol>)
    requires cur != [] && Silence in wire
    ensures Runs(cur, wire) != [] && cur <= Runs(cur, wire)[0]
    decreases |wire|
  {
    if wire[0].Octet? {
      FirstRunExtends(cur + [wire[0].b], wire[1..]);
    }
  }

  lemma {:induction false} SessionEndsSilent(events: seq<Event>)
    requires Session(events)
    ensures Silence in Wire(events)
    decreases |events|
  {
    if |events| > 1 {
      SessionEndsSilent(events[1..]);
    }
  }

  /** From any pump state: the rest of the session delivers the remaining runs. */
  lemma {:induction false} SessionDelivers(p: Pump, events: seq<Event>)
    requires Session(events) && p.end == Running
    requires ShortRuns(Runs(p.buf, Wire(events)))
    ensures
      var q := Run(p, events);
      var (d, replies) := Exchange(p.device, Runs(p.buf, Wire(events)));
      q.device == d && q.written == p.written + replies && q.end == Closed && q.buf == [] && q.discards == p.discards
    decreases |events|
  {
    hide M.HandleFrame;
    var ev, rest := events[0], events[1..];
    var wire := Wire(rest);
    var q := Step(p, ev);
    if ev.Data? {
      var open := p.buf + ev.chunk;
      RunsOfOctets(p.buf, ev.chunk, wire);
      SessionEndsSilent(rest);
      if open != [] {
        FirstRunExtends(open, wire);
      }
      SessionDelivers(q, rest);
    } else if ev.Interrupted? {
      assert Heard(ev) + wire == wire;
      SessionDelivers(q, rest);
    } else {
      GapDelivers(p, wire);
      if |events| > 1 {
        SessionDelivers(q, rest);
      } else {
        assert wire == [];
      }
    }
  }

  lemma GapDelivers(p: Pump, wire: seq<Symbol>)
    requires p.end == Running
    ensures
      var q := DispatchPending(p, true);
      var runs := Runs(p.buf, [Silence] + wire);
      var (d, replies) := Exchange(p.device, runs);
      var (d', replies') := Exchange(q.device, Runs([], wire));
      && d == d' && p.written + replies == q.written + replies' && q.end == Running
      && q.buf == [] && q.discards == p.discards
      && (ShortRuns(runs) ==> ShortRuns(Runs([], wire)))
  {
    hide M.HandleFrame;
    assert ([Silence] + wire)[1..] == wire;
    var tail := Runs([], wire);
    if p.buf == [] {
      assert [] + tail == tail;
    } else {
      var runs := [p.buf] + tail;
      assert runs[1..] == tail;
      assert forall i | 0 <= i < |tail| :: tail[i] == runs[i + 1];
      var (d1, reply) := M.HandleFrame(p.device, p.buf);
      var rest := Exchange(d1, tail).1;
      var now := if reply.Some? then [reply.value] else [];
      assert p.written + (now + rest) == (p.written + now) + rest;
      assert p.written + [] == p.written;
    }
  }

  /** Replies and final state of a session whose runs fit the buffer are those of
      feeding the slave the maximal gap-free runs of the wire, nothing discarded. */
  lemma PumpSplitsAtGaps(d: M.Device, events: seq<Event>)
    requires Session(events) && ShortRuns(Runs([], Wire(events)))
    ensures
      var q := Run(Start(d), events);
      (q.device, q.written) == Exchange(d, Runs([], Wire(events))) && q.end == Closed && q.discards == 0
  {
    hide M.HandleFrame, Step;
    SessionDelivers(Start(d), events);
    assert forall s: seq<Frame> :: [] + s == s;
  }

  /** So the chunking of the bytes does not matter. */
  lemma ChunkingIrrelevant(d: M.Device, a: seq<Event>, b: seq<Event>)
    requires Session(a) && Session(b) && Wire(a) == Wire(b) && ShortRuns(Runs([], Wire(a)))
    ensures Run(Start(d), a).written == Run(Start(d), b).written
    ensures Run(Start(d), a).device == Run(Start(d), b).device
  {
    PumpSplitsAtGaps(d, a);
    PumpSplitsAtGaps(d, b);
  }
}
