/** The freshness engine: a fixed table of bindings, each a producer and a widget,
    refreshed on show, on tick and on invalidate. A producer is what it answers
    when asked; a widget is what it shows. */
module Freshness {
  import opened Basics

  const FRESH_MAX := 96
  const FRESH_BUFSZ := 64

  /** What fits a value buffer with its terminator. */
  type Value = s: string | |s| < FRESH_BUFSZ

  datatype Produced = Ok(text: Value) | Unknown | Same

  datatype Render = RenderValue | RenderUnknown | NoChange

  datatype Shown = Untouched | Text(text: Value) | UnknownMark

  datatype Binding = Binding(
    page: int,
    maxStale: U32,
    source: Option<string>,
    lastOk: U32,
    last: Value,
    everOk: bool,
    showingUnknown: bool,
    visible: bool,
    used: bool,
    widget: Shown)

  const FREE := Binding(0, 0, None, 0, "", false, false, false, false, Untouched)

  function Decide(p: Produced, everOk: bool, showingUnknown: bool, age: U32, maxStale: U32): Render {
    match p
    case Ok(_) => RenderValue
    case Same => if showingUnknown then RenderValue else NoChange
    case Unknown =>
      if !everOk then RenderUnknown
      else if age > maxStale then RenderUnknown
      else NoChange
  }

  /** Unsigned 32-bit subtraction. */
  function Age(now: U32, then_: U32): U32 { (now - then_) % WRAP }

  /** `refresh_one`. */
  function Refresh(b: Binding, now: U32, p: Produced): Binding {
    var what := Decide(p, b.everOk, b.showingUnknown, Age(now, b.lastOk), b.maxStale);
    var b1 := if p.Ok? then b.(last := p.text) else b;
    var b2 := if p.Ok? || p.Same? then b1.(lastOk := now, everOk := true) else b1;
    match what
    case RenderValue => b2.(widget := Text(if p.Ok? then p.text else b2.last), showingUnknown := false)
    case RenderUnknown => b2.(widget := UnknownMark, showingUnknown := true)
    case NoChange => b2
  }

  /** What becomes of a slot, answer by answer. A value is shown and kept; an unchanged
      one is fresh, and shown again only over the unknown mark; a missing one stands
      while there was a success within budget, and is marked otherwise. */
  lemma RefreshTable(b: Binding, now: U32, p: Produced)
    ensures
      Refresh(b, now, p) ==
      match p
      case Ok(text) => b.(last := text, lastOk := now, everOk := true, widget := Text(text), showingUnknown := false)
      case Same =>
        if b.showingUnknown then b.(lastOk := now, everOk := true, widget := Text(b.last), showingUnknown := false)
        else b.(lastOk := now, everOk := true)
      case Unknown =>
        if b.everOk && (now - b.lastOk) % 0x1_0000_0000 <= b.maxStale then b
        else b.(widget := UnknownMark, showingUnknown := true)
  {}

  // ----- the table

  class FreshTable {
    const vals: array<Binding>

    ghost predicate Valid() { vals.Length == FRESH_MAX }

    constructor ()
      ensures Valid() && fresh(vals) && vals[..] == seq(FRESH_MAX, i => FREE)
    {
      vals := new Binding[FRESH_MAX](i => FREE);
    }

    /** Takes the first free slot; none free, or a missing callback, binds nothing. */
    method Bind(page: int, hasProduce: bool, maxStale: U32, source: Option<string>, hasRender: bool)
      returns (slot: Option<nat>)
      requires Valid()
      modifies vals
      ensures slot.Some? <==> hasProduce && hasRender && exists i | 0 <= i < FRESH_MAX :: !old(vals[i].used)
      ensures slot.Some? ==>
                && slot.value < FRESH_MAX && !old(vals[slot.value].used)
                && (forall j | 0 <= j < slot.value :: old(vals[j].used))
                && vals[..] == old(vals[..])[slot.value :=
                     Binding(page, maxStale, source, 0, "", false, false, true, true, Untouched)]
      ensures slot.None? ==> vals[..] == old(vals[..])
    {
      if !hasProduce || !hasRender {
        return None;
      }
      for i := 0 to FRESH_MAX
        invariant vals[..] == old(vals[..])
        invariant forall j | 0 <= j < i :: old(vals[j].used)
      {
        if !vals[i].used {
          vals[i] := FREE.(page := page, maxStale := maxStale, source := source, visible := true, used := true);
          return Some(i);
        }
      }
      return None;
    }

    method SetVisible(page: int, visible: bool)
      requires Valid()
      modifies vals
      ensures forall i | 0 <= i < FRESH_MAX ::
                vals[i] == if old(vals[i].used && vals[i].page == page) then old(vals[i]).(visible := visible)
                           else old(vals[i])
    {
      for i := 0 to FRESH_MAX
        invariant forall j | 0 <= j < i ::
                    vals[j] == if old(vals[j].used && vals[j].page == page) then old(vals[j]).(visible := visible)
                               else old(vals[j])
        invariant forall j | i <= j < FRESH_MAX :: vals[j] == old(vals[j])
      {
        if vals[i].used && vals[i].page == page {
          vals[i] := vals[i].(visible := visible);
        }
      }
    }

    /** `answers[i]` is what the producer of slot `i` says when asked. */
    method PageShow(page: int, now: U32, answers: seq<Produced>)
      requires Valid() && |answers| == FRESH_MAX
      modifies vals
      ensures forall i | 0 <= i < FRESH_MAX ::
                vals[i] == if old(vals[i].used && vals[i].page == page)
                           then Refresh(old(vals[i]).(visible := true), now, answers[i]) else old(vals[i])
    {
      for i := 0 to FRESH_MAX
        invariant forall j | 0 <= j < i ::
                    vals[j] == if old(vals[j].used && vals[j].page == page)
                               then Refresh(old(vals[j]).(visible := true), now, answers[j]) else old(vals[j])
        invariant forall j | i <= j < FRESH_MAX :: vals[j] == old(vals[j])
      {
        if vals[i].used && vals[i].page == page {
          vals[i] := vals[i].(visible := true);
          RefreshOne(i, now, answers[i]);
        }
      }
    }

    method Tick(now: U32, answers: seq<Produced>)
      requires Valid() && |answers| == FRESH_MAX
      modifies vals
      ensures forall i | 0 <= i < FRESH_MAX ::
                vals[i] == if old(vals[i].used && vals[i].visible) then Refresh(old(vals[i]), now, answers[i])
                           else old(vals[i])
    {
      for i := 0 to FRESH_MAX
        invariant forall j | 0 <= j < i ::
                    vals[j] == if old(vals[j].used && vals[j].visible) then Refresh(old(vals[j]), now, answers[j])
                               else old(vals[j])
        invariant forall j | i <= j < FRESH_MAX :: vals[j] == old(vals[j])
      {
        if vals[i].used && vals[i].visible {
          RefreshOne(i, now, answers[i]);
        }
      }
    }

    method Invalidate(source: Option<string>, now: U32, answers: seq<Produced>)
      requires Valid() && |answers| == FRESH_MAX
      modifies vals
      ensures forall i | 0 <= i < FRESH_MAX ::
                vals[i] == if source.Some? && old(vals[i].used && vals[i].visible && vals[i].source == source)
                           then Refresh(old(vals[i]), now, answers[i]) else old(vals[i])
    {
      if source.None? {
        return;
      }
      for i := 0 to FRESH_MAX
        invariant forall j | 0 <= j < i ::
                    vals[j] == if old(vals[j].used && vals[j].visible && vals[j].source == source)
                               then Refresh(old(vals[j]), now, answers[j]) else old(vals[j])
        invariant forall j | i <= j < FRESH_MAX :: vals[j] == old(vals[j])
      {
        if vals[i].used && vals[i].visible && vals[i].source.Some? && vals[i].source.value == source.value {
          RefreshOne(i, now, answers[i]);
        }
      }
    }

    /** `refresh_one` on a slot, in the source's order of updates. */
    method RefreshOne(i: nat, now: U32, p: Produced)
      requires Valid() && i < FRESH_MAX
      modifies vals
      ensures vals[..] == old(vals[..])[i := Refresh(old(vals[i]), now, p)]
      ensures forall j | 0 <= j < FRESH_MAX && j != i :: vals[j] == old(vals[j])
      ensures p.Ok? ==> vals[i].widget == Text(p.text) && vals[i].lastOk == now && !vals[i].showingUnknown
    {
      var v := vals[i];
      var what := Decide(p, v.everOk, v.showingUnknown, Age(now, v.lastOk), v.maxStale);
      if p.Ok? {
        v := v.(last := p.text);
      }
      if p.Ok? || p.Same? {
        v := v.(lastOk := now);
        v := v.(everOk := true);
      }
      match what {
        case RenderValue =>
          v := v.(widget := Text(if p.Ok? then p.text else v.last));
          v := v.(showingUnknown := false);
        case RenderUnknown =>
          v := v.(widget := UnknownMark);
          v := v.(showingUnknown := true);
        case NoChange =>
      }
      vals[i] := v;
    }

    method Reset()
      requires Valid()
      modifies vals
      ensures forall i | 0 <= i < FRESH_MAX :: vals[i] == FREE
    {
      for i := 0 to FRESH_MAX
        invariant forall j | 0 <= j < i :: vals[j] == FREE
      {
        vals[i] := FREE;
      }
    }

    method Count() returns (n: nat)
      requires Valid()
      ensures n == |set i | 0 <= i < FRESH_MAX && vals[i].used|
    {
      n := 0;
      ghost var counted: set<int> := {};
      for i := 0 to FRESH_MAX
        invariant counted == (set j | 0 <= j < i && vals[j].used) && n == |counted|
      {
        if vals[i].used {
          n := n + 1;
          counted := counted + {i};
        }
      }
    }

    /** The tightest budget on screen, zero when nothing is. */
    method MinBudget() returns (best: U32)
      requires Valid()
      ensures (forall i | 0 <= i < FRESH_MAX :: !(vals[i].used && vals[i].visible)) ==> best == 0
      ensures (exists i | 0 <= i < FRESH_MAX :: vals[i].used && vals[i].visible) ==>
                && (exists i | 0 <= i < FRESH_MAX :: vals[i].used && vals[i].visible && vals[i].maxStale == best)
                && (forall i | 0 <= i < FRESH_MAX :: vals[i].used && vals[i].visible ==> best <= vals[i].maxStale)
    {
      best := 0;
      var seen := false;
      for i := 0 to FRESH_MAX
        invariant !seen ==> best == 0 && forall j | 0 <= j < i :: !(vals[j].used && vals[j].visible)
        invariant seen ==>
                    && (exists j | 0 <= j < i :: vals[j].used && vals[j].visible && vals[j].maxStale == best)
                    && (forall j | 0 <= j < i :: vals[j].used && vals[j].visible ==> best <= vals[j].maxStale)
      {
        var v := vals[i];
        if v.used && v.visible && (!seen || v.maxStale < best) {
          best := v.maxStale;
          seen := true;
        }
      }
    }
  }
}
