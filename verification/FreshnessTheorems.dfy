/** "Never show a stale number", for every run of the engine against an unbounded
    true clock of which the engine sees the low 32 bits. */
module FreshnessTheorems {
  import opened Basics
  import opened Freshness

  /** A slot of the table, and what really happened to it: the true times of its
      last refresh and last success, and the last text its producer delivered. */
  datatype Slot = Slot(b: Binding, refreshedAt: Option<nat>, okAt: Option<nat>, okText: Option<Value>)

  const EMPTY := Slot(FREE, None, None, None)

  /** One call into the engine at true time `at`; `answer` is what the producer of
      the slot under study says if this call asks it. */
  datatype Call =
    | BindHere(page: int, maxStale: U32, source: Option<string>)
    | SetVisible(page: int, visible: bool)
    | PageShow(page: int, at: nat, answer: Produced)
    | Tick(at: nat, answer: Produced)
    | Invalidate(source: Option<string>, at: nat, answer: Produced)
    | Reset

  /** This call refreshes this slot. */
  predicate Refreshes(s: Slot, c: Call) {
    match c
    case PageShow(page, _, _) => s.b.used && s.b.page == page
    case Tick(_, _) => s.b.used && s.b.visible
    case Invalidate(source, _, _) => source.Some? && s.b.used && s.b.visible && s.b.source == source
    case _ => false
  }

  function Touch(s: Slot, at: nat, p: Produced): Slot {
    Slot(Refresh(s.b, at % WRAP, p), Some(at),
         if p.Unknown? then s.okAt else Some(at),
         if p.Ok? then Some(p.text) else s.okText)
  }

  function Step(s: Slot, c: Call): Slot {
    match c
    case BindHere(page, maxStale, source) =>
      if s.b.used then s
      else Slot(FREE.(page := page, maxStale := maxStale, source := source, visible := true, used := true),
                None, None, None)
    case SetVisible(page, visible) =>
      if s.b.used && s.b.page == page then s.(b := s.b.(visible := visible)) else s
    case PageShow(_, at, p) => if Refreshes(s, c) then Touch(s.(b := s.b.(visible := true)), at, p) else s
    case Tick(at, p) => if Refreshes(s, c) then Touch(s, at, p) else s
    case Invalidate(_, at, p) => if Refreshes(s, c) then Touch(s, at, p) else s
    case Reset => EMPTY
  }

  /** The slot moves as the contracts of the table's entry points say. */
  lemma StepIsTheTable(s: Slot, c: Call)
    ensures
      Step(s, c).b ==
      match c
      case PageShow(page, at, p) =>
        if s.b.used && s.b.page == page then Refresh(s.b.(visible := true), at % 0x1_0000_0000, p) else s.b
      case Tick(at, p) => if s.b.used && s.b.visible then Refresh(s.b, at % 0x1_0000_0000, p) else s.b
      case Invalidate(source, at, p) =>
        if source.Some? && s.b.used && s.b.visible && s.b.source == source then Refresh(s.b, at % 0x1_0000_0000, p)
        else s.b
      case SetVisible(page, v) => if s.b.used && s.b.page == page then s.b.(visible := v) else s.b
      case BindHere(page, m, source) =>
        if s.b.used then s.b else Binding(page, m, source, 0, "", false, false, true, true, Untouched)
      case Reset => Binding(0, 0, None, 0, "", false, false, false, false, Untouched)
  {}

  // ----- hidden pages and named sources

  /** A call that may bring a binding of `page` back: one that shows the page, or one that
      frees the slot. */
  predicate MayShow(c: Call, page: int) {
    || (c.PageShow? && c.page == page)
    || (c.SetVisible? && c.page == page && c.visible)
    || c.Reset?
  }

  /** While a page is hidden nothing is asked of its producers and nothing painted: over
      any calls that do not show it, its bindings stay exactly as they were. */
  lemma {:induction false} HiddenStaysFrozen(s: Slot, page: int, calls: seq<Call>)
    requires s.b.used && s.b.page == page && forall i | 0 <= i < |calls| :: !MayShow(calls[i], page)
    ensures Run(Step(s, SetVisible(page, false)), calls) == s.(b := s.b.(visible := false))
    decreases |calls|
  {
    StaysFrozen(s.(b := s.b.(visible := false)), page, calls);
  }

  lemma {:induction false} StaysFrozen(s: Slot, page: int, calls: seq<Call>)
    requires s.b.used && s.b.page == page && !s.b.visible
    requires forall i | 0 <= i < |calls| :: !MayShow(calls[i], page)
    ensures Run(s, calls) == s
    decreases |calls|
  {
    if calls != [] {
      assert Step(s, calls[0]) == s;
      StaysFrozen(s, page, calls[1..]);
    }
  }

  /** Until it is shown: then it is visible again and refreshed at once. */
  lemma ShowingWakesIt(s: Slot, page: int, calls: seq<Call>, at: nat, text: Value)
    requires s.b.used && s.b.page == page && forall i | 0 <= i < |calls| :: !MayShow(calls[i], page)
    ensures
      var t := Step(Run(Step(s, SetVisible(page, false)), calls), PageShow(page, at, Ok(text)));
      t.b.visible && t.b.widget == Text(text) && t.refreshedAt == Some(at)
  {
    hide Run;
    HiddenStaysFrozen(s, page, calls);
  }

  /** A binding answers to invalidations of the source it was bound with, and of no
      other; one bound without a source answers to none. */
  lemma AnswersItsSource(page: int, maxStale: U32, source: Option<string>, named: Option<string>, at: nat, text: Value)
    ensures
      var s := Step(EMPTY, BindHere(page, maxStale, source));
      var t := Step(s, Invalidate(named, at, Ok(text)));
      && s.b.used && s.b.visible && s.b.page == page && s.b.maxStale == maxStale
      && (t.b.widget == Text(text) <==> named.Some? && source == named)
      && (!(named.Some? && source == named) ==> t == s)
  {}

  /** The clock does not run backwards, and two refreshes of a slot are less than
      2^32 - maxStale milliseconds apart. */
  predicate Kept(s: Slot, c: Call) {
    Refreshes(s, c) && s.refreshedAt.Some? ==>
      s.refreshedAt.value <= c.at < s.refreshedAt.value + WRAP - s.b.maxStale
  }

  predicate AllKept(s: Slot, calls: seq<Call>)
    decreases |calls|
  {
    calls == [] || (Kept(s, calls[0]) && AllKept(Step(s, calls[0]), calls[1..]))
  }

  function Run(s: Slot, calls: seq<Call>): Slot
    decreases |calls|
  {
    if calls == [] then s else Run(Step(s, calls[0]), calls[1..])
  }

  /** What the widget of a refreshed slot may show at its last refresh: the unknown
      mark, or a value no older than its budget, and then the producer's own last
      text if it ever delivered one and nothing at all if it did not. */
  predicate Honest(s: Slot)
    requires s.refreshedAt.Some?
  {
    if s.b.showingUnknown then s.b.widget == UnknownMark
    else
      && s.okAt.Some? && s.refreshedAt.value - s.okAt.value <= s.b.maxStale
      && (match s.okText
          case Some(t) => s.b.widget == Text(t)
          case None => s.b.widget == Untouched || s.b.widget == Text(""))
  }

  predicate Good(s: Slot) {
    && (s.b.everOk <==> s.okAt.Some?)
    && (s.okText.Some? ==> s.okAt.Some?)
    && s.b.last == (if s.okText.Some? then s.okText.value else "")
    && match s.refreshedAt
       case None => s.okAt.None? && !s.b.showingUnknown && s.b.widget == Untouched
       case Some(r) =>
         && (s.okAt.Some? ==> s.okAt.value <= r && s.b.lastOk == s.okAt.value % WRAP)
         && Honest(s)
  }

  lemma AgeIsTrueAgeModWrap(at: nat, since: nat)
    requires since <= at
    ensures Age(at % WRAP, since % WRAP) == (at - since) % WRAP
  {
    var turns := at / WRAP - since / WRAP;
    assert at - since == (at % WRAP - since % WRAP) + WRAP * turns;
  }

  lemma TouchGood(s: Slot, at: nat, p: Produced)
    requires Good(s)
    requires s.refreshedAt.Some? ==> s.refreshedAt.value <= at < s.refreshedAt.value + WRAP - s.b.maxStale
    ensures Good(Touch(s, at, p))
  {
    hide Age;
    if s.refreshedAt.Some? && s.okAt.Some? && !s.b.showingUnknown {
      AgeIsTrueAgeModWrap(at, s.okAt.value);
    }
  }

  lemma StepGood(s: Slot, c: Call)
    requires Good(s) && Kept(s, c)
    ensures Good(Step(s, c))
  {
    hide Refresh;
    match c {
      case PageShow(_, at, p) => if Refreshes(s, c) { TouchGood(s.(b := s.b.(visible := true)), at, p); }
      case Tick(at, p) => if Refreshes(s, c) { TouchGood(s, at, p); }
      case Invalidate(_, at, p) => if Refreshes(s, c) { TouchGood(s, at, p); }
      case _ =>
    }
  }

  lemma {:induction false} RunGood(s: Slot, calls: seq<Call>)
    requires Good(s) && AllKept(s, calls)
    ensures Good(Run(s, calls))
    decreases |calls|
  {
    hide Good, Kept, Step;
    if calls != [] {
      StepGood(s, calls[0]);
      RunGood(Step(s, calls[0]), calls[1..]);
    }
  }

  /** The contract, across any number of clock wraps: after every call that refreshes
      a slot, its widget shows the unknown mark or a value whose true age is within
      its budget, and that value is the text the producer last delivered. */
  lemma NeverStale(calls: seq<Call>, c: Call)
    requires AllKept(EMPTY, calls)
    requires var s := Run(EMPTY, calls); Kept(s, c) && Refreshes(s, c)
    ensures
      var s := Step(Run(EMPTY, calls), c);
      && s.refreshedAt == Some(c.at)
      && (s.b.showingUnknown ==> s.b.widget == UnknownMark)
      && (!s.b.showingUnknown ==>
            && s.okAt.Some? && c.at - s.okAt.value <= s.b.maxStale
            && (s.okText.Some? ==> s.b.widget == Text(s.okText.value))
            && (s.okText.None? ==> s.b.widget == Untouched || s.b.widget == Text("")))
  {
    hide Refresh;
    RunGood(EMPTY, calls);
    StepGood(Run(EMPTY, calls), c);
  }

  // ----- producers whose first success is a value

  predicate ValueFirst(s: Slot, c: Call) {
    Refreshes(s, c) && c.answer.Same? ==> s.okText.Some?
  }

  predicate AllValueFirst(s: Slot, calls: seq<Call>)
    decreases |calls|
  {
    calls == [] || (ValueFirst(s, calls[0]) && AllValueFirst(Step(s, calls[0]), calls[1..]))
  }

  lemma {:induction false} ValueFirstKept(s: Slot, calls: seq<Call>)
    requires (s.okAt.Some? <==> s.okText.Some?) && AllValueFirst(s, calls)
    ensures var t := Run(s, calls); t.okAt.Some? <==> t.okText.Some?
    decreases |calls|
  {
    hide Refresh;
    if calls != [] {
      ValueFirstKept(Step(s, calls[0]), calls[1..]);
    }
  }

  /** For them the widget is the unknown mark or exactly the last delivered text. */
  lemma WidgetIsLastText(calls: seq<Call>)
    requires AllKept(EMPTY, calls) && AllValueFirst(EMPTY, calls)
    ensures
      var s := Run(EMPTY, calls);
      s.refreshedAt.Some? && !s.b.showingUnknown ==> s.okText.Some? && s.b.widget == Text(s.okText.value)
  {
    RunGood(EMPTY, calls);
    ValueFirstKept(EMPTY, calls);
  }

  /** A producer that starts with "unchanged" shows nothing, yet counts as fresh. */
  lemma SameFirstShowsNothing(page: int, maxStale: U32, at: nat)
    ensures
      var s := Run(EMPTY, [BindHere(page, maxStale, None), Tick(at, Same)]);
      s.okAt == Some(at) && !s.b.showingUnknown && s.b.widget == Untouched
  {
    var calls := [BindHere(page, maxStale, None), Tick(at, Same)];
    assert calls[1..] == [Tick(at, Same)] && calls[1..][1..] == [];
    var s1 := Step(EMPTY, calls[0]);
    assert Run(EMPTY, calls) == Run(s1, calls[1..]) == Run(Step(s1, calls[1]), []);
  }

  /** A source that is gone does not clear its value: the value stays exactly while
      there was a success, the mark is not up and the 32-bit age is within budget;
      otherwise the mark is shown. */
  lemma MissingSourceHolds(s: Slot, at: nat)
    requires Good(s) && (s.refreshedAt.Some? ==> s.refreshedAt.value <= at)
    ensures
      var t := Touch(s, at, Unknown);
      && (!t.b.showingUnknown <==>
            s.okAt.Some? && !s.b.showingUnknown && (at - s.okAt.value) % WRAP <= s.b.maxStale)
      && (!t.b.showingUnknown ==> t.b.widget == s.b.widget)
      && (t.b.showingUnknown ==> t.b.widget == UnknownMark)
  {
    hide Age;
    if s.okAt.Some? {
      AgeIsTrueAgeModWrap(at, s.okAt.value);
    }
  }

  // ----- the bound on the gap is exact

  /** Exactly when a refresh leaves an over-age value standing: the source is gone
      and the true age has wrapped back into the budget. */
  lemma StaleShownIffAliased(s: Slot, at: nat, p: Produced)
    requires Good(s) && s.refreshedAt.Some? && s.refreshedAt.value <= at
    ensures
      var t := Touch(s, at, p);
      (!t.b.showingUnknown && at - t.okAt.value > s.b.maxStale) <==>
      (p.Unknown? && !s.b.showingUnknown && at - s.okAt.value > s.b.maxStale
       && (at - s.okAt.value) % WRAP <= s.b.maxStale)
  {
    hide Age;
    if s.okAt.Some? {
      AgeIsTrueAgeModWrap(at, s.okAt.value);
    }
  }

  /** Refreshes one millisecond apart while the source is gone. */
  function Waiting(from: nat, n: nat): seq<Call>
    decreases n
  {
    if n == 0 then [] else [Tick(from + 1, Unknown)] + Waiting(from + 1, n - 1)
  }

  lemma {:induction false} WaitingHeld(s: Slot, since: nat, from: nat, n: nat)
    requires s.b.used && s.b.visible && s.b.everOk && !s.b.showingUnknown
    requires s.refreshedAt == Some(from) && s.b.lastOk == since % WRAP
    requires since <= from && from + n - since <= s.b.maxStale < WRAP - 1
    ensures AllKept(s, Waiting(from, n))
    ensures Run(s, Waiting(from, n)) == s.(refreshedAt := Some(from + n))
    decreases n
  {
    if n > 0 {
      Held(s, since, from + 1);
      WaitingHeld(s.(refreshedAt := Some(from + 1)), since, from + 1, n - 1);
      assert Waiting(from, n)[1..] == Waiting(from + 1, n - 1);
    }
  }

  /** One millisecond more is too much: for every budget but the largest and any
      start, a run that keeps the bound followed by one refresh exactly
      2^32 - maxStale after its last can show a value 2^32 ms old. */
  lemma GapBoundIsTight(page: int, maxStale: U32, start: nat, text: Value)
    requires maxStale < WRAP - 1
    ensures
      var calls := [BindHere(page, maxStale, None), Tick(start, Ok(text))] + Waiting(start, maxStale);
      var s := Run(EMPTY, calls);
      var t := Step(s, Tick(start + WRAP, Unknown));
      && AllKept(EMPTY, calls)
      && s.refreshedAt == Some(start + WRAP - (WRAP - maxStale))
      && !t.b.showingUnknown && t.b.widget == Text(text) && t.okAt == Some(start)
  {
    var calls := [BindHere(page, maxStale, None), Tick(start, Ok(text))] + Waiting(start, maxStale);
    var c1 := calls[1..];
    assert c1[0] == Tick(start, Ok(text)) && c1[1..] == Waiting(start, maxStale);
    var s1 := Step(EMPTY, calls[0]);
    var s2 := Slot(s1.b.(last := text, lastOk := start % WRAP, everOk := true, widget := Text(text)),
                   Some(start), Some(start), Some(text));
    assert Step(s1, c1[0]) == s2;
    WaitingHeld(s2, start, start, maxStale);
    var s3 := s2.(refreshedAt := Some(start + maxStale));
    Held(s3, start, start + WRAP);
    hide Step, Waiting;
    assert Run(EMPTY, calls) == Run(s1, c1) == Run(s2, c1[1..]) == s3;
    assert AllKept(s2, c1[1..]);
    assert AllKept(s1, c1);
  }

  /** With the source gone, an age that reads as within budget leaves the value up. */
  lemma Held(s: Slot, since: nat, at: nat)
    requires s.b.used && s.b.visible && s.b.everOk && !s.b.showingUnknown
    requires since <= at && s.b.lastOk == since % WRAP && (at - since) % WRAP <= s.b.maxStale
    ensures Step(s, Tick(at, Unknown)) == s.(refreshedAt := Some(at))
  {
    hide Age;
    AgeIsTrueAgeModWrap(at, since);
  }
}
