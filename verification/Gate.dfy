/** The gate: every coprocessor load must lie inside a reserved range. */
module Gate {
  import opened Text
  import opened IniLint
  import opened DtsLint
  import opened LoaderNames
  import R = DtsRoundTrip

  const U64_MAX := U64_LIMIT - 1

  function SaturatingAdd(a: nat, b: nat): nat { if a + b > U64_MAX then U64_MAX else a + b }

  predicate Contains(r: Range, addr: nat) { addr >= r.start && addr < SaturatingAdd(r.start, r.size) }

  /** Membership in the interval the range stands for, without a word size. */
  predicate Inside(r: Range, addr: nat) { r.start <= addr < r.start + r.size }

  /** The saturating test is interval membership, except that it never accepts the
      last address of the 64-bit space. */
  lemma ContainsIsMembership(r: Range, addr: nat)
    requires addr <= U64_MAX
    ensures Contains(r, addr) <==> Inside(r, addr) && addr != U64_MAX
  {}

  /** The address lies in some range, and is not the last one there is. */
  predicate Lies(addr: nat, reserved: seq<Range>) {
    addr != U64_MAX && exists j | 0 <= j < |reserved| :: Inside(reserved[j], addr)
  }

  predicate Covered(load: McuLoad, reserved: seq<Range>) {
    exists i | 0 <= i < |reserved| :: Contains(reserved[i], load.loadAddr)
  }

  /** `check`: the loads no range covers, in order. */
  function Check(loads: seq<McuLoad>, reserved: seq<Range>): seq<McuLoad>
    decreases |loads|
  {
    if loads == [] then []
    else (if Covered(loads[0], reserved) then [] else [loads[0]]) + Check(loads[1..], reserved)
  }

  /** A load is covered by a range that has its address, but the last address by none. */
  lemma CoveredIff(load: McuLoad, reserved: seq<Range>)
    requires load.loadAddr <= U64_MAX
    ensures Covered(load, reserved) <==>
            exists j | 0 <= j < |reserved| ::
              reserved[j].start <= load.loadAddr < reserved[j].start + reserved[j].size
              && load.loadAddr != 18446744073709551615
  {
    forall j | 0 <= j < |reserved|
      ensures Contains(reserved[j], load.loadAddr) <==>
              reserved[j].start <= load.loadAddr < reserved[j].start + reserved[j].size
              && load.loadAddr != 18446744073709551615
    {
      ContainsIsMembership(reserved[j], load.loadAddr);
    }
  }

  /** It reports exactly the uncovered loads, each as often as it is declared. */
  lemma {:induction false} CheckReports(loads: seq<McuLoad>, reserved: seq<Range>)
    ensures forall l :: l in Check(loads, reserved) <==> l in loads && !Covered(l, reserved)
    ensures forall l :: multiset(Check(loads, reserved))[l] == if Covered(l, reserved) then 0 else multiset(loads)[l]
    decreases |loads|
  {
    hide Covered;
    if loads != [] {
      CheckReports(loads[1..], reserved);
      assert loads == [loads[0]] + loads[1..];
    }
  }

  /** The whole tool on the text of the two files. */
  function Lint(ini: string, dts: string): seq<McuLoad> { Check(IniLoads(ini), ReservedRanges(dts)) }

  method LintFiles(ini: string, dts: string) returns (findings: seq<McuLoad>)
    ensures findings == Lint(ini, dts)
  {
    var loads := ParseIniMcuLoads(ini);
    var ranges := ParseReservedRanges(dts);
    findings := Check(loads, ranges);
  }

  lemma {:induction false} CheckedLoads(ls: seq<Loader>)
    ensures forall l :: l in Checked(ls) <==>
              exists i | 0 <= i < |ls| ::
                && ls[i].addr.Some? && !KnownSafe(ls[i].name)
                && l == McuLoad(ls[i].key, ls[i].name, ls[i].addr.value)
    decreases |ls|
  {
    hide KnownSafe;
    if ls != [] {
      CheckedLoads(ls[1..]);
      forall l
        ensures l in Checked(ls) <==> exists i | 0 <= i < |ls| ::
                  && ls[i].addr.Some? && !KnownSafe(ls[i].name)
                  && l == McuLoad(ls[i].key, ls[i].name, ls[i].addr.value)
      {
        if l in Checked(ls[1..]) {
          var i :| 0 <= i < |ls[1..]| && ls[1..][i].addr.Some? && !KnownSafe(ls[1..][i].name)
                   && l == McuLoad(ls[1..][i].key, ls[1..][i].name, ls[1..][i].addr.value);
          assert ls[i + 1] == ls[1..][i];
        }
        if i :| 0 <= i < |ls| && ls[i].addr.Some? && !KnownSafe(ls[i].name)
                && l == McuLoad(ls[i].key, ls[i].name, ls[i].addr.value) {
          if i > 0 {
            assert ls[1..][i - 1] == ls[i];
          }
        }
      }
    }
  }

  /** End to end, on printed files: the gate passes exactly when every loader that has
      an address and is not a known boot component loads inside a range the scanner
      takes (and not at the very last address); these are the ranges of the
      `reserved-memory` nodes if the word strays before no other node with a range. */
  lemma GatePassesIff(ls: seq<Loader>, blocks: seq<R.Block>, after: string)
    requires GoodLoaders(ls) && R.GoodDocument(blocks, after)
    ensures
      Lint(PrintDoc(LoaderDoc(ls)), R.Document(blocks, after)) == [] <==>
      forall i | 0 <= i < |ls| && ls[i].addr.Some? && !KnownSafe(ls[i].name) ::
        Lies(ls[i].addr.value, R.AllRanges(blocks))
    ensures R.NoStrays(blocks) ==> R.AllRanges(blocks) == R.MeantRanges(blocks)
  {
    assert R.NoStrays(blocks) ==> R.AllRanges(blocks) == R.MeantRanges(blocks) by { R.MeantOrMore(blocks); }
    hide IniLoads, PrintDoc, LoaderDoc, ReservedRanges, R.Document, R.GoodDocument, R.AllRanges;
    hide KnownSafe, Checked, Contains;
    LoaderListRoundTrip(ls);
    R.DtsRoundTrip(blocks, after);
    var reserved := R.AllRanges(blocks);
    CheckReports(Checked(ls), reserved);
    CheckedLoads(ls);
    var findings := Check(Checked(ls), reserved);
    forall i | 0 <= i < |ls| && ls[i].addr.Some? && !KnownSafe(ls[i].name)
      ensures
        var l := McuLoad(ls[i].key, ls[i].name, ls[i].addr.value);
        && l in Checked(ls)
        && (l !in findings <==> Covered(l, reserved))
        && (Covered(l, reserved) <==> Lies(ls[i].addr.value, reserved))
    {
      var l := McuLoad(ls[i].key, ls[i].name, ls[i].addr.value);
      assert l in Checked(ls);
      assert GoodLoader(ls[i]);
      CoveredIsInside(l, reserved);
    }
    if findings != [] {
      assert findings[0] in findings;
    }
  }

  /** The gate with no reserved memory at all: a comment that mentions it opens the
      whole of RAM to every loader, 0x40000 included. */
  lemma CommentOpensGate(ls: seq<Loader>, ram: Range)
    requires GoodLoaders(ls) && R.U64Range(ram)
    requires forall i | 0 <= i < |ls| && ls[i].addr.Some? :: Lies(ls[i].addr.value, [ram])
    ensures R.MeantRanges(R.CommentedRoot(ram)) == []
    ensures Lint(PrintDoc(LoaderDoc(ls)), R.Document(R.CommentedRoot(ram), "")) == []
  {
    hide R.Document, R.GoodDocument, R.CommentedRoot, ReservedRanges, Lies, Lint, PrintDoc, LoaderDoc, GoodLoaders;
    R.CommentTakesRoot(ram);
    R.DtsRoundTrip(R.CommentedRoot(ram), "");
    GatePassesIff(ls, R.CommentedRoot(ram), "");
  }

  /** A coprocessor that loads where nothing is reserved is reported, however much its name
      looks like a boot component's. */
  lemma CoprocessorIsReported(ls: seq<Loader>, blocks: seq<R.Block>, after: string, i: nat)
    requires GoodLoaders(ls) && R.GoodDocument(blocks, after)
    requires i < |ls| && (ls[i].name == "SplRtos" || ls[i].name == "Hpmcu") && ls[i].addr.Some?
    requires forall j | 0 <= j < |R.AllRanges(blocks)| ::
               !(R.AllRanges(blocks)[j].start <= ls[i].addr.value
                 < R.AllRanges(blocks)[j].start + R.AllRanges(blocks)[j].size)
    ensures Lint(PrintDoc(LoaderDoc(ls)), R.Document(blocks, after)) != []
  {
    hide Lint, PrintDoc, LoaderDoc, KnownSafe, R.Document, R.GoodDocument, GoodLoaders;
    GatePassesIff(ls, blocks, after);
    CoprocessorsAreChecked();
    assert !Lies(ls[i].addr.value, R.AllRanges(blocks));
  }

  lemma CoveredIsInside(l: McuLoad, reserved: seq<Range>)
    requires l.loadAddr <= U64_MAX
    ensures Covered(l, reserved) <==> Lies(l.loadAddr, reserved)
  {
    forall j | 0 <= j < |reserved|
      ensures Contains(reserved[j], l.loadAddr) <==> Inside(reserved[j], l.loadAddr) && l.loadAddr != U64_MAX
    {
      ContainsIsMembership(reserved[j], l.loadAddr);
    }
  }
}
