/** The loader `.ini` scanner: which coprocessor firmware loads a text declares. */
module IniLint {
  import opened Basics
  import opened Text

  datatype McuLoad = McuLoad(loader: string, name: string, loadAddr: nat)

  function UpperChar(c: char): char { if 'a' <= c <= 'z' then 'A' + (c - 'a') else c }

  function Upper(s: string): string { seq(|s|, i requires 0 <= i < |s| => UpperChar(s[i])) }

  function LowerChar(c: char): char { if 'A' <= c <= 'Z' then 'a' + (c - 'A') else c }

  predicate Alphanumeric(c: char) { '0' <= c <= '9' || 'a' <= c <= 'z' || 'A' <= c <= 'Z' }

  function Normalized(s: string): string
    decreases |s|
  {
    if s == [] then []
    else (if Alphanumeric(s[0]) then [LowerChar(s[0])] else []) + Normalized(s[1..])
  }

  const SAFE: set<string> := {
    "flashdata", "flashboot", "nandboot", "nandboot1", "nandboot2", "sdboot", "emmcboot", "spinorboot", "ddr",
    "usbplug", "spl", "uboot", "loader", "miniloader", "trust", "tee", "atf", "bl31", "fsbl", "idblock"}

  /** A whole normalized name on the allowlist, never a part of one. */
  predicate KnownSafe(name: string) { Normalized(name) in SAFE }

  // ----- one line

  function StripComment(s: string): string
    decreases |s|
  {
    if s == [] || s[0] == '#' || s[0] == ';' then [] else [s[0]] + StripComment(s[1..])
  }

  function SplitOnce(s: string): Option<(string, string)>
    decreases |s|
  {
    if s == [] then None
    else if s[0] == '=' then Some(("", s[1..]))
    else match SplitOnce(s[1..])
      case None => None
      case Some(kv) => Some(([s[0]] + kv.0, kv.1))
  }

  datatype Ini = Ini(section: string, loaders: seq<(string, string)>, addrs: map<string, nat>)

  const NOTHING := Ini("", [], map[])

  predicate IsSection(line: string) { |line| >= 2 && line[0] == '[' && line[|line| - 1] == ']' }

  /** A `key=value` line in the current section. */
  function Assign(st: Ini, k: string, v: string): Ini {
    if st.section == "LOADER_OPTION" && HasPrefix(Upper(k), "LOADER") then
      st.(loaders := st.loaders + [(Upper(k), v)])
    else if Upper(k) == "LOAD_ADDR" && ParseAddr(v).Some? then
      st.(addrs := st.addrs[Upper(st.section) := ParseAddr(v).value])
    else st
  }

  function Line(st: Ini, raw: string): Ini {
    var line := Trim(StripComment(raw));
    if line == [] then st
    else if IsSection(line) then st.(section := Trim(line[1..|line| - 1]))
    else match SplitOnce(line)
      case None => st
      case Some(kv) => Assign(st, Trim(kv.0), Trim(kv.1))
  }

  function Scan(st: Ini, lines: seq<string>): Ini
    decreases |lines|
  {
    if lines == [] then st else Scan(Line(st, lines[0]), lines[1..])
  }

  /** The text between newlines. A carriage return or an empty last line makes no
      difference to a scan that trims every line and skips empty ones. */
  function Lines(s: string): (ls: seq<string>)
    ensures ls != []
    decreases |s|
  {
    if s == [] then [""]
    else if s[0] == '\n' then [""] + Lines(s[1..])
    else
      var rest := Lines(s[1..]);
      [[s[0]] + rest[0]] + rest[1..]
  }

  function Loads(st: Ini, loaders: seq<(string, string)>): seq<McuLoad>
    decreases |loaders|
  {
    if loaders == [] then []
    else
      var (loader, name) := loaders[0];
      (if !KnownSafe(name) && loader + "_PARAM" in st.addrs
       then [McuLoad(loader, name, st.addrs[loader + "_PARAM"])] else []) + Loads(st, loaders[1..])
  }

  function IniLoads(text: string): seq<McuLoad> {
    var st := Scan(NOTHING, Lines(text));
    Loads(st, st.loaders)
  }

  /** The line loop of `parse_ini_mcu_loads`. */
  method ScanLines(lines: seq<string>)
    returns (section: string, loaders: seq<(string, string)>, loadAddrs: map<string, nat>)
    ensures Ini(section, loaders, loadAddrs) == Scan(NOTHING, lines)
  {
    hide Trim, StripComment, SplitOnce, Upper, ParseAddr, HasPrefix;
    section, loaders, loadAddrs := "", [], map[];
    for i := 0 to |lines|
      invariant Scan(NOTHING, lines) == Scan(Ini(section, loaders, loadAddrs), lines[i..])
    {
      ghost var before := Ini(section, loaders, loadAddrs);
      assert lines[i..][1..] == lines[i + 1..];
      var line := Trim(StripComment(lines[i]));
      if line == [] {
        continue;
      }
      if |line| >= 2 && line[0] == '[' && line[|line| - 1] == ']' {
        section := Trim(line[1..|line| - 1]);
        continue;
      }
      var kv := SplitOnce(line);
      if kv.None? {
        continue;
      }
      var k, v := Trim(kv.value.0), Trim(kv.value.1);
      if section == "LOADER_OPTION" && HasPrefix(Upper(k), "LOADER") {
        loaders := loaders + [(Upper(k), v)];
      } else if Upper(k) == "LOAD_ADDR" {
        var a := ParseAddr(v);
        if a.Some? {
          loadAddrs := loadAddrs[Upper(section) := a.value];
        }
      }
      assert Ini(section, loaders, loadAddrs) == Line(before, lines[i]);
    }
  }

  /** `parse_ini_mcu_loads`: scan, then look every unsafe loader's address up. */
  method ParseIniMcuLoads(ini: string) returns (out: seq<McuLoad>)
    ensures out == IniLoads(ini)
  {
    hide Scan, KnownSafe;
    var section, loaders, loadAddrs := ScanLines(Lines(ini));
    out := [];
    ghost var st := Ini(section, loaders, loadAddrs);
    for i := 0 to |loaders|
      invariant Loads(st, loaders) == out + Loads(st, loaders[i..])
    {
      var (loader, name) := loaders[i];
      assert loaders[i..][0] == loaders[i] && loaders[i..][1..] == loaders[i + 1..];
      if KnownSafe(name) {
        continue;
      }
      if loader + "_PARAM" in loadAddrs {
        out := out + [McuLoad(loader, name, loadAddrs[loader + "_PARAM"])];
      }
    }
  }

  // ----- documents: sections of key-value pairs, and their plain text

  datatype Section = Section(name: string, entries: seq<(string, string)>)

  /** No white space and none of the characters the format gives a meaning. */
  predicate Plain(s: string) {
    forall i | 0 <= i < |s| ::
      !IsSpace(s[i]) && s[i] != '#' && s[i] != ';' && s[i] != '=' && s[i] != '[' && s[i] != ']'
  }

  predicate PlainDoc(doc: seq<Section>) {
    forall i | 0 <= i < |doc| ::
      Plain(doc[i].name) && forall j | 0 <= j < |doc[i].entries| :: Plain(doc[i].entries[j].0) && Plain(doc[i].entries[j].1)
  }

  function EntryLines(es: seq<(string, string)>): seq<string> {
    seq(|es|, i requires 0 <= i < |es| => es[i].0 + "=" + es[i].1)
  }

  function DocLines(doc: seq<Section>): seq<string>
    decreases |doc|
  {
    if doc == [] then [] else ["[" + doc[0].name + "]"] + EntryLines(doc[0].entries) + DocLines(doc[1..])
  }

  function Join(lines: seq<string>): string
    decreases |lines|
  {
    if lines == [] then "" else lines[0] + "\n" + Join(lines[1..])
  }

  function PrintDoc(doc: seq<Section>): string { Join(DocLines(doc)) }

  /** What a document means, without any text in between. */
  function AssignAll(st: Ini, es: seq<(string, string)>): Ini
    decreases |es|
  {
    if es == [] then st else AssignAll(Assign(st, es[0].0, es[0].1), es[1..])
  }

  function Meaning(st: Ini, doc: seq<Section>): Ini
    decreases |doc|
  {
    if doc == [] then st else Meaning(AssignAll(st.(section := doc[0].name), doc[0].entries), doc[1..])
  }

  // ----- scanning the text of a document gives its meaning

  predicate NoNewline(s: string) { forall i | 0 <= i < |s| :: s[i] != '\n' }

  lemma {:induction false} LinesOfLine(line: string, rest: string)
    requires NoNewline(line)
    ensures Lines(line + "\n" + rest) == [line] + Lines(rest)
    decreases |line|
  {
    var s := line + "\n" + rest;
    if line == [] {
      assert s[1..] == rest;
    } else {
      assert s[1..] == line[1..] + "\n" + rest;
      LinesOfLine(line[1..], rest);
      assert [s[0]] + line[1..] == line;
      assert ([line[1..]] + Lines(rest))[1..] == Lines(rest);
    }
  }

  lemma {:induction false} LinesOfJoin(lines: seq<string>)
    requires forall i | 0 <= i < |lines| :: NoNewline(lines[i])
    ensures Lines(Join(lines)) == lines + [""]
    decreases |lines|
  {
    if lines != [] {
      LinesOfLine(lines[0], Join(lines[1..]));
      LinesOfJoin(lines[1..]);
    }
  }

  lemma {:induction false} NoComment(s: string)
    requires forall i | 0 <= i < |s| :: s[i] != '#' && s[i] != ';'
    ensures StripComment(s) == s
    decreases |s|
  {
    if s != [] {
      NoComment(s[1..]);
    }
  }

  lemma {:induction false} SplitAtEquals(k: string, v: string)
    requires forall i | 0 <= i < |k| :: k[i] != '='
    ensures SplitOnce(k + "=" + v) == Some((k, v))
    decreases |k|
  {
    var s := k + "=" + v;
    if k == [] {
      assert s[1..] == v;
    } else {
      assert s[1..] == k[1..] + "=" + v;
      SplitAtEquals(k[1..], v);
      assert [s[0]] + k[1..] == k;
    }
  }

  lemma SectionLine(st: Ini, name: string)
    requires Plain(name)
    ensures Line(st, "[" + name + "]") == st.(section := name)
  {
    var line := "[" + name + "]";
    assert forall i | 0 <= i < |line| :: line[i] == '[' || line[i] == ']' || line[i] in name;
    assert NoSpace(line);
    NoComment(line);
    TrimNoSpace(line);
    assert line[1..|line| - 1] == name;
    TrimNoSpace(name);
  }

  lemma EntryLine(st: Ini, k: string, v: string)
    requires Plain(k) && Plain(v)
    ensures Line(st, k + "=" + v) == Assign(st, k, v)
  {
    hide Assign;
    var line := k + "=" + v;
    assert forall i | 0 <= i < |line| :: line[i] == '=' || line[i] in k || line[i] in v;
    assert NoSpace(line);
    NoComment(line);
    TrimNoSpace(line);
    assert line[0] != '[';
    SplitAtEquals(k, v);
    TrimNoSpace(k);
    TrimNoSpace(v);
  }

  lemma {:induction false} ScanEntries(st: Ini, es: seq<(string, string)>, rest: seq<string>)
    requires forall j | 0 <= j < |es| :: Plain(es[j].0) && Plain(es[j].1)
    ensures Scan(st, EntryLines(es) + rest) == Scan(AssignAll(st, es), rest)
    decreases |es|
  {
    hide Line, Assign, Plain;
    if es == [] {
      assert EntryLines(es) + rest == rest;
    } else {
      var lines := EntryLines(es) + rest;
      EntryLine(st, es[0].0, es[0].1);
      assert lines[1..] == EntryLines(es[1..]) + rest;
      ScanEntries(Assign(st, es[0].0, es[0].1), es[1..], rest);
    }
  }

  lemma {:induction false} ScanDoc(st: Ini, doc: seq<Section>, rest: seq<string>)
    requires PlainDoc(doc)
    ensures Scan(st, DocLines(doc) + rest) == Scan(Meaning(st, doc), rest)
    decreases |doc|
  {
    hide Line, AssignAll, Scan, DocLines, EntryLines, Plain;
    if doc == [] {
      DocLinesUnfold(doc, rest);
    } else {
      var head, es := "[" + doc[0].name + "]", doc[0].entries;
      var tail := DocLines(doc[1..]) + rest;
      DocLinesUnfold(doc, rest);
      ScanCons(st, head, EntryLines(es) + tail);
      SectionLine(st, doc[0].name);
      ScanEntries(st.(section := doc[0].name), es, tail);
      ScanDoc(AssignAll(st.(section := doc[0].name), es), doc[1..], rest);
    }
  }

  lemma DocLinesUnfold(doc: seq<Section>, rest: seq<string>)
    ensures DocLines(doc) + rest ==
            if doc == [] then rest
            else ["[" + doc[0].name + "]"] + (EntryLines(doc[0].entries) + (DocLines(doc[1..]) + rest))
  {
    hide EntryLines;
  }

  lemma ScanCons(st: Ini, line: string, rest: seq<string>)
    ensures Scan(st, [line] + rest) == Scan(Line(st, line), rest)
  {
    hide Line;
    assert ([line] + rest)[1..] == rest;
  }

  lemma {:induction false} DocLinesClean(doc: seq<Section>)
    requires PlainDoc(doc)
    ensures forall i | 0 <= i < |DocLines(doc)| :: NoNewline(DocLines(doc)[i])
    decreases |doc|
  {
    if doc != [] {
      DocLinesClean(doc[1..]);
      var es := doc[0].entries;
      forall j | 0 <= j < |es| ensures NoNewline(EntryLines(es)[j]) {
        assert Plain(es[j].0) && Plain(es[j].1);
      }
      assert NoNewline("[" + doc[0].name + "]");
    }
  }

  /** The scanner reads back exactly what a plain document says, for every document:
      any sections, in any order, any number of times. */
  lemma IniRoundTrip(doc: seq<Section>)
    requires PlainDoc(doc)
    ensures
      var st := Meaning(NOTHING, doc);
      IniLoads(PrintDoc(doc)) == Loads(st, st.loaders)
  {
    var lines := DocLines(doc);
    DocLinesClean(doc);
    LinesOfJoin(lines);
    ScanDoc(NOTHING, doc, [""]);
    assert Line(Meaning(NOTHING, doc), "") == Meaning(NOTHING, doc);
    assert Scan(Meaning(NOTHING, doc), [""]) == Scan(Line(Meaning(NOTHING, doc), ""), []);
  }

  // ----- section order does not matter

  predicate IsLoaderEntry(section: string, k: string) { section == "LOADER_OPTION" && HasPrefix(Upper(k), "LOADER") }

  function LoadersIn(section: string, es: seq<(string, string)>): seq<(string, string)>
    decreases |es|
  {
    if es == [] then []
    else (if IsLoaderEntry(section, es[0].0) then [(Upper(es[0].0), es[0].1)] else []) + LoadersIn(section, es[1..])
  }

  /** The last readable load address of a section. */
  function AddrIn(section: string, es: seq<(string, string)>): Option<nat>
    decreases |es|
  {
    if es == [] then None
    else
      var later := AddrIn(section, es[1..]);
      if later.Some? then later
      else if !IsLoaderEntry(section, es[0].0) && Upper(es[0].0) == "LOAD_ADDR" then ParseAddr(es[0].1)
      else None
  }

  function Note(addrs: map<string, nat>, section: string, a: Option<nat>): map<string, nat> {
    if a.Some? then addrs[Upper(section) := a.value] else addrs
  }

  /** A section adds its loaders and overwrites its own address, nothing else. */
  lemma {:induction false} SectionEffect(st: Ini, es: seq<(string, string)>)
    ensures AssignAll(st, es) == Ini(st.section, st.loaders + LoadersIn(st.section, es),
                                     Note(st.addrs, st.section, AddrIn(st.section, es)))
    decreases |es|
  {
    hide Upper, HasPrefix, ParseAddr;
    if es != [] {
      var st1 := Assign(st, es[0].0, es[0].1);
      SectionEffect(st1, es[1..]);
      var now := if IsLoaderEntry(st.section, es[0].0) then [(Upper(es[0].0), es[0].1)] else [];
      var later := LoadersIn(st.section, es[1..]);
      assert st.loaders + (now + later) == (st.loaders + now) + later;
      assert st.loaders + [] == st.loaders;
    }
  }

  predicate Alike(a: Ini, b: Ini) { a.loaders == b.loaders && a.addrs == b.addrs }

  lemma {:induction false} MeaningAlike(a: Ini, b: Ini, doc: seq<Section>)
    requires Alike(a, b)
    ensures Alike(Meaning(a, doc), Meaning(b, doc))
    decreases |doc|
  {
    hide AssignAll;
    if doc != [] {
      assert a.(section := doc[0].name) == b.(section := doc[0].name);
    }
  }

  lemma {:induction false} MeaningConcat(st: Ini, a: seq<Section>, b: seq<Section>)
    ensures Meaning(st, a + b) == Meaning(Meaning(st, a), b)
    decreases |a|
  {
    hide AssignAll;
    if a == [] {
      assert a + b == b;
    } else {
      assert (a + b)[1..] == a[1..] + b;
      MeaningConcat(AssignAll(st.(section := a[0].name), a[0].entries), a[1..], b);
    }
  }

  lemma MeaningTwo(st: Ini, s: Section, t: Section)
    ensures Meaning(st, [s, t]) ==
            AssignAll(AssignAll(st.(section := s.name), s.entries).(section := t.name), t.entries)
  {
    hide AssignAll;
    assert [s, t][1..] == [t] && [t][1..] == [];
    assert Meaning(st, [s, t]) == Meaning(AssignAll(st.(section := s.name), s.entries), [t]);
  }

  lemma TwoSectionsSwap(st: Ini, s: Section, t: Section)
    requires Upper(s.name) != Upper(t.name)
    ensures Alike(Meaning(st, [s, t]), Meaning(st, [t, s]))
  {
    hide AssignAll, Upper, LoadersIn, AddrIn, Meaning;
    MeaningTwo(st, s, t);
    MeaningTwo(st, t, s);
    SectionEffect(st.(section := s.name), s.entries);
    SectionEffect(st.(section := t.name), t.entries);
    SectionEffect(AssignAll(st.(section := s.name), s.entries).(section := t.name), t.entries);
    SectionEffect(AssignAll(st.(section := t.name), t.entries).(section := s.name), s.entries);
    OnlyOptionLists(s);
    OnlyOptionLists(t);
    var ls, lt := LoadersIn(s.name, s.entries), LoadersIn(t.name, t.entries);
    assert ls == [] || lt == [];
    assert (st.loaders + ls) + lt == (st.loaders + lt) + ls;
  }

  lemma {:induction false} OnlyOptionLists(s: Section)
    ensures LoadersIn(s.name, s.entries) != [] ==> s.name == "LOADER_OPTION"
    decreases |s.entries|
  {
    if s.entries != [] {
      OnlyOptionLists(Section(s.name, s.entries[1..]));
    }
  }

  /** Exchanging two neighbouring sections of different names anywhere in a document
      changes nothing the scanner reports. */
  lemma SectionOrderIrrelevant(a: seq<Section>, s: Section, t: Section, b: seq<Section>)
    requires PlainDoc(a + [s, t] + b) && PlainDoc(a + [t, s] + b) && Upper(s.name) != Upper(t.name)
    ensures IniLoads(PrintDoc(a + [s, t] + b)) == IniLoads(PrintDoc(a + [t, s] + b))
  {
    hide IniLoads, PrintDoc, Meaning, Upper, PlainDoc;
    IniRoundTrip(a + [s, t] + b);
    IniRoundTrip(a + [t, s] + b);
    var st := Meaning(NOTHING, a);
    MeaningConcat(NOTHING, a + [s, t], b);
    MeaningConcat(NOTHING, a, [s, t]);
    MeaningConcat(NOTHING, a + [t, s], b);
    MeaningConcat(NOTHING, a, [t, s]);
    TwoSectionsSwap(st, s, t);
    MeaningAlike(Meaning(st, [s, t]), Meaning(st, [t, s]), b);
    LoadsAlike(Meaning(NOTHING, a + [s, t] + b), Meaning(NOTHING, a + [t, s] + b),
               Meaning(NOTHING, a + [s, t] + b).loaders);
  }

  lemma {:induction false} LoadsAlike(a: Ini, b: Ini, ls: seq<(string, string)>)
    requires Alike(a, b)
    ensures Loads(a, ls) == Loads(b, ls)
    decreases |ls|
  {
    if ls != [] {
      LoadsAlike(a, b, ls[1..]);
    }
  }

  // ----- a list of loaders comes back as it was

  datatype Loader = Loader(key: string, name: string, addr: Option<nat>)

  predicate GoodLoader(l: Loader) {
    && Plain(l.key) && Plain(l.name) && Upper(l.key) == l.key && HasPrefix(l.key, "LOADER")
    && (l.addr.Some? ==> l.addr.value < U64_LIMIT)
  }

  predicate GoodLoaders(ls: seq<Loader>) {
    && (forall i | 0 <= i < |ls| :: GoodLoader(ls[i]))
    && (forall i, j | 0 <= i < j < |ls| :: ls[i].key != ls[j].key)
  }

  function OptionEntries(ls: seq<Loader>): seq<(string, string)> {
    seq(|ls|, i requires 0 <= i < |ls| => (ls[i].key, ls[i].name))
  }

  function ParamSections(ls: seq<Loader>): seq<Section>
    decreases |ls|
  {
    if ls == [] then []
    else (if ls[0].addr.Some? then [Section(ls[0].key + "_PARAM", [("LOAD_ADDR", PrintHex(ls[0].addr.value))])] else [])
         + ParamSections(ls[1..])
  }

  function LoaderDoc(ls: seq<Loader>): seq<Section> {
    [Section("LOADER_OPTION", OptionEntries(ls))] + ParamSections(ls)
  }

  /** The loads the gate must look at. */
  function Checked(ls: seq<Loader>): seq<McuLoad>
    decreases |ls|
  {
    if ls == [] then []
    else (if ls[0].addr.Some? && !KnownSafe(ls[0].name) then [McuLoad(ls[0].key, ls[0].name, ls[0].addr.value)] else [])
         + Checked(ls[1..])
  }

  function Params(addrs: map<string, nat>, ls: seq<Loader>): map<string, nat>
    decreases |ls|
  {
    if ls == [] then addrs
    else Params(if ls[0].addr.Some? then addrs[ls[0].key + "_PARAM" := ls[0].addr.value] else addrs, ls[1..])
  }

  lemma UpperFixed()
    ensures Upper("LOAD_ADDR") == "LOAD_ADDR" && Upper("_PARAM") == "_PARAM"
    ensures !HasPrefix("LOAD_ADDR", "LOADER")
  {
    assert "LOAD_ADDR"[..6] == "LOAD_A";
    assert "LOAD_A"[4] != "LOADER"[4];
  }

  lemma ParamSection(st: Ini, l: Loader)
    requires GoodLoader(l) && l.addr.Some?
    ensures
      var s := Section(l.key + "_PARAM", [("LOAD_ADDR", PrintHex(l.addr.value))]);
      && PlainDoc([s])
      && AssignAll(st.(section := s.name), s.entries) ==
         Ini(s.name, st.loaders, st.addrs[s.name := l.addr.value])
  {
    var s := Section(l.key + "_PARAM", [("LOAD_ADDR", PrintHex(l.addr.value))]);
    UpperFixed();
    ParseOfPrint(l.addr.value);
    PrintHexChars(l.addr.value);
    assert Upper(s.name) == s.name by {
      assert Upper(l.key + "_PARAM") == Upper(l.key) + Upper("_PARAM");
    }
    assert Plain("_PARAM") && Plain("LOAD_ADDR");
    HexPlain(l.addr.value);
    assert s.entries[1..] == [];
    assert AssignAll(st.(section := s.name), s.entries) ==
           AssignAll(Assign(st.(section := s.name), "LOAD_ADDR", PrintHex(l.addr.value)), []);
  }

  lemma HexPlain(n: nat)
    ensures Plain(PrintHex(n))
  {
    PrintHexChars(n);
  }

  lemma {:induction false} ParamsMeaning(st: Ini, ls: seq<Loader>)
    requires forall i | 0 <= i < |ls| :: GoodLoader(ls[i])
    ensures PlainDoc(ParamSections(ls))
    ensures Meaning(st, ParamSections(ls)).loaders == st.loaders
    ensures Meaning(st, ParamSections(ls)).addrs == Params(st.addrs, ls)
    decreases |ls|
  {
    hide AssignAll, GoodLoader, PrintHex;
    if ls != [] {
      var doc := ParamSections(ls);
      if ls[0].addr.Some? {
        ParamSection(st, ls[0]);
        assert doc[1..] == ParamSections(ls[1..]);
        ParamsMeaning(AssignAll(st.(section := doc[0].name), doc[0].entries), ls[1..]);
      } else {
        assert doc == ParamSections(ls[1..]);
        ParamsMeaning(st, ls[1..]);
      }
    }
  }

  lemma {:induction false} OptionsMeaning(ls: seq<Loader>)
    requires forall i | 0 <= i < |ls| :: GoodLoader(ls[i])
    ensures LoadersIn("LOADER_OPTION", OptionEntries(ls)) == OptionEntries(ls)
    ensures AddrIn("LOADER_OPTION", OptionEntries(ls)) == None
    decreases |ls|
  {
    hide Plain;
    if ls != [] {
      OptionsMeaning(ls[1..]);
      assert OptionEntries(ls)[1..] == OptionEntries(ls[1..]);
    }
  }

  lemma {:induction false} ParamsLookup(addrs: map<string, nat>, ls: seq<Loader>, key: string)
    requires forall i, j | 0 <= i < j < |ls| :: ls[i].key != ls[j].key
    ensures
      var m := Params(addrs, ls);
      && (forall i | 0 <= i < |ls| && ls[i].key == key && ls[i].addr.Some? ::
            key + "_PARAM" in m && m[key + "_PARAM"] == ls[i].addr.value)
      && ((forall i | 0 <= i < |ls| && ls[i].key == key :: ls[i].addr.None?) ==>
            (key + "_PARAM" in m <==> key + "_PARAM" in addrs) &&
            (key + "_PARAM" in m ==> m[key + "_PARAM"] == addrs[key + "_PARAM"]))
    decreases |ls|
  {
    if ls != [] {
      var next := if ls[0].addr.Some? then addrs[ls[0].key + "_PARAM" := ls[0].addr.value] else addrs;
      ParamsLookup(next, ls[1..], key);
      SuffixOneToOne(ls[0].key, key);
    }
  }

  lemma SuffixOneToOne(a: string, b: string)
    ensures a + "_PARAM" == b + "_PARAM" <==> a == b
  {
    if a + "_PARAM" == b + "_PARAM" {
      assert a == (a + "_PARAM")[..|a|];
      assert b == (b + "_PARAM")[..|b|];
    }
  }

  lemma {:induction false} LoadsAre(st: Ini, all: seq<Loader>, from: nat)
    requires GoodLoaders(all) && from <= |all| && st.addrs == Params(map[], all)
    ensures Loads(st, OptionEntries(all[from..])) == Checked(all[from..])
    decreases |all| - from
  {
    hide GoodLoader, KnownSafe;
    if from < |all| {
      var ls := all[from..];
      LoadsAre(st, all, from + 1);
      assert ls[1..] == all[from + 1..];
      assert OptionEntries(ls)[1..] == OptionEntries(ls[1..]);
      ParamsLookup(map[], all, ls[0].key);
      assert ls[0] == all[from];
    }
  }

  /** Printing a list of loaders and scanning the text gives back exactly the loads
      that must be checked, with their addresses, in order. */
  lemma LoaderListRoundTrip(ls: seq<Loader>)
    requires GoodLoaders(ls)
    ensures IniLoads(PrintDoc(LoaderDoc(ls))) == Checked(ls)
  {
    hide IniLoads, PrintDoc, AssignAll, GoodLoader, Upper, Params;
    var options := Section("LOADER_OPTION", OptionEntries(ls));
    var doc := LoaderDoc(ls);
    var st0 := NOTHING.(section := "LOADER_OPTION");
    OptionsMeaning(ls);
    SectionEffect(st0, options.entries);
    var st1 := AssignAll(st0, options.entries);
    ParamsMeaning(st1, ls);
    OptionsPlain(ls);
    assert doc[1..] == ParamSections(ls);
    assert Meaning(NOTHING, doc) == Meaning(st1, doc[1..]);
    IniRoundTrip(doc);
    assert [] + OptionEntries(ls) == OptionEntries(ls);
    LoadsAre(Meaning(NOTHING, doc), ls, 0);
    assert ls[0..] == ls;
  }

  lemma OptionsPlain(ls: seq<Loader>)
    requires GoodLoaders(ls)
    ensures PlainDoc([Section("LOADER_OPTION", OptionEntries(ls))])
  {
    assert Plain("LOADER_OPTION");
  }
}
