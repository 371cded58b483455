/** The forms a loader `.ini` may take: white space, comments, empty lines and the case
    of its keys make no difference. */
module IniForms {
  import opened Basics
  import opened Text
  import opened TextForms
  import opened IniLint

  // ----- one line

  /** Empty, or from its first comment sign to the end of the line. */
  predicate Comment(s: string) { s == "" || s[0] == '#' || s[0] == ';' }

  predicate NoSigns(s: string) { forall i | 0 <= i < |s| :: s[i] != '#' && s[i] != ';' }

  lemma {:induction false} CommentGoes(s: string, comment: string)
    requires NoSigns(s) && Comment(comment)
    ensures StripComment(s + comment) == s
    decreases |s|
  {
    if s == [] {
      assert s + comment == comment;
    } else {
      assert (s + comment)[1..] == s[1..] + comment;
      CommentGoes(s[1..], comment);
    }
  }

  lemma BlankHasNoSigns(w: string)
    requires Blank(w)
    ensures NoSigns(w)
  {}

  /** A line as written: noise, or a section or an entry with white space and a comment
      anywhere they may stand. */
  datatype Form =
    | Noise(blank: string, comment: string)
    | Head(name: string, a: string, b: string, c: string, d: string, comment: string)
    | Entry(key: string, value: string, a: string, b: string, c: string, d: string, comment: string)

  function Written(f: Form): string {
    match f
    case Noise(w, comment) => w + comment
    case Head(name, a, b, c, d, comment) => a + ("[" + (b + name + c) + "]") + d + comment
    case Entry(k, v, a, b, c, d, comment) => a + ((k + b) + "=" + (c + v)) + d + comment
  }

  predicate GoodForm(f: Form) {
    match f
    case Noise(w, comment) => Blank(w) && Comment(comment)
    case Head(name, a, b, c, d, comment) =>
      Plain(name) && name != [] && Blank(a) && Blank(b) && Blank(c) && Blank(d) && Comment(comment)
    case Entry(k, v, a, b, c, d, comment) =>
      Plain(k) && k != [] && Plain(v) && v != [] && Blank(a) && Blank(b) && Blank(c) && Blank(d) && Comment(comment)
  }

  /** What a line means: nothing, a new section, or an assignment. */
  function Meant(st: Ini, f: Form): Ini {
    match f
    case Noise(_, _) => st
    case Head(name, _, _, _, _, _) => st.(section := name)
    case Entry(k, v, _, _, _, _, _) => Assign(st, k, v)
  }

  lemma PlainIsTight(s: string)
    requires Plain(s) && s != []
    ensures Tight(s) && NoSigns(s) && s[0] != '[' && forall i | 0 <= i < |s| :: s[i] != '='
  {}

  lemma NoSignsConcat(s: string, t: string)
    requires NoSigns(s) && NoSigns(t)
    ensures NoSigns(s + t)
  {}

  /** The core of a line, once its surroundings are gone. */
  lemma CoreLine(st: Ini, a: string, core: string, d: string, comment: string)
    requires Blank(a) && Tight(core) && NoSigns(core) && Blank(d) && Comment(comment)
    ensures Trim(StripComment(a + core + d + comment)) == core
  {
    hide Tight, Blank, Comment, NoSigns, StripComment, Trim;
    BlankHasNoSigns(a);
    BlankHasNoSigns(d);
    NoSignsConcat(a, core);
    NoSignsConcat(a + core, d);
    CommentGoes(a + core + d, comment);
    TrimOf(a, core, d);
  }

  lemma NoiseMeans(st: Ini, w: string, comment: string)
    requires Blank(w) && Comment(comment)
    ensures Line(st, w + comment) == st
  {
    BlankHasNoSigns(w);
    CommentGoes(w, comment);
    TrimBlank(w);
  }

  lemma HeadMeans(st: Ini, f: Form)
    requires GoodForm(f) && f.Head?
    ensures Line(st, Written(f)) == st.(section := f.name)
  {
    var inner := f.b + f.name + f.c;
    var core := "[" + inner + "]";
    PlainIsTight(f.name);
    BlankHasNoSigns(f.b);
    BlankHasNoSigns(f.c);
    assert NoSigns(core) && Tight(core);
    TrimOf(f.b, f.name, f.c);
    hide GoodForm, Trim, StripComment, Blank, NoSigns, Comment;
    assert Blank(f.a) && Blank(f.d) && Comment(f.comment) by { FormParts(f); }
    CoreLine(st, f.a, core, f.d, f.comment);
    assert core[1..|core| - 1] == inner;
  }

  lemma FormParts(f: Form)
    requires GoodForm(f) && !f.Noise?
    ensures Blank(f.a) && Blank(f.b) && Blank(f.c) && Blank(f.d) && Comment(f.comment)
  {}

  lemma EntryMeans(st: Ini, f: Form)
    requires GoodForm(f) && f.Entry?
    ensures Line(st, Written(f)) == Assign(st, f.key, f.value)
  {
    FormParts(f);
    PlainIsTight(f.key);
    PlainIsTight(f.value);
    var left, right := f.key + f.b, f.c + f.value;
    var core := left + "=" + right;
    CoreOfEntry(f, left, right, core);
    hide GoodForm, Blank, NoSigns, Comment, Assign, Trim, StripComment, Tight;
    CoreLine(st, f.a, core, f.d, f.comment);
    assert core[0] == f.key[0] != '[';
    SplitAtEquals(left, right);
    TrimOf("", f.key, f.b);
    TrimOf(f.c, f.value, "");
    assert "" + f.key + f.b == left && f.c + f.value + "" == right;
  }

  lemma CoreOfEntry(f: Form, left: string, right: string, core: string)
    requires GoodForm(f) && f.Entry? && left == f.key + f.b && right == f.c + f.value && core == left + "=" + right
    ensures NoSigns(core) && Tight(core) && (forall i | 0 <= i < |left| :: left[i] != '=') && Blank("")
  {
    PlainIsTight(f.key);
    PlainIsTight(f.value);
    BlankHasNoSigns(f.b);
    BlankHasNoSigns(f.c);
  }

  /** Every form means what it is written for. */
  lemma FormMeans(st: Ini, f: Form)
    requires GoodForm(f)
    ensures Line(st, Written(f)) == Meant(st, f)
  {
    match f
    case Noise(w, comment) => NoiseMeans(st, w, comment);
    case Head(_, _, _, _, _, _) => HeadMeans(st, f);
    case Entry(_, _, _, _, _, _, _) => EntryMeans(st, f);
  }

  // ----- a whole text

  predicate OneLine(f: Form) { NoNewline(Written(f)) }

  function WrittenLines(fs: seq<Form>): seq<string> { seq(|fs|, i requires 0 <= i < |fs| => Written(fs[i])) }

  /** The bare lines that the forms dress up. */
  function Bare(fs: seq<Form>): seq<string>
    decreases |fs|
  {
    if fs == [] then []
    else (match fs[0]
          case Noise(_, _) => []
          case Head(name, _, _, _, _, _) => ["[" + name + "]"]
          case Entry(k, v, _, _, _, _, _) => [k + "=" + v]) + Bare(fs[1..])
  }

  lemma {:induction false} ScanForms(st: Ini, fs: seq<Form>)
    requires forall i | 0 <= i < |fs| :: GoodForm(fs[i])
    ensures Scan(st, WrittenLines(fs)) == Scan(st, Bare(fs))
    decreases |fs|
  {
    hide Line, GoodForm, Written, Assign;
    if fs != [] {
      var f, rest := fs[0], fs[1..];
      FormMeans(st, f);
      assert WrittenLines(fs) == [Written(f)] + WrittenLines(rest);
      ScanCons(st, Written(f), WrittenLines(rest));
      ScanForms(Meant(st, f), rest);
      if f.Head? {
        BareHead(st, f);
        ScanCons(st, "[" + f.name + "]", Bare(rest));
      } else if f.Entry? {
        BareEntry(st, f);
        ScanCons(st, f.key + "=" + f.value, Bare(rest));
      } else {
        assert Bare(fs) == Bare(rest);
      }
    }
  }

  lemma BareHead(st: Ini, f: Form)
    requires GoodForm(f) && f.Head?
    ensures Line(st, "[" + f.name + "]") == Meant(st, f)
  {
    SectionLine(st, f.name);
  }

  lemma BareEntry(st: Ini, f: Form)
    requires GoodForm(f) && f.Entry?
    ensures Line(st, f.key + "=" + f.value) == Meant(st, f)
  {
    EntryLine(st, f.key, f.value);
  }

  /** A loader list may be written in any of these forms: the loads found are those of the
      bare text. */
  lemma FormsDoNotMatter(fs: seq<Form>, ls: seq<Loader>)
    requires GoodLoaders(ls) && forall i | 0 <= i < |fs| :: GoodForm(fs[i]) && OneLine(fs[i])
    requires Bare(fs) == DocLines(LoaderDoc(ls))
    ensures IniLoads(Join(WrittenLines(fs))) == Checked(ls)
  {
    hide GoodForm, LoaderDoc, DocLines, Checked, Line, Join, Loads, Written, GoodLoaders;
    LoaderListRoundTrip(ls);
    LinesOfJoin(WrittenLines(fs));
    PlainTextLines(ls);
    ScanForms(NOTHING, fs);
    ScanEmptyLast(NOTHING, WrittenLines(fs));
    ScanEmptyLast(NOTHING, Bare(fs));
  }

  lemma PlainTextLines(ls: seq<Loader>)
    requires GoodLoaders(ls)
    ensures Lines(PrintDoc(LoaderDoc(ls))) == DocLines(LoaderDoc(ls)) + [""]
  {
    hide LoaderDoc, DocLines, Join;
    LoaderDocPlain(ls);
    DocLinesClean(LoaderDoc(ls));
    LinesOfJoin(DocLines(LoaderDoc(ls)));
  }

  lemma LoaderDocPlain(ls: seq<Loader>)
    requires GoodLoaders(ls)
    ensures PlainDoc(LoaderDoc(ls))
  {
    hide Plain, OptionEntries, ParamSections, GoodLoader, Meaning;
    OptionsPlain(ls);
    ParamsMeaning(NOTHING, ls);
    var doc := LoaderDoc(ls);
    assert doc[1..] == ParamSections(ls);
    assert doc[0] == [Section("LOADER_OPTION", OptionEntries(ls))][0];
    forall i | 0 <= i < |doc|
      ensures Plain(doc[i].name)
      ensures forall j | 0 <= j < |doc[i].entries| :: Plain(doc[i].entries[j].0) && Plain(doc[i].entries[j].1)
    {
      if i > 0 {
        assert doc[i] == doc[1..][i - 1];
      }
    }
  }

  lemma {:induction false} ScanEmptyLast(st: Ini, lines: seq<string>)
    ensures Scan(st, lines + [""]) == Scan(st, lines)
    decreases |lines|
  {
    hide Line;
    if lines == [] {
      assert lines + [""] == [""] && [""][1..] == [];
      EmptyLine(st);
    } else {
      assert (lines + [""])[1..] == lines[1..] + [""];
      ScanEmptyLast(Line(st, lines[0]), lines[1..]);
    }
  }

  lemma EmptyLine(st: Ini)
    ensures Line(st, "") == st
  {}

  // ----- keys and section names

  /** Keys mean the same in any case, and so do the section names of the parameters; the
      one section that lists loaders is known by its exact name. */
  lemma CaseOfKeys(st: Ini, k: string, k': string, v: string)
    requires SameLetters(k, k')
    ensures Assign(st, k, v) == Assign(st, k', v)
  {
    UpperOfSame(k, k');
  }

  lemma CaseOfSections(st: Ini, name: string, name': string, v: string)
    requires SameLetters(name, name') && name != "LOADER_OPTION" && name' != "LOADER_OPTION"
    ensures Assign(st.(section := name), "LOAD_ADDR", v).addrs == Assign(st.(section := name'), "LOAD_ADDR", v).addrs
  {
    UpperOfSame(name, name');
  }

  lemma UpperOfSame(s: string, t: string)
    requires SameLetters(s, t)
    ensures Upper(s) == Upper(t)
  {
    forall i | 0 <= i < |s| ensures UpperChar(s[i]) == UpperChar(t[i]) {
      assert SameLetter(s[i], t[i]);
    }
  }

  /** Only there, and only for keys that begin with LOADER, is a loader listed. */
  lemma ListsLoadersIff(st: Ini, k: string, v: string)
    ensures Assign(st, k, v).loaders != st.loaders <==>
            st.section == "LOADER_OPTION" && |k| >= 6 && SameLetters(k[..6], "LOADER")
    ensures Assign(st, k, v).loaders != st.loaders ==>
              && Assign(st, k, v).loaders[..|st.loaders|] == st.loaders && |Assign(st, k, v).loaders| == |st.loaders| + 1
              && SameLetters(Assign(st, k, v).loaders[|st.loaders|].0, k) && Assign(st, k, v).loaders[|st.loaders|].1 == v
  {
    UpperIsSame(k);
    PrefixOfUpper(k);
  }

  lemma UpperIsSame(s: string)
    ensures SameLetters(Upper(s), s)
  {}

  lemma PrefixOfUpper(k: string)
    ensures HasPrefix(Upper(k), "LOADER") <==> |k| >= 6 && SameLetters(k[..6], "LOADER")
  {
    if |k| >= 6 {
      assert Upper(k)[..6] == Upper(k[..6]);
      var p := k[..6];
      if SameLetters(p, "LOADER") {
        UpperOfSame(p, "LOADER");
        assert Upper("LOADER") == "LOADER";
      }
      if Upper(p) == "LOADER" {
        UpperIsSame(p);
        forall i | 0 <= i < 6 ensures SameLetter(p[i], "LOADER"[i]) {
          assert SameLetter(Upper(p)[i], p[i]);
        }
      }
    }
  }
}
