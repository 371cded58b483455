/** The forms a `reg` property may take, and what is not one. */
module DtsForms {
  import opened Basics
  import opened Text
  import opened TextForms
  import opened DtsLint
  import R = DtsRoundTrip

  predicate WordChar(c: char) { 'a' <= c <= 'z' || 'A' <= c <= 'Z' || '0' <= c <= '9' || c == '_' || c == '-' }

  predicate Gap(w: string) { forall i | 0 <= i < |w| :: w[i] == ' ' || w[i] == '\t' || w[i] == '\r' || w[i] == '\n' }

  lemma {:induction false} GapSkipped(t: string, from: nat, end: nat)
    requires from <= end <= |t| && Gap(t[from..end]) && (end < |t| ==> !Gap([t[end]]))
    ensures SkipBlank(t, from) == end
    decreases |t| - from
  {
    if from < end {
      assert t[from..end][0] == t[from];
      assert t[from + 1..end] == t[from..end][1..];
      GapSkipped(t, from + 1, end);
    } else if end < |t| {
      assert [t[end]][0] == t[end];
    }
  }

  /** A `reg` that begins a word, with an equals sign after any gap and the cells between
      the next angle brackets, is read as those cells, whatever stands in between. */
  lemma RegRead(a: string, w: string, gap: string, cells: string, b: string)
    requires a == "" || !WordChar(a[|a| - 1])
    requires Gap(w) && R.Without(gap, '<') && R.Without(cells, '>')
    ensures
      var t := a + "reg" + (w + "=" + (gap + "<" + (cells + (">" + b))));
      R.Hit(t, |a|) == RangeIn(cells)
  {
    hide *;
    var rest := gap + "<" + (cells + (">" + b));
    var front := a + "reg" + w + "=";
    var t := a + "reg" + (w + "=" + rest);
    Regroup(a + "reg", w, "=", rest);
    assert front + rest == t;
    RegPlaces(a, w, rest);
    AnglePlaces(front, gap, cells, b);
    NoWordBefore(a, t);
    RegReadAt(t, |a|, w, gap, cells);
  }

  lemma Regroup(x: string, w: string, e: string, rest: string)
    ensures x + (w + e + rest) == x + w + e + rest
  {}

  /** The property at `p`, by the places of its parts. */
  lemma RegReadAt(t: string, p: nat, w: string, gap: string, cells: string)
    requires Gap(w) && R.Without(gap, '<') && R.Without(cells, '>')
    requires
      var eq := p + 3 + |w|;
      var lt := eq + 1 + |gap|;
      var gt := lt + 1 + |cells|;
      && gt < |t| && t[p..p + 3] == "reg" && t[p + 3..eq] == w && t[eq] == '='
      && t[eq + 1..lt] == gap && t[lt] == '<' && t[lt + 1..gt] == cells && t[gt] == '>'
    requires p == 0 || !IsIdent(t[p - 1])
    ensures R.Hit(t, p) == RangeIn(cells)
  {
    hide RangeIn, R.Hit, FindFrom, SkipBlank, IsIdent, Gap, R.Without;
    var eq := p + 3 + |w|;
    var lt := eq + 1 + |gap|;
    var gt := lt + 1 + |cells|;
    EqualsIsNoGap(t, eq);
    GapSkipped(t, p + 3, eq);
    BracketsFound(t, eq, lt, gt, gap, cells);
    ReadBetween(t, p, eq, lt, gt);
  }

  lemma EqualsIsNoGap(t: string, eq: nat)
    requires eq < |t| && t[eq] == '='
    ensures !Gap([t[eq]])
  {
    assert [t[eq]][0] == '=';
  }

  lemma RegPlaces(a: string, w: string, rest: string)
    ensures
      var t := a + "reg" + (w + "=" + rest);
      && |t| == |a| + 4 + |w| + |rest| && a <= t
      && t[|a|..|a| + 3] == "reg" && t[|a| + 3..|a| + 3 + |w|] == w && t[|a| + 3 + |w|] == '='
  {
    var t := a + "reg" + (w + "=" + rest);
    assert t[|a| + 3..] == w + "=" + rest;
  }

  lemma AnglePlaces(front: string, gap: string, cells: string, b: string)
    ensures
      var t := front + (gap + "<" + (cells + (">" + b)));
      var lt := |front| + |gap|;
      var gt := lt + 1 + |cells|;
      && gt < |t| && t[|front|..lt] == gap && t[lt] == '<' && t[lt + 1..gt] == cells && t[gt] == '>'
  {
    var t := front + (gap + "<" + (cells + (">" + b)));
    assert t[|front|..] == gap + "<" + (cells + (">" + b));
    assert t[|front| + |gap| + 1..] == cells + (">" + b);
  }

  lemma NoWordBefore(a: string, t: string)
    requires a == "" || !WordChar(a[|a| - 1])
    requires a <= t
    ensures |a| == 0 || !IsIdent(t[|a| - 1])
  {}

  lemma BracketsFound(t: string, eq: nat, lt: nat, gt: nat, gap: string, cells: string)
    requires eq < lt < gt < |t| && t[eq] == '=' && t[eq + 1..lt] == gap && t[lt] == '<'
    requires t[lt + 1..gt] == cells && t[gt] == '>'
    requires R.Without(gap, '<') && R.Without(cells, '>')
    ensures FindFrom(t, "<", eq) == Some(lt) && FindFrom(t, ">", lt) == Some(gt)
  {
    forall q | eq <= q < lt ensures t[q] != '<' {
      if q > eq {
        assert t[q] == t[eq + 1..lt][q - eq - 1];
      }
    }
    R.FindOne(t, '<', eq, lt);
    forall q | lt <= q < gt ensures t[q] != '>' {
      if q > lt {
        assert t[q] == t[lt + 1..gt][q - lt - 1];
      }
    }
    R.FindOne(t, '>', lt, gt);
  }

  lemma ReadBetween(t: string, p: nat, eq: nat, lt: nat, gt: nat)
    requires p + 3 <= eq < lt < gt < |t| && At(t, "reg", p) && (p == 0 || !IsIdent(t[p - 1]))
    requires SkipBlank(t, p + 3) == eq && t[eq] == '='
    requires FindFrom(t, "<", eq) == Some(lt) && FindFrom(t, ">", lt) == Some(gt)
    ensures R.Hit(t, p) == RangeIn(t[lt + 1..gt])
  {
    hide RangeIn, FindFrom, SkipBlank;
  }

  /** Two numbers among the cells are the range, whatever white space is around them and
      whatever follows; if one of them is no number there is none. */
  lemma CellsRead(a: string, x: string, w: string, y: string, rest: string)
    requires Blank(a) && NoSpace(x) && x != [] && Blank(w) && w != [] && NoSpace(y) && y != []
    requires rest == [] || IsSpace(rest[0])
    ensures RangeIn(a + x + (w + y + rest)) ==
            if ParseAddr(x).Some? && ParseAddr(y).Some? then [Range(ParseAddr(x).value, ParseAddr(y).value)] else []
  {
    hide ParseAddr, IsSpace;
    var s := a + x + (w + y + rest);
    assert s == a + (x + (w + (y + rest)));
    WordsAfterBlank(a, x + (w + (y + rest)));
    WordThen(x, w + (y + rest));
    WordsAfterBlank(w, y + rest);
    WordThen(y, rest);
  }

  lemma {:induction false} WordsAfterBlank(w: string, s: string)
    requires Blank(w)
    ensures Words(w + s) == Words(s)
    decreases |w|
  {
    hide IsSpace;
    if w == [] {
      assert w + s == s;
    } else {
      assert (w + s)[1..] == w[1..] + s;
      WordsAfterBlank(w[1..], s);
    }
  }

  lemma WordThen(x: string, rest: string)
    requires NoSpace(x) && x != [] && (rest == [] || IsSpace(rest[0]))
    ensures Words(x + rest) == [x] + Words(rest)
  {
    hide IsSpace;
    FirstWordOf(x, rest);
    assert (x + rest)[|x|..] == rest;
  }

  /** One number, or none, is no range. */
  lemma OneCellIsNoRange(a: string, x: string, b: string)
    requires Blank(a) && NoSpace(x) && x != [] && Blank(b)
    ensures RangeIn(a + x + b) == [] && RangeIn(a) == []
  {
    hide ParseAddr, IsSpace;
    assert a + x + b == a + (x + b);
    WordsAfterBlank(a, x + b);
    WordThen(x, b);
    assert b + "" == b && a + "" == a;
    WordsAfterBlank(b, "");
    WordsAfterBlank(a, "");
  }

  /** `reg` at the end of a longer word is not the property. */
  lemma WholeWordOnly(a: string, c: char, b: string)
    requires WordChar(c)
    ensures R.Hit(a + [c] + b, |a| + 1) == []
  {
    var t := a + [c] + b;
    assert t[|a|] == c && IsIdent(c);
  }

  /** Nor is it without its equals sign. */
  lemma NeedsEquals(a: string, w: string, c: char, b: string)
    requires Gap(w) && !Gap([c]) && c != '='
    ensures R.Hit(a + "reg" + (w + ([c] + b)), |a|) == []
  {
    var t := a + "reg" + (w + ([c] + b));
    var end := |a| + 3 + |w|;
    assert t[|a| + 3..] == w + ([c] + b);
    assert t[|a| + 3..end] == w && t[end] == c;
    GapSkipped(t, |a| + 3, end);
  }
}
