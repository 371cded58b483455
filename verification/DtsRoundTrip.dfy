/** Printing `reserved-memory` nodes and scanning the text gives back their ranges,
    whatever labels, `reg-names` and other text surround them. */
module DtsRoundTrip {
  import opened Basics
  import opened Text
  import opened DtsLint

  // ----- the reg loop, position by position

  function Hit(b: string, p: nat): seq<Range> { if At(b, "reg", p) then RegAt(b, p) else [] }

  function HitsFrom(b: string, k: nat): seq<Range>
    requires k <= |b|
    decreases |b| - k
  {
    if k == |b| then [] else Hit(b, k) + HitsFrom(b, k + 1)
  }

  /** A stretch without hits may be skipped. */
  lemma {:induction false} SkipQuiet(b: string, i: nat, j: nat)
    requires i <= j <= |b| && forall p | i <= p < j :: Hit(b, p) == []
    ensures HitsFrom(b, i) == HitsFrom(b, j)
    decreases j - i
  {
    hide Hit;
    if i < j {
      SkipQuiet(b, i + 1, j);
    }
  }

  lemma RegLetters(b: string, p: nat)
    requires At(b, "reg", p)
    ensures b[p] == 'r' && b[p + 1] == 'e' && b[p + 2] == 'g'
  {
    assert b[p] == b[p..p + 3][0] && b[p + 1] == b[p..p + 3][1] && b[p + 2] == b[p..p + 3][2];
  }

  /** The search loop of the scanner visits every hit. */
  lemma {:induction false} RegsAreHits(b: string, k: nat)
    requires k <= |b|
    ensures RegsFrom(b, k) == HitsFrom(b, k)
    decreases |b| - k
  {
    hide RegAt, HitsFrom, RegsFrom, Hit, At;
    var f := FindFrom(b, "reg", k);
    RegsUnfold(b, k);
    if f.None? {
      NoHits(b, k, |b|);
      HitsEnd(b);
    } else {
      var p := f.value;
      NoHits(b, k, p);
      HitsStep(b, p);
      HitsOverlap(b, p);
      SkipQuiet(b, p + 1, p + 3);
      RegsAreHits(b, p + 3);
    }
  }

  lemma RegsUnfold(b: string, k: nat)
    requires k <= |b|
    ensures
      var f := FindFrom(b, "reg", k);
      && (f.Some? ==> f.value + 3 <= |b| && Hit(b, f.value) == RegAt(b, f.value))
      && RegsFrom(b, k) == if f.None? then [] else RegAt(b, f.value) + RegsFrom(b, f.value + 3)
  {
    hide RegAt;
  }

  lemma HitsStep(b: string, k: nat)
    requires k < |b|
    ensures HitsFrom(b, k) == Hit(b, k) + HitsFrom(b, k + 1)
  {
    hide Hit;
  }

  lemma HitsEnd(b: string)
    ensures HitsFrom(b, |b|) == []
  {}

  lemma NoHits(b: string, i: nat, j: nat)
    requires i <= j <= |b| && forall p | i <= p < j :: !At(b, "reg", p)
    ensures HitsFrom(b, i) == HitsFrom(b, j)
  {
    hide RegAt, At, HitsFrom;
    SkipQuiet(b, i, j);
  }

  /** "reg" does not overlap itself. */
  lemma HitsOverlap(b: string, p: nat)
    requires At(b, "reg", p)
    ensures forall q | p + 1 <= q < p + 3 :: Hit(b, q) == []
  {
    hide RegAt;
    RegLetters(b, p);
    forall q | p + 1 <= q < p + 3 ensures Hit(b, q) == [] {
      if At(b, "reg", q) {
        RegLetters(b, q);
      }
    }
  }

  // ----- pieces of text that hold no reg property

  predicate Without(s: string, c: char) { forall i | 0 <= i < |s| :: s[i] != c }

  /** Between `a` and `b`, the text `p` holds exactly the ranges `own`. */
  predicate Yields(a: string, p: string, b: string, own: seq<Range>) {
    HitsFrom(a + p + b, |a|) == own + HitsFrom(a + p + b, |a| + |p|)
  }

  lemma YieldsNothing(a: string, p: string, b: string)
    requires HitsFrom(a + p + b, |a|) == HitsFrom(a + p + b, |a| + |p|)
    ensures Yields(a, p, b, [])
  {
    hide HitsFrom;
    assert [] + HitsFrom(a + p + b, |a| + |p|) == HitsFrom(a + p + b, |a| + |p|);
  }

  lemma NoRPiece(a: string, p: string, b: string)
    requires Without(p, 'r')
    ensures Yields(a, p, b, [])
  {
    hide RegAt, Yields;
    var t := a + p + b;
    forall q | |a| <= q < |a| + |p| ensures Hit(t, q) == [] {
      assert t[q] == p[q - |a|];
      if At(t, "reg", q) {
        RegLetters(t, q);
      }
    }
    SkipQuiet(t, |a|, |a| + |p|);
    YieldsNothing(a, p, b);
  }

  /** No `=` up to a last character that is neither blank nor a letter of "reg":
      whatever "reg" occurs inside is followed by something other than `=`. */
  predicate Muted(p: string) {
    && p != [] && Without(p, '=')
    && var c := p[|p| - 1]; !IsBlank(c) && c != 'r' && c != 'e' && c != 'g'
  }

  lemma MutedPiece(a: string, p: string, b: string)
    requires Muted(p)
    ensures Yields(a, p, b, [])
  {
    hide Hit, HitsFrom, Yields;
    forall q | |a| <= q < |a| + |p| ensures Hit(a + p + b, q) == [] {
      MutedAt(a, p, b, q);
    }
    SkipQuiet(a + p + b, |a|, |a| + |p|);
    YieldsNothing(a, p, b);
  }

  lemma MutedAt(a: string, p: string, b: string, q: nat)
    requires Muted(p) && |a| <= q < |a| + |p|
    ensures Hit(a + p + b, q) == []
  {
    var t := a + p + b;
    var last := |a| + |p| - 1;
    assert forall i | |a| <= i <= last :: t[i] == p[i - |a|];
    if At(t, "reg", q) {
      hide At;
      RegLetters(t, q);
      assert t[last] == p[|p| - 1];
      assert q != last && q + 1 != last && q + 2 != last;
      var s := SkipBlank(t, q + 3);
      assert s <= last;
      assert t[s] != '=';
    }
  }

  // ----- the reg property itself

  function RegText(r: Range): string { "reg = <" + PrintHex(r.start) + " " + PrintHex(r.size) + ">" }

  predicate U64Range(r: Range) { r.start < U64_LIMIT && r.size < U64_LIMIT }

  predicate Boundary(a: string) { a == [] || !IsIdent(a[|a| - 1]) }

  lemma HexHasNo(n: nat)
    ensures Without(PrintHex(n), 'r') && Without(PrintHex(n), '<') && Without(PrintHex(n), '>')
    ensures Without(PrintHex(n), '{') && Without(PrintHex(n), '}')
  {
    PrintHexChars(n);
  }

  lemma CellsBack(r: Range)
    requires U64Range(r)
    ensures RangeIn(PrintHex(r.start) + " " + PrintHex(r.size)) == [r]
  {
    hide PrintHex, ParseAddr, Words;
    PrintHexChars(r.start);
    PrintHexChars(r.size);
    TwoWords(PrintHex(r.start), PrintHex(r.size));
    ParseOfPrint(r.start);
    ParseOfPrint(r.size);
  }

  lemma FindOne(t: string, c: char, from: nat, at: nat)
    requires from <= at < |t| && t[at] == c && forall q | from <= q < at :: t[q] != c
    ensures FindFrom(t, [c], from) == Some(at)
  {
    assert t[at..at + 1] == [c];
    forall q | from <= q < at ensures !At(t, [c], q) {
      assert t[q..q + 1] == [t[q]];
    }
    FindIs(t, [c], from, at);
  }

  lemma RegIsRead(a: string, r: Range, b: string)
    requires U64Range(r) && Boundary(a)
    ensures Hit(a + RegText(r) + b, |a|) == [r]
  {
    hide PrintHex, RangeIn, RegAt;
    var t := a + RegText(r) + b;
    var cells := PrintHex(r.start) + " " + PrintHex(r.size);
    var p := |a|;
    assert t == a + ("reg = <" + cells + (">" + b));
    HexHasNo(r.start);
    HexHasNo(r.size);
    RegAtReads(t, p, cells);
    CellsBack(r);
  }

  /** A reg property written out at `p` is read as its cells. */
  lemma RegAtReads(t: string, p: nat, cells: string)
    requires p + 8 + |cells| <= |t| && (p == 0 || !IsIdent(t[p - 1])) && Without(cells, '>')
    requires t[p..p + 7] == "reg = <" && t[p + 7..p + 7 + |cells|] == cells && t[p + 7 + |cells|] == '>'
    ensures At(t, "reg", p) && RegAt(t, p) == RangeIn(cells)
  {
    hide RangeIn, FindFrom;
    var head := t[p..p + 7];
    assert t[p..p + 3] == head[..3];
    assert forall i | 0 <= i < 7 :: t[p + i] == head[i];
    assert t[p + 3] == head[3] && t[p + 4] == head[4] && t[p + 5] == head[5] && t[p + 6] == head[6];
    assert SkipBlank(t, p + 3) == SkipBlank(t, p + 4) == p + 4;
    FindOne(t, '<', p + 4, p + 6);
    var gt := p + 7 + |cells|;
    forall q | p + 6 <= q < gt ensures t[q] != '>' {
      if q >= p + 7 {
        assert t[q] == t[p + 7..gt][q - (p + 7)];
      }
    }
    FindOne(t, '>', p + 6, gt);
  }

  lemma RegPiece(a: string, r: Range, s: string, b: string)
    requires s == RegText(r) && U64Range(r) && Boundary(a)
    ensures Yields(a, s, b, [r])
  {
    hide PrintHex, RegAt, Hit, RegText;
    var t := a + s + b;
    RegIsRead(a, r, b);
    RegTail(r);
    var rest := s[1..];
    assert s == "r" + rest;
    assert t == (a + "r") + rest + b;
    NoRPiece(a + "r", rest, b);
  }

  lemma RegTail(r: Range)
    ensures |RegText(r)| > 0 && RegText(r)[0] == 'r' && Without(RegText(r)[1..], 'r')
  {
    hide PrintHex;
    HexHasNo(r.start);
    HexHasNo(r.size);
    assert RegText(r)[1..] == "eg = <" + PrintHex(r.start) + " " + PrintHex(r.size) + ">";
  }

  // ----- text as a sequence of pieces

  datatype Piece = Plain(s: string) | Mute(s: string) | Reg(r: Range)

  function PieceText(p: Piece): string {
    match p
    case Plain(s) => s
    case Mute(s) => s
    case Reg(r) => RegText(r)
  }

  function TextOf(ps: seq<Piece>): string
    decreases |ps|
  {
    if ps == [] then "" else PieceText(ps[0]) + TextOf(ps[1..])
  }

  function RangesOf(ps: seq<Piece>): seq<Range>
    decreases |ps|
  {
    if ps == [] then [] else (if ps[0].Reg? then [ps[0].r] else []) + RangesOf(ps[1..])
  }

  /** Each piece is what it says, and every reg property starts at a boundary. */
  predicate GoodPieces(a: string, ps: seq<Piece>)
    decreases |ps|
  {
    ps == [] ||
    (GoodPiece(a, ps[0]) && GoodPieces(a + PieceText(ps[0]), ps[1..]))
  }

  predicate GoodPiece(a: string, p: Piece) {
    match p
    case Plain(s) => Without(s, 'r')
    case Mute(s) => Muted(s)
    case Reg(r) => U64Range(r) && Boundary(a)
  }

  lemma PieceIs(a: string, p: Piece)
    requires GoodPiece(a, p)
    ensures p.Plain? ==> Without(PieceText(p), 'r')
    ensures p.Mute? ==> Muted(PieceText(p))
    ensures p.Reg? ==> PieceText(p) == RegText(p.r) && U64Range(p.r) && Boundary(a)
  {}

  lemma OnePieceHits(a: string, p: Piece, b: string)
    requires GoodPiece(a, p)
    ensures Yields(a, PieceText(p), b, if p.Reg? then [p.r] else [])
  {
    hide *;
    PieceIs(a, p);
    match p
    case Plain(_) => NoRPiece(a, PieceText(p), b);
    case Mute(_) => MutedPiece(a, PieceText(p), b);
    case Reg(r) => RegPiece(a, r, PieceText(p), b);
  }

  lemma {:induction false} PieceHits(a: string, ps: seq<Piece>, b: string)
    requires GoodPieces(a, ps)
    ensures HitsFrom(a + TextOf(ps) + b, |a|) == RangesOf(ps) + HitsFrom(a + TextOf(ps) + b, |a| + |TextOf(ps)|)
    decreases |ps|
  {
    hide HitsFrom, GoodPiece, PieceText;
    if ps != [] {
      var p, rest := PieceText(ps[0]), TextOf(ps[1..]);
      var t := a + TextOf(ps) + b;
      assert t == a + p + (rest + b);
      assert t == (a + p) + rest + b;
      OnePieceHits(a, ps[0], rest + b);
      PieceHits(a + p, ps[1..], b);
    }
  }

  lemma {:induction false} TextConcat(ps: seq<Piece>, qs: seq<Piece>)
    ensures TextOf(ps + qs) == TextOf(ps) + TextOf(qs) && RangesOf(ps + qs) == RangesOf(ps) + RangesOf(qs)
    decreases |ps|
  {
    hide PieceText;
    if ps == [] {
      assert ps + qs == qs;
    } else {
      assert (ps + qs)[1..] == ps[1..] + qs;
      TextConcat(ps[1..], qs);
      var t, r := PieceText(ps[0]), if ps[0].Reg? then [ps[0].r] else [];
      assert t + (TextOf(ps[1..]) + TextOf(qs)) == (t + TextOf(ps[1..])) + TextOf(qs);
      assert r + (RangesOf(ps[1..]) + RangesOf(qs)) == (r + RangesOf(ps[1..])) + RangesOf(qs);
    }
  }

  lemma {:induction false} GoodConcat(a: string, ps: seq<Piece>, qs: seq<Piece>)
    requires GoodPieces(a, ps) && GoodPieces(a + TextOf(ps), qs)
    ensures GoodPieces(a, ps + qs)
    decreases |ps|
  {
    hide PieceText, GoodPiece;
    if ps == [] {
      assert ps + qs == qs;
      assert a + "" == a;
    } else {
      assert (ps + qs)[1..] == ps[1..] + qs;
      assert a + TextOf(ps) == (a + PieceText(ps[0])) + TextOf(ps[1..]);
      GoodConcat(a + PieceText(ps[0]), ps[1..], qs);
    }
  }

  // ----- braces

  /** The depth after `s`, if the braces never close on the way. */
  function DepthAfter(s: string, d: int): Option<int>
    decreases |s|
  {
    if s == [] then Some(d)
    else if s[0] == '{' then DepthAfter(s[1..], d + 1)
    else if s[0] == '}' then (if d == 1 then None else DepthAfter(s[1..], d - 1))
    else DepthAfter(s[1..], d)
  }

  lemma {:induction false} CloseSkips(a: string, s: string, b: string, d: int)
    requires DepthAfter(s, d).Some?
    ensures Close(a + s + b, |a|, d) == Close(a + s + b, |a| + |s|, DepthAfter(s, d).value)
    decreases |s|
  {
    if s != [] {
      var t := a + s + b;
      assert t == (a + [s[0]]) + s[1..] + b;
      assert t[|a|] == s[0];
      CloseSkips(a + [s[0]], s[1..], b, if s[0] == '{' then d + 1 else if s[0] == '}' then d - 1 else d);
    }
  }

  lemma {:induction false} DepthConcat(s: string, t: string, d: int)
    requires DepthAfter(s, d).Some?
    ensures DepthAfter(s + t, d) == DepthAfter(t, DepthAfter(s, d).value)
    decreases |s|
  {
    if s == [] {
      assert s + t == t;
    } else {
      assert (s + t)[1..] == s[1..] + t;
      DepthConcat(s[1..], t, if s[0] == '{' then d + 1 else if s[0] == '}' then d - 1 else d);
    }
  }

  predicate NoBraces(s: string) { Without(s, '{') && Without(s, '}') }

  lemma {:induction false} DepthFlat(s: string, d: int)
    requires NoBraces(s)
    ensures DepthAfter(s, d) == Some(d)
    decreases |s|
  {
    if s != [] {
      DepthFlat(s[1..], d);
    }
  }

  // ----- reserved-memory nodes

  /** A child node: a label, its range, and perhaps a `reg-names` property. */
  datatype Node = Node(name: string, range: Range, names: Option<string>)

  predicate GoodNode(n: Node) {
    && U64Range(n.range)
    && NoBraces(n.name) && Without(n.name, '=')
    && (n.names.Some? ==> NoBraces(n.names.value) && Without(n.names.value, '='))
  }

  function NamePieces(n: Node): seq<Piece> {
    match n.names
    case None => []
    case Some(s) => [Plain("\t\t"), Mute("reg-"), Plain("names = \""), Mute(s + "\""), Plain(";\n")]
  }

  function Opening(n: Node): seq<Piece> { [Mute("\t" + n.name + " {"), Plain("\n\t\t")] }

  function Closing(n: Node): seq<Piece> { [Plain(";\n")] + NamePieces(n) + [Plain("\t};\n")] }

  function NodePieces(n: Node): seq<Piece> { Opening(n) + ([Reg(n.range)] + Closing(n)) }

  function NodesPieces(ns: seq<Node>): seq<Piece>
    decreases |ns|
  {
    if ns == [] then [] else NodePieces(ns[0]) + NodesPieces(ns[1..])
  }

  function RangesOfNodes(ns: seq<Node>): seq<Range> { seq(|ns|, i requires 0 <= i < |ns| => ns[i].range) }

  /** A piece that holds no range, wherever it stands. */
  predicate QuietPiece(p: Piece) {
    match p
    case Plain(s) => Without(s, 'r')
    case Mute(s) => Muted(s)
    case Reg(_) => false
  }

  lemma {:induction false} QuietPieces(a: string, ps: seq<Piece>)
    requires forall i | 0 <= i < |ps| :: QuietPiece(ps[i])
    ensures GoodPieces(a, ps) && RangesOf(ps) == []
    decreases |ps|
  {
    hide Muted, Without;
    if ps != [] {
      QuietPieces(a + PieceText(ps[0]), ps[1..]);
    }
  }

  lemma {:induction false} FlatPieces(ps: seq<Piece>)
    requires forall i | 0 <= i < |ps| :: NoBraces(PieceText(ps[i]))
    ensures NoBraces(TextOf(ps))
    decreases |ps|
  {
    hide PieceText;
    if ps != [] {
      FlatPieces(ps[1..]);
    }
  }

  lemma OpeningGood(a: string, n: Node, d: int)
    requires GoodNode(n) && d >= 1
    ensures GoodPieces(a, Opening(n)) && RangesOf(Opening(n)) == [] && Boundary(a + TextOf(Opening(n)))
    ensures DepthAfter(TextOf(Opening(n)), d) == Some(d + 1)
  {
    hide GoodPieces, RangesOf, DepthAfter, TextOf, Muted, Without, Boundary;
    OpeningMuted(n);
    QuietPieces(a, Opening(n));
    TextOfTwo(Mute("\t" + n.name + " {"), Plain("\n\t\t"));
    OpeningDepth(n, d);
    BlankIsBoundary(a + ("\t" + n.name + " {"), "\n\t\t");
    assert a + ("\t" + n.name + " {") + "\n\t\t" == a + (("\t" + n.name + " {") + "\n\t\t");
  }

  lemma OpeningMuted(n: Node)
    requires GoodNode(n)
    ensures Muted("\t" + n.name + " {") && Without("\n\t\t", 'r')
  {}

  lemma BlankIsBoundary(a: string, s: string)
    requires s != [] && !IsIdent(s[|s| - 1])
    ensures Boundary(a + s)
  {}

  lemma OpeningDepth(n: Node, d: int)
    requires GoodNode(n) && d >= 1
    ensures DepthAfter(("\t" + n.name + " {") + "\n\t\t", d) == Some(d + 1)
  {
    var open, gap := "\t" + n.name + " ", "{\n\t\t";
    assert ("\t" + n.name + " {") + "\n\t\t" == open + gap;
    assert NoBraces(open) && gap[1..] == "\n\t\t";
    assert DepthAfter(gap, d) == DepthAfter("\n\t\t", d + 1);
    hide DepthAfter;
    DepthFlat(open, d);
    DepthConcat(open, gap, d);
    DepthFlat("\n\t\t", d + 1);
  }

  lemma NamePiecesGood(n: Node)
    requires GoodNode(n)
    ensures forall i | 0 <= i < |NamePieces(n)| :: QuietPiece(NamePieces(n)[i]) && NoBraces(PieceText(NamePieces(n)[i]))
  {
    if n.names.Some? {
      var s := n.names.value;
      assert Muted("reg-") && Muted(s + "\"") && Without("names = \"", 'r');
      assert NoBraces(s + "\"");
    }
  }

  lemma ClosingGood(a: string, n: Node, d: int)
    requires GoodNode(n) && d >= 1
    ensures GoodPieces(a, Closing(n)) && RangesOf(Closing(n)) == []
    ensures DepthAfter(TextOf(Closing(n)), d + 1) == Some(d)
  {
    hide GoodNode, NamePieces, DepthAfter, GoodPieces, RangesOf, TextOf;
    NamePiecesGood(n);
    assert Without(";\n", 'r') && Without("\t};\n", 'r') && NoBraces(";\n");
    QuietPieces(a, Closing(n));
    var middle := [Plain(";\n")] + NamePieces(n);
    FlatPieces(middle);
    TextConcat(middle, [Plain("\t};\n")]);
    TextOfOne(Plain("\t};\n"));
    DepthFlat(TextOf(middle), d + 1);
    DepthConcat(TextOf(middle), "\t};\n", d + 1);
    BraceCloses(d);
  }

  lemma BraceCloses(d: int)
    requires d >= 1
    ensures DepthAfter("\t};\n", d + 1) == Some(d)
  {
    var c := "\t};\n";
    assert c[1..] == "};\n" && c[1..][1..] == ";\n";
    DepthFlat(";\n", d);
    assert DepthAfter(c, d + 1) == DepthAfter("};\n", d + 1);
  }

  /** A node's text: good pieces, exactly its own range, and balanced braces. */
  lemma NodeGood(a: string, n: Node, d: int)
    requires GoodNode(n) && d >= 1
    ensures GoodPieces(a, NodePieces(n)) && RangesOf(NodePieces(n)) == [n.range]
    ensures DepthAfter(TextOf(NodePieces(n)), d) == Some(d)
  {
    hide GoodNode, RegText, DepthAfter, Opening, Closing, GoodPieces, TextOf, RangesOf;
    NodePiecesGood(a, n, d);
    var reg := [Reg(n.range)];
    OpeningGood(a, n, d);
    ClosingGood(a, n, d);
    TextOfOne(Reg(n.range));
    TextConcat(Opening(n), reg + Closing(n));
    TextConcat(reg, Closing(n));
    RegFlat(n.range, d + 1);
    DepthConcat(RegText(n.range), TextOf(Closing(n)), d + 1);
    DepthConcat(TextOf(Opening(n)), RegText(n.range) + TextOf(Closing(n)), d);
  }

  lemma NodePiecesGood(a: string, n: Node, d: int)
    requires GoodNode(n) && d >= 1
    ensures GoodPieces(a, NodePieces(n))
  {
    assert U64Range(n.range) && NodePieces(n) == Opening(n) + ([Reg(n.range)] + Closing(n));
    hide *;
    var reg, closing := [Reg(n.range)], Closing(n);
    var a1 := a + TextOf(Opening(n));
    OpeningGood(a, n, d);
    RegGood(a1, n.range);
    ClosingGood(a1 + TextOf(reg), n, d);
    GoodConcat(a1, reg, closing);
    GoodConcat(a, Opening(n), reg + closing);
  }

  lemma RegGood(a: string, r: Range)
    requires U64Range(r) && Boundary(a)
    ensures GoodPieces(a, [Reg(r)])
  {
    hide RegText, U64Range, Boundary;
    TextOfOne(Reg(r));
    assert GoodPiece(a, Reg(r));
  }

  lemma RegFlat(r: Range, d: int)
    ensures DepthAfter(RegText(r), d) == Some(d)
  {
    hide PrintHex;
    HexHasNo(r.start);
    HexHasNo(r.size);
    DepthFlat(RegText(r), d);
  }

  lemma TextOfOne(p: Piece)
    ensures TextOf([p]) == PieceText(p) && RangesOf([p]) == if p.Reg? then [p.r] else []
    ensures forall a: string :: GoodPieces(a, [p]) <==> GoodPiece(a, p)
  {
    hide PieceText, GoodPiece;
    assert [p][1..] == [];
    assert PieceText(p) + "" == PieceText(p);
  }

  lemma TextOfTwo(p: Piece, q: Piece)
    ensures TextOf([p, q]) == PieceText(p) + PieceText(q)
  {
    hide PieceText;
    assert [p, q][1..] == [q];
    TextOfOne(q);
  }

  lemma {:induction false} NodesGood(a: string, ns: seq<Node>, d: int)
    requires (forall i | 0 <= i < |ns| :: GoodNode(ns[i])) && d >= 1
    ensures GoodPieces(a, NodesPieces(ns)) && RangesOf(NodesPieces(ns)) == RangesOfNodes(ns)
    ensures DepthAfter(TextOf(NodesPieces(ns)), d) == Some(d)
    decreases |ns|
  {
    hide GoodNode, NodePieces, DepthAfter;
    if ns == [] {
      DepthFlat("", d);
    } else {
      var first, rest := NodePieces(ns[0]), NodesPieces(ns[1..]);
      NodeGood(a, ns[0], d);
      NodesGood(a + TextOf(first), ns[1..], d);
      GoodConcat(a, first, rest);
      TextConcat(first, rest);
      DepthConcat(TextOf(first), TextOf(rest), d);
    }
  }

  // ----- one reserved-memory node

  function BlockText(ns: seq<Node>): string { "{\n" + TextOf(NodesPieces(ns)) + "}" }

  lemma BlockRegs(ns: seq<Node>)
    requires forall i | 0 <= i < |ns| :: GoodNode(ns[i])
    ensures RegsFrom(BlockText(ns), 0) == RangesOfNodes(ns)
  {
    hide GoodNode, HitsFrom, RegsFrom, BlockText, TextOf, RangesOf, GoodPieces;
    BlockPieces(ns);
    var all := [Plain("{\n")] + (NodesPieces(ns) + [Plain("}")]);
    var t := BlockText(ns);
    assert "" + t + "" == t;
    PieceHits("", all, "");
    HitsEnd(t);
    RegsAreHits(t, 0);
  }

  lemma BlockPieces(ns: seq<Node>)
    requires forall i | 0 <= i < |ns| :: GoodNode(ns[i])
    ensures
      var all := [Plain("{\n")] + (NodesPieces(ns) + [Plain("}")]);
      GoodPieces("", all) && TextOf(all) == BlockText(ns) && RangesOf(all) == RangesOfNodes(ns)
  {
    assert Without("{\n", 'r') && Without("}", 'r');
    hide GoodNode, NodesPieces, TextOf, RangesOf, GoodPieces, RangesOfNodes, Without;
    NodesGood("{\n", ns, 1);
    Wrapped(Plain("{\n"), NodesPieces(ns), Plain("}"));
  }

  lemma Wrapped(open: Piece, mid: seq<Piece>, close: Piece)
    requires QuietPiece(open) && QuietPiece(close) && GoodPieces(PieceText(open), mid)
    ensures
      var all := [open] + (mid + [close]);
      && GoodPieces("", all) && RangesOf(all) == RangesOf(mid)
      && TextOf(all) == PieceText(open) + TextOf(mid) + PieceText(close)
  {
    hide TextOf, RangesOf, GoodPieces, QuietPiece, PieceText;
    TextOfOne(open);
    TextOfOne(close);
    QuietPieces("", [open]);
    QuietPieces(PieceText(open) + TextOf(mid), [close]);
    GoodConcat(PieceText(open), mid, [close]);
    assert "" + TextOf([open]) == PieceText(open);
    GoodConcat("", [open], mid + [close]);
    TextConcat([open], mid + [close]);
    TextConcat(mid, [close]);
  }

  lemma BlockCloses(a: string, ns: seq<Node>, b: string)
    requires forall i | 0 <= i < |ns| :: GoodNode(ns[i])
    ensures Close(a + BlockText(ns) + b, |a|, 0) == |a| + |BlockText(ns)|
  {
    hide GoodNode, NodesPieces, TextOf;
    var t := a + BlockText(ns) + b;
    var inner := TextOf(NodesPieces(ns));
    NodesGood("", ns, 1);
    assert "{\n"[1..] == "\n" && "\n"[1..] == "";
    assert DepthAfter("{\n", 0) == DepthAfter("\n", 1) == Some(1);
    DepthConcat("{\n", inner, 0);
    var s := "{\n" + inner;
    assert t == a + s + ("}" + b);
    CloseSkips(a, s, "}" + b, 0);
    assert t[|a| + |s|] == '}';
  }

  // ----- whole texts

  /** Some text, then the node it opens. */
  datatype Block = Block(lead: string, nodes: seq<Node>)

  function Document(blocks: seq<Block>, after: string): string
    decreases |blocks|
  {
    if blocks == [] then after
    else blocks[0].lead + (BlockText(blocks[0].nodes) + Document(blocks[1..], after))
  }

  function AllRanges(blocks: seq<Block>): seq<Range>
    decreases |blocks|
  {
    if blocks == [] then [] else RangesOfNodes(blocks[0].nodes) + AllRanges(blocks[1..])
  }

  predicate NoBraceFrom(s: string, p: nat) { forall q | p <= q < |s| :: s[q] != '{' }

  /** The text has the word in it, and opens no node between its first occurrence and
      its end: in a comment, a label, a property or the name of the node to come. */
  predicate Calls(lead: string) {
    var p := FindFrom(lead, KEY, 0);
    p.Some? && NoBraceFrom(lead, p.value)
  }

  /** Each node is the first to open after an occurrence of the word; no node opens
      after one in the text at the end. Everything else is arbitrary. */
  predicate GoodDocument(blocks: seq<Block>, after: string) {
    && (forall i | 0 <= i < |blocks| ::
          Calls(blocks[i].lead) && forall j | 0 <= j < |blocks[i].nodes| :: GoodNode(blocks[i].nodes[j]))
    && (FindFrom(after, KEY, 0).None? || Calls(after))
  }

  lemma AtShift(a: string, s: string, pat: string, j: nat)
    ensures At(a + s, pat, |a| + j) <==> At(s, pat, j)
  {
    if j + |pat| <= |s| {
      assert (a + s)[|a| + j..|a| + j + |pat|] == s[j..j + |pat|];
    }
  }

  lemma FindShift(a: string, s: string, pat: string, i: nat)
    requires i <= |s|
    ensures
      var f := FindFrom(s, pat, i);
      FindFrom(a + s, pat, |a| + i) == if f.Some? then Some(|a| + f.value) else None
  {
    hide At;
    var f := FindFrom(s, pat, i);
    var to := if f.Some? then f.value else |s| + 1;
    forall j | |a| + i <= j < |a| + to ensures !At(a + s, pat, j) {
      AtShift(a, s, pat, j - |a|);
    }
    if f.Some? {
      AtShift(a, s, pat, f.value);
      FindIs(a + s, pat, |a| + i, |a| + f.value);
    } else {
      NotPastEnd(a + s, pat);
    }
  }

  lemma NotPastEnd(s: string, pat: string)
    ensures forall j: nat | At(s, pat, j) :: j <= |s|
  {}

  lemma {:induction false} CloseShift(a: string, s: string, j: nat, d: int)
    requires j <= |s|
    ensures Close(a + s, |a| + j, d) == |a| + Close(s, j, d)
    decreases |s| - j
  {
    if j < |s| {
      assert (a + s)[|a| + j] == s[j];
      CloseShift(a, s, j + 1, if s[j] == '{' then d + 1 else if s[j] == '}' then d - 1 else d);
    }
  }

  lemma SliceShift(a: string, s: string, i: nat, j: nat)
    requires i <= j <= |s|
    ensures (a + s)[|a| + i..|a| + j] == s[i..j]
  {}

  /** What has been scanned does not influence what is still to come. */
  lemma {:induction false} ReservedShift(a: string, s: string, i: nat)
    requires i <= |s|
    ensures ReservedFrom(a + s, |a| + i) == ReservedFrom(s, i)
    decreases |s| - i
  {
    hide RegsFrom, FindFrom, Close;
    FindShift(a, s, KEY, i);
    var f := FindFrom(s, KEY, i);
    if f.Some? {
      FindShift(a, s, "{", f.value);
      var g := FindFrom(s, "{", f.value);
      if g.Some? {
        var start := g.value;
        CloseShift(a, s, start, 0);
        var e := Close(s, start, 0);
        SliceShift(a, s, start, e);
        ReservedShift(a, s, e);
      }
    }
  }

  lemma KeyFirst(key: string, lead: string, rest: string, p: nat)
    requires FindFrom(lead, key, 0) == Some(p)
    ensures FindFrom(lead + rest, key, 0) == Some(p)
  {
    var t := lead + rest;
    assert t[p..p + |key|] == lead[p..p + |key|];
    forall j | 0 <= j < p ensures !At(t, key, j) {
      assert t[j..j + |key|] == lead[j..j + |key|];
      assert !At(lead, key, j);
    }
    FindIs(t, key, 0, p);
  }

  lemma BraceAfterLead(lead: string, ns: seq<Node>, rest: string, p: nat)
    requires p <= |lead| && NoBraceFrom(lead, p)
    ensures
      var t := lead + (BlockText(ns) + rest);
      FindFrom(t, "{", p) == Some(|lead|)
  {
    hide NodesPieces, TextOf;
    var t := lead + (BlockText(ns) + rest);
    assert t[|lead|] == '{';
    FindOne(t, '{', p, |lead|);
  }

  lemma {:induction false} NoBraceFound(s: string, p: nat)
    requires p <= |s| && NoBraceFrom(s, p)
    ensures FindFrom(s, "{", p) == None
    decreases |s| - p
  {
    forall q | p <= q < |s| ensures !At(s, "{", q) {
      assert s[q..q + 1] == [s[q]];
    }
  }

  /** One turn of the outer loop. */
  lemma ReservedTurn(s: string, p: nat, start: nat, e: nat)
    requires p <= |s| && FindFrom(s, KEY, 0) == Some(p) && FindFrom(s, "{", p) == Some(start)
    requires start <= |s| && e == Close(s, start, 0)
    ensures ReservedRanges(s) == RegsFrom(s[start..e], 0) + ReservedFrom(s, e)
  {
    hide FindFrom, Close, RegsFrom;
  }

  lemma OneBlock(lead: string, ns: seq<Node>, rest: string)
    requires Calls(lead) && forall j | 0 <= j < |ns| :: GoodNode(ns[j])
    ensures ReservedRanges(lead + (BlockText(ns) + rest)) == RangesOfNodes(ns) + ReservedRanges(rest)
  {
    hide BlockText, GoodNode, RangesOfNodes, RegsFrom, Close, FindFrom, NoBraceFrom, ReservedFrom;
    var p := FindFrom(lead, KEY, 0).value;
    var block := BlockText(ns);
    var t := lead + (block + rest);
    KeyFirst(KEY, lead, block + rest, p);
    BraceAfterLead(lead, ns, rest, p);
    assert t == lead + block + rest;
    BlockCloses(lead, ns, rest);
    var e := |lead| + |block|;
    ReservedTurn(t, p, |lead|, e);
    assert t[|lead|..e] == block;
    BlockRegs(ns);
    ReservedShift(lead + block, rest, 0);
  }

  /** The scanner takes exactly the ranges of the nodes that open next after the word
      `reserved-memory`, in order: whatever text surrounds them, whatever their children
      are called, and whatever their `reg-names` say. */
  lemma {:induction false} DtsRoundTrip(blocks: seq<Block>, after: string)
    requires GoodDocument(blocks, after)
    ensures ReservedRanges(Document(blocks, after)) == AllRanges(blocks)
    decreases |blocks|
  {
    hide BlockText, GoodNode, RangesOfNodes, NoBraceFrom;
    if blocks == [] {
      var p := FindFrom(after, KEY, 0);
      if p.Some? {
        NoBraceFound(after, p.value);
      }
    } else {
      hide ReservedRanges, Calls;
      OneBlock(blocks[0].lead, blocks[0].nodes, Document(blocks[1..], after));
      DtsRoundTrip(blocks[1..], after);
    }
  }

  // ----- whether that is what was meant

  /** The node is called `reserved-memory`: the word comes last, as a word of its own. */
  predicate Named(lead: string) {
    var n := |lead| - |KEY| - 1;
    n >= 0 && lead[n..] == KEY + " " && (n == 0 || !IsIdent(lead[n - 1]))
  }

  function MeantRanges(blocks: seq<Block>): seq<Range>
    decreases |blocks|
  {
    if blocks == [] then []
    else (if Named(blocks[0].lead) then RangesOfNodes(blocks[0].nodes) else []) + MeantRanges(blocks[1..])
  }

  /** No other node that the word precedes holds a range. */
  predicate NoStrays(blocks: seq<Block>) {
    forall i | 0 <= i < |blocks| :: Named(blocks[i].lead) || blocks[i].nodes == []
  }

  /** The scanner takes the ranges of the `reserved-memory` nodes and no others exactly
      when no other node that holds one is the next to open after the word. */
  lemma TakesOnlyMeantIff(blocks: seq<Block>, after: string)
    requires GoodDocument(blocks, after)
    ensures ReservedRanges(Document(blocks, after)) == MeantRanges(blocks) <==> NoStrays(blocks)
  {
    hide GoodDocument, Document, ReservedRanges;
    DtsRoundTrip(blocks, after);
    MeantOrMore(blocks);
  }

  lemma {:induction false} MeantOrMore(blocks: seq<Block>)
    ensures |MeantRanges(blocks)| <= |AllRanges(blocks)|
    ensures NoStrays(blocks) ==> MeantRanges(blocks) == AllRanges(blocks)
    ensures !NoStrays(blocks) ==> |MeantRanges(blocks)| < |AllRanges(blocks)|
    decreases |blocks|
  {
    hide Named;
    if blocks != [] {
      var b, rest := blocks[0], blocks[1..];
      MeantOrMore(rest);
      assert |RangesOfNodes(b.nodes)| == |b.nodes|;
      if NoStrays(rest) && (Named(b.lead) || b.nodes == []) {
        assert forall i | 1 <= i < |blocks| :: blocks[i] == rest[i - 1];
        assert NoStrays(blocks);
      }
      if NoStrays(blocks) {
        assert forall i | 0 <= i < |rest| :: rest[i] == blocks[i + 1];
        assert NoStrays(rest);
      }
    }
  }

  /** A comment is enough: after the word in one, the root node is taken, and memory
      that nothing reserves counts as reserved. */
  const COMMENT := "/* see " + KEY + " below */ / "

  function CommentedRoot(ram: Range): seq<Block> { [Block(COMMENT, [Node("memory@0", ram, None)])] }

  lemma CommentCalls()
    ensures Calls(COMMENT) && !Named(COMMENT)
  {
    hide Calls, Named;
    WordInText("/* see ", " below */ / ");
  }

  lemma WordInText(a: string, b: string)
    requires Without(a, 'r') && Without(b, '{') && |b| >= 2 && b[|b| - 2] == '/'
    ensures Calls(a + KEY + b) && !Named(a + KEY + b)
  {
    hide FindFrom;
    KeyAfter(a, b);
    var lead := a + KEY + b;
    assert Without(KEY, '{');
    forall q | |a| <= q < |lead| ensures lead[q] != '{' {
      assert lead[q] == if q < |a| + |KEY| then KEY[q - |a|] else b[q - |a| - |KEY|];
    }
    var n := |lead| - |KEY| - 1;
    assert lead[n..][|KEY| - 1] == lead[|lead| - 2] == '/';
    assert (KEY + " ")[|KEY| - 1] == 'y';
  }

  lemma CommentTakesRoot(ram: Range)
    requires U64Range(ram)
    ensures GoodDocument(CommentedRoot(ram), "")
    ensures MeantRanges(CommentedRoot(ram)) == [] && AllRanges(CommentedRoot(ram)) == [ram]
    ensures ReservedRanges(Document(CommentedRoot(ram), "")) == [ram]
  {
    hide Calls, Named, ReservedRanges, Document, COMMENT;
    CommentCalls();
    var blocks := CommentedRoot(ram);
    assert GoodNode(blocks[0].nodes[0]);
    assert FindFrom("", KEY, 0) == None;
    assert blocks[1..] == [];
    assert AllRanges(blocks) == RangesOfNodes(blocks[0].nodes) + AllRanges([]);
    assert MeantRanges(blocks) == [] + MeantRanges([]);
    DtsRoundTrip(blocks, "");
  }

  lemma KeyAfter(a: string, b: string)
    requires Without(a, 'r')
    ensures FindFrom(a + KEY + b, KEY, 0) == Some(|a|)
  {
    var t := a + KEY + b;
    assert t[|a|..|a| + |KEY|] == KEY;
    forall j | 0 <= j < |a| ensures !At(t, KEY, j) {
      assert t[j] == a[j] && KEY[0] == 'r';
    }
    FindIs(t, KEY, 0, |a|);
  }
}
