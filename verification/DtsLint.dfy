/** The devicetree scanner: which ranges the `reserved-memory` nodes of a text
    reserve. */
module DtsLint {
  import opened Basics
  import opened Text

  datatype Range = Range(start: nat, size: nat)

  predicate IsIdent(c: char) {
    '0' <= c <= '9' || 'a' <= c <= 'z' || 'A' <= c <= 'Z' || c == '_' || c == '-'
  }

  predicate IsBlank(c: char) { c == ' ' || c == '\t' || c == '\r' || c == '\n' }

  function SkipBlank(s: string, i: nat): (a: nat)
    requires i <= |s|
    ensures i <= a <= |s| && (a < |s| ==> !IsBlank(s[a]))
    ensures forall q | i <= q < a :: IsBlank(s[q])
    decreases |s| - i
  {
    if i < |s| && IsBlank(s[i]) then SkipBlank(s, i + 1) else i
  }

  /** The range of the `reg` property starting at `p`, if that is what is there: an
      identifier boundary before it, `=` after optional blanks, two numbers between
      the next angle brackets. */
  function RegAt(b: string, p: nat): seq<Range>
    requires p + 3 <= |b|
  {
    var a := SkipBlank(b, p + 3);
    if !((p == 0 || !IsIdent(b[p - 1])) && a < |b| && b[a] == '=') then []
    else match FindFrom(b, "<", a)
      case None => []
      case Some(lt) =>
        match FindFrom(b, ">", lt)
        case None => []
        case Some(gt) => AngleOrder(b, lt, gt); RangeIn(b[lt + 1..gt])
  }

  /** The first two numbers of a cell list. */
  function RangeIn(cells: string): seq<Range> {
    var nums := Words(cells);
    if |nums| >= 2 && ParseAddr(nums[0]).Some? && ParseAddr(nums[1]).Some?
    then [Range(ParseAddr(nums[0]).value, ParseAddr(nums[1]).value)] else []
  }

  /** The `reg` loop over a block, from position `k` on. */
  function RegsFrom(b: string, k: nat): seq<Range>
    requires k <= |b|
    decreases |b| - k
  {
    match FindFrom(b, "reg", k)
    case None => []
    case Some(p) => RegAt(b, p) + RegsFrom(b, p + 3)
  }

  /** Where the node whose braces are counted from `j` on ends. */
  function Close(s: string, j: nat, depth: int): (e: nat)
    requires j <= |s|
    ensures j <= e <= |s| && (j < |s| ==> j < e)
    decreases |s| - j
  {
    if j == |s| then j
    else if s[j] == '{' then Close(s, j + 1, depth + 1)
    else if s[j] == '}' then (if depth - 1 == 0 then j + 1 else Close(s, j + 1, depth - 1))
    else Close(s, j + 1, depth)
  }

  const KEY := "reserved-memory"

  /** The outer loop: every `reserved-memory` from position `i` on. */
  function ReservedFrom(s: string, i: nat): seq<Range>
    requires i <= |s|
    decreases |s| - i
  {
    match FindFrom(s, KEY, i)
    case None => []
    case Some(p) =>
      match FindFrom(s, "{", p)
      case None => []
      case Some(start) =>
        var e := Close(s, start, 0);
        RegsFrom(s[start..e], 0) + ReservedFrom(s, e)
  }

  function ReservedRanges(s: string): seq<Range> { ReservedFrom(s, 0) }

  // ----- the loops

  method ScanRegs(block: string) returns (out: seq<Range>)
    ensures out == RegsFrom(block, 0)
  {
    hide RangeIn, RegAt, FindFrom;
    out := [];
    var k := 0;
    while true
      invariant k <= |block| && RegsFrom(block, 0) == out + RegsFrom(block, k)
      decreases |block| - k
    {
      var rel := FindFrom(block, "reg", k);
      if rel.None? {
        break;
      }
      var p := rel.value;
      k := p + 3;
      var hit := ReadReg(block, p);
      assert out + (hit + RegsFrom(block, k)) == (out + hit) + RegsFrom(block, k);
      out := out + hit;
    }
  }

  method ReadReg(block: string, p: nat) returns (hit: seq<Range>)
    requires p + 3 <= |block|
    ensures hit == RegAt(block, p)
  {
    hide RangeIn, FindFrom;
    var beforeOk := p == 0 || !IsIdent(block[p - 1]);
    var a := p + 3;
    while a < |block| && IsBlank(block[a])
      invariant p + 3 <= a <= |block| && SkipBlank(block, p + 3) == SkipBlank(block, a)
    {
      a := a + 1;
    }
    if !(beforeOk && a < |block| && block[a] == '=') {
      return [];
    }
    var lt := FindFrom(block, "<", a);
    if lt.None? {
      return [];
    }
    var gt := FindFrom(block, ">", lt.value);
    if gt.None? {
      return [];
    }
    AngleOrder(block, lt.value, gt.value);
    hit := ReadRange(block[lt.value + 1..gt.value]);
  }

  method ReadRange(cells: string) returns (hit: seq<Range>)
    ensures hit == RangeIn(cells)
  {
    hide Words, ParseAddr;
    var nums := Words(cells);
    hit := [];
    if |nums| >= 2 {
      var addr, sz := ParseAddr(nums[0]), ParseAddr(nums[1]);
      if addr.Some? && sz.Some? {
        hit := [Range(addr.value, sz.value)];
      }
    }
  }

  lemma AngleOrder(b: string, lt: nat, gt: nat)
    requires At(b, "<", lt) && At(b, ">", gt)
    ensures lt < |b| && gt < |b| && lt != gt
  {
    assert b[lt] == b[lt..lt + 1][0] && b[gt] == b[gt..gt + 1][0];
  }

  method FindBrace(dt: string, from: nat) returns (j: nat)
    requires from <= |dt|
    ensures j <= |dt| && FindFrom(dt, "{", from) == if j < |dt| then Some(j) else None
  {
    j := from;
    while j < |dt| && dt[j] != '{'
      invariant from <= j <= |dt|
      invariant forall q | from <= q < j :: dt[q] != '{'
    {
      j := j + 1;
    }
    BraceFound(dt, from, j);
  }

  method CloseBrace(dt: string, start: nat) returns (j: nat)
    requires start <= |dt|
    ensures j == Close(dt, start, 0)
  {
    var depth := 0;
    j := start;
    while j < |dt|
      invariant start <= j <= |dt| && Close(dt, start, 0) == Close(dt, j, depth)
    {
      if dt[j] == '{' {
        depth := depth + 1;
      } else if dt[j] == '}' {
        depth := depth - 1;
        if depth == 0 {
          j := j + 1;
          return;
        }
      }
      j := j + 1;
    }
  }

  /** `parse_reserved_ranges`. It ends on every text. */
  method ParseReservedRanges(dt: string) returns (out: seq<Range>)
    ensures out == ReservedRanges(dt)
  {
    hide RegsFrom;
    out := [];
    var i := 0;
    while true
      invariant i <= |dt| && ReservedFrom(dt, 0) == out + ReservedFrom(dt, i)
      decreases |dt| - i
    {
      var pos := FindFrom(dt, KEY, i);
      if pos.None? {
        break;
      }
      var start := FindBrace(dt, pos.value);
      if start >= |dt| {
        break;
      }
      var j := CloseBrace(dt, start);
      var found := ScanRegs(dt[start..j]);
      out := out + found;
      i := j;
    }
  }

  lemma BraceFound(dt: string, from: nat, j: nat)
    requires from <= j <= |dt| && (forall q | from <= q < j :: dt[q] != '{') && (j < |dt| ==> dt[j] == '{')
    ensures FindFrom(dt, "{", from) == if j < |dt| then Some(j) else None
  {
    forall q: nat | q < |dt| ensures At(dt, "{", q) <==> dt[q] == '{' {
      assert dt[q..q + 1] == [dt[q]];
    }
  }
}
