/** The string operations the two scanners are written in, on ASCII text. */
module Text {
  import opened Basics

  const U64_LIMIT := 0x1_0000_0000_0000_0000

  predicate IsSpace(c: char) {
    c == ' ' || c == '\t' || c == '\n' || c == '\r' || c == 11 as char || c == 12 as char
  }

  predicate NoSpace(s: string) { forall i | 0 <= i < |s| :: !IsSpace(s[i]) }

  function TrimStart(s: string): string
    decreases |s|
  {
    if s != [] && IsSpace(s[0]) then TrimStart(s[1..]) else s
  }

  function TrimEnd(s: string): string
    decreases |s|
  {
    if s != [] && IsSpace(s[|s| - 1]) then TrimEnd(s[..|s| - 1]) else s
  }

  function Trim(s: string): string { TrimEnd(TrimStart(s)) }

  // ----- searching

  predicate At(s: string, pat: string, i: nat) { i + |pat| <= |s| && s[i..i + |pat|] == pat }

  /** `find`: the first place `pat` occurs in `s` at or after `from`. */
  function FindFrom(s: string, pat: string, from: nat): (r: Option<nat>)
    requires from <= |s|
    ensures r.Some? ==> from <= r.value && At(s, pat, r.value) && forall j | from <= j < r.value :: !At(s, pat, j)
    ensures r.None? ==> forall j: nat | from <= j :: !At(s, pat, j)
    decreases |s| - from
  {
    if At(s, pat, from) then Some(from)
    else if from == |s| then None
    else FindFrom(s, pat, from + 1)
  }

  lemma FindIs(s: string, pat: string, from: nat, at: nat)
    requires from <= at && At(s, pat, at) && forall j | from <= j < at :: !At(s, pat, j)
    ensures from <= |s| && FindFrom(s, pat, from) == Some(at)
  {}

  // ----- words

  function FirstWord(s: string): string
    decreases |s|
  {
    if s == [] || IsSpace(s[0]) then [] else [s[0]] + FirstWord(s[1..])
  }

  lemma FirstWordPrefix(s: string)
    ensures |FirstWord(s)| <= |s|
  {}

  /** `split_whitespace`. */
  function Words(s: string): seq<string>
    decreases |s|
  {
    if s == [] then []
    else if IsSpace(s[0]) then Words(s[1..])
    else
      FirstWordPrefix(s);
      assert |FirstWord(s)| >= 1;
      [FirstWord(s)] + Words(s[|FirstWord(s)|..])
  }

  lemma {:induction false} FirstWordOf(w: string, rest: string)
    requires NoSpace(w) && (rest == [] || IsSpace(rest[0]))
    ensures FirstWord(w + rest) == w
    decreases |w|
  {
    if w == [] {
      assert w + rest == rest;
    } else {
      assert (w + rest)[1..] == w[1..] + rest;
      FirstWordOf(w[1..], rest);
    }
  }

  lemma TwoWords(a: string, b: string)
    requires NoSpace(a) && NoSpace(b) && a != [] && b != []
    ensures Words(a + " " + b) == [a, b]
  {
    var s := a + " " + b;
    assert s == a + (" " + b);
    FirstWordOf(a, " " + b);
    assert s[|a|..] == " " + b;
    assert (" " + b)[1..] == b;
    FirstWordOf(b, []);
    assert b + [] == b;
    assert b[|b|..] == [];
    assert Words(b) == [b] + Words([]);
    assert Words(" " + b) == Words(b);
  }

  // ----- numbers

  function DigitValue(c: char): Option<nat> {
    if '0' <= c <= '9' then Some(c as nat - '0' as nat)
    else if 'a' <= c <= 'f' then Some(10 + (c as nat - 'a' as nat))
    else if 'A' <= c <= 'F' then Some(10 + (c as nat - 'A' as nat))
    else None
  }

  function DigitsValue(s: string, radix: nat): Option<nat>
    decreases |s|
  {
    if s == [] then Some(0)
    else
      var front, d := DigitsValue(s[..|s| - 1], radix), DigitValue(s[|s| - 1]);
      if front.Some? && d.Some? && d.value < radix then Some(front.value * radix + d.value) else None
  }

  /** `u64::from_str_radix`: an optional plus sign, at least one digit, no overflow. */
  function ParseRadix(s: string, radix: nat): Option<nat> {
    var digits := if |s| > 1 && s[0] == '+' then s[1..] else s;
    if digits == [] then None
    else
      var v := DigitsValue(digits, radix);
      if v.Some? && v.value < U64_LIMIT then v else None
  }

  predicate HasPrefix(s: string, pre: string) { |pre| <= |s| && s[..|pre|] == pre }

  function ParseAddr(s: string): Option<nat> {
    var t := Trim(s);
    if HasPrefix(t, "0x") || HasPrefix(t, "0X") then ParseRadix(t[2..], 16) else ParseRadix(t, 10)
  }

  // ----- printing numbers

  function HexDigit(d: nat): char
    requires d < 16
  {
    if d < 10 then '0' + d as char else 'a' + (d - 10) as char
  }

  function HexDigits(n: nat): string {
    if n < 16 then [HexDigit(n)] else HexDigits(n / 16) + [HexDigit(n % 16)]
  }

  function PrintHex(n: nat): string { "0x" + HexDigits(n) }

  predicate Hexish(c: char) { '0' <= c <= '9' || 'a' <= c <= 'f' }

  lemma HexDigitBack(d: nat)
    requires d < 16
    ensures DigitValue(HexDigit(d)) == Some(d) && Hexish(HexDigit(d))
  {}

  lemma {:induction false} HexDigitsBack(n: nat)
    ensures HexDigits(n) != [] && DigitsValue(HexDigits(n), 16) == Some(n)
    ensures forall i | 0 <= i < |HexDigits(n)| :: Hexish(HexDigits(n)[i])
    decreases n
  {
    if n < 16 {
      HexDigitBack(n);
      assert HexDigits(n)[..0] == [];
    } else {
      HexDigitsBack(n / 16);
      HexDigitBack(n % 16);
      var s := HexDigits(n);
      assert s[..|s| - 1] == HexDigits(n / 16);
    }
  }

  lemma {:induction false} TrimNoSpace(s: string)
    requires NoSpace(s)
    ensures Trim(s) == s
  {}

  lemma NotSpace(c: char)
    requires Hexish(c) || c == 'x'
    ensures !IsSpace(c) && c != '+'
  {}

  lemma PrintHexChars(n: nat)
    ensures NoSpace(PrintHex(n)) && |PrintHex(n)| > 2
    ensures forall i | 0 <= i < |PrintHex(n)| :: Hexish(PrintHex(n)[i]) || PrintHex(n)[i] == 'x'
  {
    HexDigitsBack(n);
    var s := PrintHex(n);
    forall i | 0 <= i < |s| ensures (Hexish(s[i]) || s[i] == 'x') && !IsSpace(s[i]) {
      if i >= 2 {
        assert s[i] == HexDigits(n)[i - 2];
      }
      NotSpace(s[i]);
    }
  }

  lemma ParseOfPrint(n: nat)
    requires n < U64_LIMIT
    ensures ParseAddr(PrintHex(n)) == Some(n)
  {
    var s := PrintHex(n);
    PrintHexChars(n);
    TrimNoSpace(s);
    HexDigitsBack(n);
    assert s[2..] == HexDigits(n) && s[..2] == "0x";
    NotSpace(HexDigits(n)[0]);
  }
}
