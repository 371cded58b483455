/** The forms in which numbers and lines may be written, and that they make no
    difference. */
module TextForms {
  import opened Basics
  import opened Text

  // ----- white space around a text

  predicate Blank(s: string) { forall i | 0 <= i < |s| :: IsSpace(s[i]) }

  /** Neither its first nor its last character is white space. */
  predicate Tight(s: string) { s != [] && !IsSpace(s[0]) && !IsSpace(s[|s| - 1]) }

  lemma {:induction false} TrimEndOf(s: string, w: string)
    requires Blank(w) && Tight(s)
    ensures TrimEnd(s + w) == s
    decreases |w|
  {
    hide IsSpace;
    var t := s + w;
    if w == [] {
      assert t == s;
    } else {
      assert t[..|t| - 1] == s + w[..|w| - 1];
      TrimEndOf(s, w[..|w| - 1]);
    }
  }

  /** White space around a text is trimmed away, all of it and nothing else. */
  lemma TrimOf(before: string, s: string, after: string)
    requires Blank(before) && Tight(s) && Blank(after)
    ensures Trim(before + s + after) == s
  {
    hide IsSpace, TrimStart, TrimEnd;
    assert before + s + after == before + (s + after);
    TrimStartBefore(before, s + after);
    TrimEndOf(s, after);
  }

  lemma {:induction false} TrimStartBefore(w: string, s: string)
    requires Blank(w) && s != [] && !IsSpace(s[0])
    ensures TrimStart(w + s) == s
    decreases |w|
  {
    hide IsSpace;
    if w == [] {
      assert w + s == s;
    } else {
      assert (w + s)[1..] == w[1..] + s;
      TrimStartBefore(w[1..], s);
    }
  }

  lemma {:induction false} TrimBlank(w: string)
    requires Blank(w)
    ensures Trim(w) == ""
    decreases |w|
  {
    hide IsSpace;
    if w != [] {
      TrimBlank(w[1..]);
    }
  }

  // ----- numbers

  /** White space around a number does not matter. */
  lemma PaddedNumber(before: string, s: string, after: string)
    requires Blank(before) && Tight(s) && Blank(after)
    ensures ParseAddr(before + s + after) == ParseAddr(s)
  {
    hide IsSpace, Trim, ParseRadix;
    TrimOf(before, s, after);
    TrimOf("", s, "");
    assert "" + s + "" == s;
  }

  predicate SameLetter(c: char, d: char) {
    c == d || ('a' <= c <= 'z' && d as int == c as int - 32) || ('a' <= d <= 'z' && c as int == d as int - 32)
  }

  predicate SameLetters(s: string, t: string) { |s| == |t| && forall i | 0 <= i < |s| :: SameLetter(s[i], t[i]) }

  lemma {:induction false} DigitsIgnoreCase(s: string, t: string, radix: nat)
    requires SameLetters(s, t)
    ensures DigitsValue(s, radix) == DigitsValue(t, radix)
    decreases |s|
  {
    if s != [] {
      DigitsIgnoreCase(s[..|s| - 1], t[..|t| - 1], radix);
      assert SameLetter(s[|s| - 1], t[|t| - 1]);
    }
  }

  /** Hexadecimal numbers may be written in capitals, the prefix too. */
  lemma HexIgnoresCase(s: string, t: string)
    requires NoSpace(s) && NoSpace(t) && SameLetters(s, t) && HasPrefix(s, "0x")
    ensures ParseAddr(s) == ParseAddr(t)
  {
    TrimNoSpace(s);
    TrimNoSpace(t);
    assert SameLetter(s[0], t[0]) && SameLetter(s[1], t[1]);
    assert s[..2] == "0x" && s[0] == '0' && s[1] == 'x';
    assert t[0] == '0' && (t[1] == 'x' || t[1] == 'X');
    assert t[..2] == [t[0], t[1]];
    var a, b := s[2..], t[2..];
    assert SameLetters(a, b) by {
      forall i | 0 <= i < |a| ensures SameLetter(a[i], b[i]) {
        assert SameLetter(s[i + 2], t[i + 2]);
      }
    }
    PlusKept(a, b);
    DigitsIgnoreCase(a, b, 16);
    if |a| > 1 && a[0] == '+' {
      assert SameLetters(a[1..], b[1..]);
      DigitsIgnoreCase(a[1..], b[1..], 16);
    }
  }

  lemma PlusKept(a: string, b: string)
    requires SameLetters(a, b)
    ensures a != [] ==> (a[0] == '+' <==> b[0] == '+')
  {
    if a != [] {
      assert SameLetter(a[0], b[0]);
    }
  }

  /** Decimal printing. */
  function DecDigits(n: nat): string {
    if n < 10 then ['0' + n as char] else DecDigits(n / 10) + ['0' + (n % 10) as char]
  }

  lemma {:induction false} DecDigitsBack(n: nat)
    ensures DecDigits(n) != [] && DigitsValue(DecDigits(n), 10) == Some(n)
    ensures forall i | 0 <= i < |DecDigits(n)| :: '0' <= DecDigits(n)[i] <= '9'
    decreases n
  {
    if n < 10 {
      assert DigitsValue([], 10) == Some(0);
      assert ['0' + n as char][..0] == [];
    } else {
      DecDigitsBack(n / 10);
      var s := DecDigits(n);
      assert s[..|s| - 1] == DecDigits(n / 10) && s[|s| - 1] == '0' + (n % 10) as char;
    }
  }

  /** Decimal numbers are read too, up to 64 bits and no further. */
  lemma DecimalBack(n: nat)
    ensures ParseAddr(DecDigits(n)) == if n <= 18446744073709551615 then Some(n) else None
  {
    DecDigitsBack(n);
    DigitsAreNoHex(DecDigits(n));
    hide DecDigits, DigitsValue;
  }

  lemma DigitsAreNoHex(s: string)
    requires s != [] && forall i | 0 <= i < |s| :: '0' <= s[i] <= '9'
    ensures s[0] != '+' && ParseAddr(s) == ParseRadix(s, 10)
  {
    hide ParseRadix;
    assert NoSpace(s);
    TrimNoSpace(s);
    if |s| >= 2 {
      assert s[..2] == [s[0], s[1]];
      assert s[1] != 'x' && s[1] != 'X' && "0x"[1] == 'x' && "0X"[1] == 'X';
    }
  }

  /** And hexadecimal ones likewise. */
  lemma HexBack(n: nat)
    ensures ParseAddr(PrintHex(n)) == if n <= 18446744073709551615 then Some(n) else None
  {
    HexDigitsBack(n);
    PrintHexChars(n);
    var s, h := PrintHex(n), HexDigits(n);
    TrimNoSpace(s);
    hide HexDigits, DigitsValue;
    assert s[..2] == "0x" && s[2..] == h;
    assert h[0] != '+' by { NotSpace(h[0]); }
  }

  /** A text with a character that is no digit is no number. */
  lemma {:induction false} NotANumber(s: string, radix: nat, i: nat)
    requires i < |s| && (DigitValue(s[i]).None? || DigitValue(s[i]).value >= radix)
    ensures DigitsValue(s, radix) == None
    decreases |s|
  {
    if i < |s| - 1 {
      NotANumber(s[..|s| - 1], radix, i);
    }
  }

  /** One plus sign before the digits is allowed; alone it is no number. */
  lemma PlusSign(s: string, radix: nat)
    requires s != "" && s[0] != '+'
    ensures ParseRadix("+" + s, radix) == ParseRadix(s, radix) && ParseRadix("+", radix) == None
  {
    assert ("+" + s)[1..] == s;
    NotANumber("+", radix, 0);
  }

  /** Nor is nothing at all, with or without the prefix. */
  lemma NothingIsNoNumber()
    ensures ParseAddr("") == None && ParseAddr("0x") == None && ParseAddr("zz") == None && ParseAddr("0xg") == None
  {
    TrimNoSpace("0x");
    TrimNoSpace("zz");
    TrimNoSpace("0xg");
    assert "0x"[..2] == "0x" && "0x"[2..] == "";
    assert "0xg"[..2] == "0x" && "0xg"[2..] == "g";
    NotANumber("g", 16, 0);
    NotANumber("zz", 10, 0);
    assert "zz"[..2] == "zz" && "zz"[0] != '0';
  }
}
