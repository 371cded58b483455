/** Which loader names are known to be safe, stated on the letters of the name. */
module LoaderNames {
  import opened Basics
  import opened Text
  import opened IniLint

  predicate Letter(c: char) { 'a' <= c <= 'z' || 'A' <= c <= 'Z' }

  predicate LetterOrDigit(c: char) { Letter(c) || '0' <= c <= '9' }

  /** `at` lists, in order, the places of the letters and digits of `name`. */
  predicate Kept(name: string, at: seq<nat>) {
    && (forall k | 0 <= k < |at| :: at[k] < |name| && LetterOrDigit(name[at[k]]))
    && (forall k, l | 0 <= k < l < |at| :: at[k] < at[l])
    && (forall i | 0 <= i < |name| && LetterOrDigit(name[i]) :: i in at)
  }

  /** The same character, or the small letter of a capital. */
  predicate SpeltAs(c: char, d: char) { if 'A' <= c <= 'Z' then d as int == c as int + 32 else d == c }

  /** `word` has those characters, capitals made small. */
  predicate Spells(name: string, at: seq<nat>, word: string)
    requires Kept(name, at)
  {
    && |word| == |at|
    && forall k | 0 <= k < |at| :: SpeltAs(name[at[k]], word[k])
  }

  lemma {:induction false} NormalizedSnoc(s: string, c: char)
    ensures Normalized(s + [c]) == Normalized(s) + if Alphanumeric(c) then [LowerChar(c)] else []
    decreases |s|
  {
    if s == [] {
      assert [c][1..] == [];
    } else {
      hide Alphanumeric, LowerChar;
      var head := if Alphanumeric(s[0]) then [LowerChar(s[0])] else [];
      var tail := if Alphanumeric(c) then [LowerChar(c)] else [];
      assert (s + [c])[1..] == s[1..] + [c];
      NormalizedSnoc(s[1..], c);
      Regroup(head, Normalized(s[1..]), tail);
    }
  }

  lemma Regroup(a: string, b: string, c: string)
    ensures a + (b + c) == a + b + c
  {}

  lemma {:induction false} NormalizedSpells(name: string, at: seq<nat>)
    requires Kept(name, at)
    ensures Spells(name, at, Normalized(name))
    decreases |name|
  {
    hide Kept, Spells, Normalized, LetterOrDigit;
    if name == [] {
      NothingSpelt(name, at);
    } else {
      var last := |name| - 1;
      var front := name[..last];
      assert name == front + [name[last]];
      NormalizedSnoc(front, name[last]);
      if LetterOrDigit(name[last]) {
        LastKept(name, at);
        NormalizedSpells(front, at[..|at| - 1]);
        SpellsLast(name, at, Normalized(front));
      } else {
        LastSkipped(name, at);
        NormalizedSpells(front, at);
        SpellsSkip(name, at, Normalized(front));
      }
    }
  }

  lemma NothingSpelt(name: string, at: seq<nat>)
    requires name == [] && Kept(name, at)
    ensures Spells(name, at, Normalized(name))
  {
    if at != [] {
      KeptPlace(name, at, 0);
    }
  }

  lemma KeptPlace(name: string, at: seq<nat>, k: nat)
    requires Kept(name, at) && k < |at|
    ensures at[k] < |name| && LetterOrDigit(name[at[k]])
    ensures k < |at| - 1 ==> at[k] < at[|at| - 1]
  {
    hide LetterOrDigit;
  }

  lemma KeptIndex(name: string, at: seq<nat>, i: nat) returns (k: nat)
    requires Kept(name, at) && i < |name| && LetterOrDigit(name[i])
    ensures k < |at| && at[k] == i
  {
    hide LetterOrDigit;
    k :| k < |at| && at[k] == i;
  }

  lemma KeptIs(name: string, at: seq<nat>)
    requires forall k | 0 <= k < |at| :: at[k] < |name| && LetterOrDigit(name[at[k]])
    requires forall k, l | 0 <= k < l < |at| :: at[k] < at[l]
    requires forall i | 0 <= i < |name| && LetterOrDigit(name[i]) :: i in at
    ensures Kept(name, at)
  {
    hide LetterOrDigit;
  }

  lemma KeptOrder(name: string, at: seq<nat>)
    requires Kept(name, at)
    ensures forall k, l | 0 <= k < l < |at| :: at[k] < at[l]
  {
    hide LetterOrDigit;
  }

  /** If the last character is a letter or digit its place is the last. */
  lemma LastKept(name: string, at: seq<nat>)
    requires Kept(name, at) && name != [] && LetterOrDigit(name[|name| - 1])
    ensures at != [] && at[|at| - 1] == |name| - 1 && Kept(name[..|name| - 1], at[..|at| - 1])
  {
    hide Kept, LetterOrDigit;
    var last := |name| - 1;
    var z := KeptIndex(name, at, last);
    var front, init := name[..last], at[..|at| - 1];
    KeptPlace(name, at, z);
    KeptPlace(name, at, |at| - 1);
    forall k | 0 <= k < |init| ensures init[k] < |front| && LetterOrDigit(front[init[k]]) {
      KeptPlace(name, at, k);
    }
    forall i | 0 <= i < |front| && LetterOrDigit(front[i]) ensures i in init {
      var k := KeptIndex(name, at, i);
      assert init[k] == i;
    }
    KeptOrder(name, at);
    KeptIs(front, init);
  }

  lemma LastSkipped(name: string, at: seq<nat>)
    requires Kept(name, at) && name != [] && !LetterOrDigit(name[|name| - 1])
    ensures Kept(name[..|name| - 1], at)
  {
    hide Kept, LetterOrDigit;
    var front := name[..|name| - 1];
    forall k | 0 <= k < |at| ensures at[k] < |front| && LetterOrDigit(front[at[k]]) {
      KeptPlace(name, at, k);
    }
    forall i | 0 <= i < |front| && LetterOrDigit(front[i]) ensures i in at {
      var k := KeptIndex(name, at, i);
    }
    KeptOrder(name, at);
    KeptIs(front, at);
  }

  lemma SpellsLast(name: string, at: seq<nat>, w: string)
    requires Kept(name, at) && name != [] && at != [] && at[|at| - 1] == |name| - 1
    requires Kept(name[..|name| - 1], at[..|at| - 1]) && Spells(name[..|name| - 1], at[..|at| - 1], w)
    ensures Alphanumeric(name[|name| - 1]) && Spells(name, at, w + [LowerChar(name[|name| - 1])])
  {
    KeptPlace(name, at, |at| - 1);
    var c := name[|name| - 1];
    assert SpeltAs(c, LowerChar(c));
    hide Kept, SpeltAs, LetterOrDigit, LowerChar;
    var word := w + [LowerChar(c)];
    forall k | 0 <= k < |at| ensures at[k] < |name| && SpeltAs(name[at[k]], word[k]) {
      KeptPlace(name, at, k);
      if k < |at| - 1 {
        assert at[..|at| - 1][k] == at[k];
        assert name[..|name| - 1][at[k]] == name[at[k]];
      }
    }
  }

  lemma SpellsSkip(name: string, at: seq<nat>, w: string)
    requires Kept(name, at) && name != [] && !LetterOrDigit(name[|name| - 1])
    requires Kept(name[..|name| - 1], at) && Spells(name[..|name| - 1], at, w)
    ensures !Alphanumeric(name[|name| - 1]) && Spells(name, at, w + [])
  {
    assert !Alphanumeric(name[|name| - 1]);
    hide Kept, SpeltAs, LetterOrDigit;
    assert w + [] == w;
    forall k | 0 <= k < |at| ensures at[k] < |name| && SpeltAs(name[at[k]], w[k]) {
      KeptPlace(name[..|name| - 1], at, k);
      assert name[..|name| - 1][at[k]] == name[at[k]];
    }
  }

  /** Two words that spell the same are the same. */
  lemma SpellsOnce(name: string, at: seq<nat>, v: string, w: string)
    requires Kept(name, at) && Spells(name, at, v) && Spells(name, at, w)
    ensures v == w
  {
    assert forall k | 0 <= k < |at| :: v[k] == w[k];
  }

  lemma {:induction false} PlacesExist(name: string) returns (at: seq<nat>)
    ensures Kept(name, at)
    decreases |name|
  {
    if name == [] {
      at := [];
    } else {
      var last := |name| - 1;
      at := PlacesExist(name[..last]);
      assert forall i | 0 <= i < last :: name[..last][i] == name[i];
      if LetterOrDigit(name[last]) {
        var more := at + [last];
        assert forall i | 0 <= i < |name| && LetterOrDigit(name[i]) :: i in more;
        at := more;
      }
    }
  }

  /** A name is known to be safe exactly when its letters and digits, capitals made small
      and everything else left out, spell one of twenty words: the whole word. */
  lemma KnownSafeIff(name: string, at: seq<nat>, word: string)
    requires Kept(name, at) && Spells(name, at, word)
    ensures KnownSafe(name) <==> word in {
              "flashdata", "flashboot", "nandboot", "nandboot1", "nandboot2", "sdboot", "emmcboot", "spinorboot",
              "ddr", "usbplug", "spl", "uboot", "loader", "miniloader", "trust", "tee", "atf", "bl31", "fsbl",
              "idblock"}
  {
    NormalizedSpells(name, at);
    SpellsOnce(name, at, word, Normalized(name));
  }

  /** So lengthening a name lengthens the word: it stays safe only if the longer word is
      one of the twenty too. */
  lemma LongerNameIff(name: string, more: string, at: seq<nat>, word: string, end: string)
    requires Kept(name, at) && Spells(name, at, word)
    requires |end| == |more| && forall i | 0 <= i < |more| ::
               && LetterOrDigit(more[i])
               && SpeltAs(more[i], end[i])
    ensures KnownSafe(name + more) <==> word + end in {
              "flashdata", "flashboot", "nandboot", "nandboot1", "nandboot2", "sdboot", "emmcboot", "spinorboot",
              "ddr", "usbplug", "spl", "uboot", "loader", "miniloader", "trust", "tee", "atf", "bl31", "fsbl",
              "idblock"}
  {
    var places := at + seq(|more|, i requires 0 <= i < |more| => |name| + i);
    LongerPlaces(name, more, at, places);
    LongerSpells(name, more, at, places, word, end);
    KnownSafeIff(name + more, places, word + end);
  }

  lemma LongerPlaces(name: string, more: string, at: seq<nat>, places: seq<nat>)
    requires Kept(name, at) && forall i | 0 <= i < |more| :: LetterOrDigit(more[i])
    requires places == at + seq(|more|, i requires 0 <= i < |more| => |name| + i)
    ensures Kept(name + more, places)
  {
    forall i | 0 <= i < |name + more| && LetterOrDigit((name + more)[i]) ensures i in places {
      if i < |name| {
        assert i in at;
      } else {
        assert places[|at| + i - |name|] == i;
      }
    }
  }

  lemma LongerSpells(name: string, more: string, at: seq<nat>, places: seq<nat>, word: string, end: string)
    requires Kept(name, at) && Spells(name, at, word) && Kept(name + more, places)
    requires |end| == |more| && forall i | 0 <= i < |more| ::
               SpeltAs(more[i], end[i])
    requires places == at + seq(|more|, i requires 0 <= i < |more| => |name| + i)
    ensures Spells(name + more, places, word + end)
  {
    forall k | 0 <= k < |places|
      ensures SpeltAs((name + more)[places[k]], (word + end)[k])
    {
      if k >= |at| {
        assert places[k] == |name| + (k - |at|);
      }
    }
  }

  /** Names that only begin like a safe one are not, nor is the coprocessor's. */
  lemma CoprocessorsAreChecked()
    ensures !KnownSafe("SplRtos") && !KnownSafe("Hpmcu")
  {
    hide KnownSafe;
    SplRtosIsNot();
    HpmcuIsNot();
  }

  lemma SplRtosIsNot()
    ensures !KnownSafe("SplRtos")
  {
    hide SAFE;
    CheckedName("SplRtos", "splrtos");
    NotAWord("splrtos");
  }

  lemma HpmcuIsNot()
    ensures !KnownSafe("Hpmcu")
  {
    hide SAFE;
    CheckedName("Hpmcu", "hpmcu");
    NotAWord("hpmcu");
  }

  /** Told apart by length and two letters. */
  lemma NotAWord(word: string)
    requires (|word| == 7 && word[1] == 'p') || (|word| == 5 && word[0] == 'h')
    ensures word !in SAFE
  {}

  lemma CheckedName(name: string, word: string)
    requires |word| == |name| && forall i | 0 <= i < |name| ::
               && LetterOrDigit(name[i])
               && SpeltAs(name[i], word[i])
    ensures KnownSafe(name) <==> word in SAFE
  {
    var at := seq(|name|, i requires 0 <= i < |name| => i as nat);
    forall i | 0 <= i < |name| ensures i in at {
      assert at[i] == i;
    }
    KnownSafeIff(name, at, word);
  }
}
